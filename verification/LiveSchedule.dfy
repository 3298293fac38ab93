// packages/drift/src/live-validator.ts, the workers of runLiveValidation: a
// shared cursor, adapters taken at once and settling in any order. In which
// orders can they settle?
module LiveSchedule {
  datatype Phase = Idle | Busy(adapter: nat) | Stopped

  /** The shared cursor, the workers, and the adapters settled so far, each with a clock reading. */
  datatype Moment = Moment(cursor: nat, phases: seq<Phase>, done: seq<(nat, string)>)

  predicate NoneIdle(phases: seq<Phase>) { forall w | 0 <= w < |phases| :: !phases[w].Idle? }

  /**
   * One event of worker `w`: it takes the next adapter, or finds none and stops; or its adapter settles. A worker
   * takes an adapter without waiting, so nothing settles while one is idle.
   */
  predicate MoveOf(n: nat, s: Moment, t: Moment, w: nat) {
    && w < |s.phases|
    && match s.phases[w]
       case Idle =>
         if s.cursor < n then t == Moment(s.cursor + 1, s.phases[w := Busy(s.cursor)], s.done)
         else t == Moment(s.cursor, s.phases[w := Stopped], s.done)
       case Busy(a) =>
         && NoneIdle(s.phases) && |t.done| == |s.done| + 1
         && t == Moment(s.cursor, s.phases[w := Idle], s.done + [(a, t.done[|s.done|].1)])
       case Stopped => false
  }

  ghost predicate Moves(n: nat, s: Moment, t: Moment) { exists w: nat :: MoveOf(n, s, t, w) }

  function AllIdle(workers: nat): seq<Phase> { seq(workers, i => Idle) }

  function Start(workers: nat): Moment { Moment(0, AllIdle(workers), []) }

  /** Any sequence of such events over `n` adapters, from the start. */
  ghost predicate History(n: nat, workers: nat, moments: seq<Moment>) {
    && moments != [] && moments[0] == Start(workers)
    && forall k: nat :: MovesAt(n, moments, k)
  }

  ghost predicate MovesAt(n: nat, moments: seq<Moment>, k: nat) {
    k + 1 < |moments| ==> Moves(n, moments[k], moments[k + 1])
  }

  function Last(moments: seq<Moment>): Moment
    requires moments != []
  {
    moments[|moments| - 1]
  }

  predicate Finished(phases: seq<Phase>) { forall w | 0 <= w < |phases| :: phases[w].Stopped? }

  /** One that ends with every worker stopped. */
  ghost predicate Schedule(n: nat, workers: nat, moments: seq<Moment>) {
    History(n, workers, moments) && Finished(Last(moments).phases)
  }

  lemma HistoryNext(n: nat, workers: nat, moments: seq<Moment>, t: Moment)
    requires History(n, workers, moments) && Moves(n, Last(moments), t)
    ensures History(n, workers, moments + [t])
  {
    hide Moves;
    var more := moments + [t];
    forall k: nat ensures MovesAt(n, more, k) {
      if k + 1 < |moments| {
        assert MovesAt(n, moments, k);
        assert more[k] == moments[k] && more[k + 1] == moments[k + 1];
      }
    }
  }

  // ----- counting workers

  function CountPhases(phases: seq<Phase>, weight: Phase -> nat): nat {
    if phases == [] then 0 else CountPhases(phases[..|phases| - 1], weight) + weight(phases[|phases| - 1])
  }

  function Weight(p: Phase): nat {
    match p
    case Idle => 1
    case Busy(_) => 2
    case Stopped => 0
  }

  function InFlight(p: Phase): nat { if p.Busy? then 1 else 0 }

  function Idleness(p: Phase): nat { if p.Idle? then 1 else 0 }

  lemma {:induction false} CountUpdate(phases: seq<Phase>, w: nat, p: Phase, weight: Phase -> nat)
    requires w < |phases|
    ensures CountPhases(phases[w := p], weight) == CountPhases(phases, weight) - weight(phases[w]) + weight(p)
  {
    var n := |phases| - 1;
    if w == n {
      assert phases[w := p][..n] == phases[..n];
    } else {
      assert phases[w := p][..n] == phases[..n][w := p];
      CountUpdate(phases[..n], w, p, weight);
    }
  }

  lemma {:induction false} CountBound(phases: seq<Phase>)
    ensures CountPhases(phases, InFlight) <= |phases|
    ensures (forall w | 0 <= w < |phases| :: phases[w].Busy?) ==> CountPhases(phases, InFlight) == |phases|
    ensures (exists w | 0 <= w < |phases| :: phases[w].Busy?) ==> CountPhases(phases, InFlight) > 0
  {
    if phases != [] {
      CountBound(phases[..|phases| - 1]);
    }
  }

  lemma {:induction false} NoneInFlight(workers: nat)
    ensures CountPhases(AllIdle(workers), InFlight) == 0
  {
    if workers > 0 {
      assert AllIdle(workers)[..workers - 1] == AllIdle(workers - 1);
      NoneInFlight(workers - 1);
    }
  }

  // ----- what every history keeps

  /** Which adapters the workers have in hand. */
  predicate InHand(phases: seq<Phase>, i: nat) { exists w | 0 <= w < |phases| :: phases[w] == Busy(i) }

  predicate IsDone(done: seq<(nat, string)>, i: nat) { exists k | 0 <= k < |done| :: done[k].0 == i }

  /** Each settled once, and none ahead of its place by as much as there are workers. */
  predicate InTurn(workers: nat, done: seq<(nat, string)>) {
    && (forall j, k | 0 <= j < k < |done| :: done[j].0 != done[k].0)
    && (forall k | 0 <= k < |done| :: done[k].0 < k + workers)
  }

  /** Started adapters are those below the cursor; each is done once or in one worker's hand, never both. */
  ghost predicate Accounted(n: nat, m: Moment) {
    && m.cursor <= n
    && (forall k | 0 <= k < |m.done| :: m.done[k].0 < m.cursor)
    && (forall w | 0 <= w < |m.phases| && m.phases[w].Busy? ::
        m.phases[w].adapter < m.cursor && !IsDone(m.done, m.phases[w].adapter))
    && (forall v, w | 0 <= v < w < |m.phases| && m.phases[v].Busy? && m.phases[w].Busy? ::
        m.phases[v].adapter != m.phases[w].adapter)
    && (forall i: nat | i < m.cursor :: IsDone(m.done, i) || InHand(m.phases, i))
    && ((exists w | 0 <= w < |m.phases| :: m.phases[w].Stopped?) ==> m.cursor == n)
  }

  lemma TakeKeeps(n: nat, s: Moment, t: Moment, w: nat)
    requires Accounted(n, s) && MoveOf(n, s, t, w) && s.phases[w].Idle?
    ensures Accounted(n, t)
  {
    forall i: nat | i < t.cursor ensures IsDone(t.done, i) || InHand(t.phases, i) {
      if i == s.cursor {
        assert t.phases[w] == Busy(i);
      } else if !IsDone(s.done, i) {
        var v :| 0 <= v < |s.phases| && s.phases[v] == Busy(i);
        assert t.phases[v] == Busy(i);
      }
    }
  }

  lemma SettleKeeps(n: nat, s: Moment, t: Moment, w: nat)
    requires Accounted(n, s) && MoveOf(n, s, t, w) && s.phases[w].Busy?
    ensures Accounted(n, t)
  {
    var a := s.phases[w].adapter;
    forall i: nat ensures IsDone(t.done, i) <==> IsDone(s.done, i) || i == a {
      if IsDone(s.done, i) {
        var k :| 0 <= k < |s.done| && s.done[k].0 == i;
        assert t.done[k].0 == i;
      }
      assert t.done[|s.done|].0 == a;
    }
    forall i: nat | i < t.cursor ensures IsDone(t.done, i) || InHand(t.phases, i) {
      if !IsDone(s.done, i) && i != a {
        var v :| 0 <= v < |s.phases| && s.phases[v] == Busy(i);
        assert t.phases[v] == Busy(i);
      }
    }
  }

  /** As many workers as ever, and one started adapter for each that is settled or in flight. */
  ghost predicate Counted(workers: nat, m: Moment) {
    && |m.phases| == workers && |m.done| + CountPhases(m.phases, InFlight) == m.cursor
    && InTurn(workers, m.done)
  }

  lemma MoveCounts(n: nat, workers: nat, s: Moment, t: Moment, w: nat)
    requires Counted(workers, s) && Accounted(n, s) && MoveOf(n, s, t, w)
    ensures Counted(workers, t)
  {
    CountUpdate(s.phases, w, t.phases[w], InFlight);
    CountBound(s.phases);
    if s.phases[w].Busy? {
      var a := s.phases[w].adapter;
      forall k | 0 <= k < |s.done| ensures s.done[k].0 != a {
        assert IsDone(s.done, s.done[k].0);
      }
    }
  }

  lemma {:induction false} HistoryKeeps(n: nat, workers: nat, moments: seq<Moment>, k: nat)
    requires History(n, workers, moments) && k < |moments|
    ensures Accounted(n, moments[k]) && Counted(workers, moments[k])
  {
    if k == 0 {
      NoneInFlight(workers);
    } else {
      HistoryKeeps(n, workers, moments, k - 1);
      assert MovesAt(n, moments, k - 1);
      var w: nat :| MoveOf(n, moments[k - 1], moments[k], w);
      hide Accounted, Counted;
      MoveCounts(n, workers, moments[k - 1], moments[k], w);
      if moments[k - 1].phases[w].Idle? {
        TakeKeeps(n, moments[k - 1], moments[k], w);
      } else {
        SettleKeeps(n, moments[k - 1], moments[k], w);
      }
    }
  }

  /** At no moment are more adapters in flight than there are workers. */
  lemma InFlightBound(n: nat, workers: nat, moments: seq<Moment>, k: nat)
    requires History(n, workers, moments) && k < |moments|
    ensures CountPhases(moments[k].phases, InFlight) <= workers
  {
    HistoryKeeps(n, workers, moments, k);
    CountBound(moments[k].phases);
  }

  // ----- every adapter is started and settled exactly once

  /** Event `k` starts adapter `a`. */
  predicate Starts(moments: seq<Moment>, k: nat, a: nat) {
    && k + 1 < |moments| && moments[k].cursor == a && moments[k + 1].cursor == a + 1
    && InHand(moments[k + 1].phases, a)
  }

  lemma {:induction false} CursorGrows(n: nat, workers: nat, moments: seq<Moment>, i: nat, j: nat)
    requires History(n, workers, moments) && i <= j < |moments|
    ensures moments[i].cursor <= moments[j].cursor <= moments[i].cursor + (j - i)
  {
    if i < j {
      CursorGrows(n, workers, moments, i, j - 1);
      assert MovesAt(n, moments, j - 1);
    }
  }

  lemma {:induction false} FirstPast(n: nat, workers: nat, moments: seq<Moment>, a: nat, j: nat) returns (k: nat)
    requires History(n, workers, moments) && j < |moments| && moments[j].cursor > a
    ensures k < j && Starts(moments, k, a)
  {
    assert moments[0].cursor == 0;
    assert MovesAt(n, moments, j - 1);
    if moments[j - 1].cursor > a {
      k := FirstPast(n, workers, moments, a, j - 1);
    } else {
      var w: nat :| MoveOf(n, moments[j - 1], moments[j], w);
      k := j - 1;
      assert moments[j].phases[w] == Busy(a);
    }
  }

  lemma EndOfSchedule(n: nat, workers: nat, moments: seq<Moment>)
    requires Schedule(n, workers, moments) && workers > 0
    ensures Last(moments).cursor == n && |Last(moments).done| == n && EachOnce(n, Last(moments).done)
    ensures InTurn(workers, Last(moments).done)
  {
    var last := Last(moments);
    HistoryKeeps(n, workers, moments, |moments| - 1);
    assert last.phases[0].Stopped?;
    StoppedCount(last.phases);
  }

  lemma {:induction false} StoppedCount(phases: seq<Phase>)
    requires Finished(phases)
    ensures CountPhases(phases, InFlight) == 0
  {
    if phases != [] {
      StoppedCount(phases[..|phases| - 1]);
    }
  }

  /** In every schedule each adapter is started by exactly one event. */
  lemma StartedExactlyOnce(n: nat, workers: nat, moments: seq<Moment>, a: nat) returns (k: nat)
    requires Schedule(n, workers, moments) && workers > 0 && a < n
    ensures Starts(moments, k, a) && forall j: nat :: Starts(moments, j, a) ==> j == k
  {
    EndOfSchedule(n, workers, moments);
    k := FirstPast(n, workers, moments, a, |moments| - 1);
    forall j: nat | Starts(moments, j, a) ensures j == k {
      if j < k {
        CursorGrows(n, workers, moments, j + 1, k);
      } else if k < j {
        CursorGrows(n, workers, moments, k + 1, j);
      }
    }
  }

  /** Every adapter is settled, each once. */
  ghost predicate EachOnce(n: nat, done: seq<(nat, string)>) {
    && |done| == n && (forall k | 0 <= k < |done| :: done[k].0 < n)
    && (forall j, k | 0 <= j < k < |done| :: done[j].0 != done[k].0)
  }

  // ----- the orders in which adapters can settle

  /** Lets every idle worker take an adapter or stop. */
  lemma {:induction false} Fill(n: nat, workers: nat, moments: seq<Moment>) returns (more: seq<Moment>)
    requires History(n, workers, moments)
    ensures History(n, workers, more) && NoneIdle(Last(more).phases) && Last(more).done == Last(moments).done
    decreases CountPhases(Last(moments).phases, Idleness)
  {
    var s := Last(moments);
    if NoneIdle(s.phases) {
      more := moments;
    } else {
      var w: nat :| w < |s.phases| && s.phases[w].Idle?;
      var t := if s.cursor < n then Moment(s.cursor + 1, s.phases[w := Busy(s.cursor)], s.done)
               else Moment(s.cursor, s.phases[w := Stopped], s.done);
      assert MoveOf(n, s, t, w);
      CountUpdate(s.phases, w, t.phases[w], Idleness);
      hide History;
      HistoryNext(n, workers, moments, t);
      more := Fill(n, workers, moments + [t]);
    }
  }

  /** With no worker idle, as much is started as the workers allow. */
  lemma Saturated(n: nat, workers: nat, m: Moment)
    requires Accounted(n, m) && Counted(workers, m) && NoneIdle(m.phases)
    ensures m.cursor == n || m.cursor == |m.done| + workers
  {
    CountBound(m.phases);
    if m.cursor != n {
      forall w | 0 <= w < |m.phases| ensures m.phases[w].Busy? {
        assert !m.phases[w].Stopped?;
      }
    }
  }

  lemma HoldsNext(n: nat, workers: nat, m: Moment, done: seq<(nat, string)>) returns (w: nat)
    requires Accounted(n, m) && Counted(workers, m) && NoneIdle(m.phases)
    requires |m.done| < |done| && m.done == done[..|m.done|] && EachOnce(n, done) && InTurn(workers, done)
    ensures w < |m.phases| && m.phases[w] == Busy(done[|m.done|].0)
  {
    var a := done[|m.done|].0;
    Saturated(n, workers, m);
    assert a < m.cursor;
    forall k | 0 <= k < |m.done| ensures m.done[k].0 != a {
      assert m.done[k] == done[k];
    }
    assert !IsDone(m.done, a) && InHand(m.phases, a);
    w :| 0 <= w < |m.phases| && m.phases[w] == Busy(a);
  }

  lemma {:induction false} Reach(n: nat, workers: nat, done: seq<(nat, string)>, i: nat) returns (moments: seq<Moment>)
    requires EachOnce(n, done) && InTurn(workers, done) && i <= n
    ensures History(n, workers, moments) && NoneIdle(Last(moments).phases) && Last(moments).done == done[..i]
  {
    if i == 0 {
      assert History(n, workers, [Start(workers)]);
      moments := Fill(n, workers, [Start(workers)]);
    } else {
      var before := Reach(n, workers, done, i - 1);
      var s := Last(before);
      HistoryKeeps(n, workers, before, |before| - 1);
      var w := HoldsNext(n, workers, s, done);
      var t := Moment(s.cursor, s.phases[w := Idle], s.done + [done[i - 1]]);
      assert MoveOf(n, s, t, w);
      assert done[..i] == done[..i - 1] + [done[i - 1]];
      hide History, Accounted, Counted, MoveOf, EachOnce, InTurn;
      HistoryNext(n, workers, before, t);
      moments := Fill(n, workers, before + [t]);
    }
  }

  /**
   * The orders in which adapters can settle under some schedule: each once, and adapter `a` after at least
   * `a + 1 - workers` others.
   */
  lemma OrderReachableIff(n: nat, workers: nat, done: seq<(nat, string)>)
    requires workers > 0
    ensures (exists moments: seq<Moment> :: Schedule(n, workers, moments) && Last(moments).done == done)
            <==> EachOnce(n, done) && InTurn(workers, done)
  {
    if moments: seq<Moment> :| Schedule(n, workers, moments) && Last(moments).done == done {
      EndOfSchedule(n, workers, moments);
    }
    if EachOnce(n, done) && InTurn(workers, done) {
      var moments := ScheduleOf(n, workers, done);
    }
  }

  lemma ScheduleOf(n: nat, workers: nat, done: seq<(nat, string)>) returns (moments: seq<Moment>)
    requires EachOnce(n, done) && InTurn(workers, done)
    ensures Schedule(n, workers, moments) && Last(moments).done == done
  {
    moments := Reach(n, workers, done, n);
    assert done[..n] == done;
    var last := Last(moments);
    HistoryKeeps(n, workers, moments, |moments| - 1);
    CountBound(last.phases);
    assert Finished(last.phases);
  }

  /** One worker settles the adapters in their own order. */
  lemma {:induction false} OneWorker(n: nat, done: seq<(nat, string)>, k: nat)
    requires EachOnce(n, done) && InTurn(1, done) && k < n
    ensures done[k].0 == k
  {
    var earlier := done[k].0;
    if earlier < k {
      OneWorker(n, done, earlier);
    }
  }
}
