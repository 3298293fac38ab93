// packages/drift/src/live-validator.ts, runLiveValidation: provider adapters run
// by a bounded pool of workers, and the report made of what they return.
module LivePool {
  import opened Wrappers
  import opened Sorting
  import opened LiveValidator
  import opened LiveSchedule

  predicate AllBelow(n: nat, done: seq<(nat, string)>) { forall i | 0 <= i < |done| :: done[i].0 < n }

  /** The findings of completed adapters, each with the clock reading of its completion, in completion order. */
  function Collected(adapters: seq<Adapter>, pageCap: nat, done: seq<(nat, string)>): seq<Finding>
    requires AllBelow(|adapters|, done)
  {
    if done == [] then []
    else
      var last := done[|done| - 1];
      Collected(adapters, pageCap, done[..|done| - 1]) + Bounded(adapters[last.0], pageCap, last.1)
  }

  // ----- the pool

  class Pool {
    const adapters: seq<Adapter>
    const pageCap: nat
    const workers: nat
    var cursor: nat
    var findings: seq<Finding>
    var phases: seq<Phase>
    ghost var done: seq<(nat, string)>
    ghost var moments: seq<Moment>

    ghost predicate Valid()
      reads this
    {
      && AllBelow(|adapters|, done) && findings == Collected(adapters, pageCap, done)
      && History(|adapters|, workers, moments) && Last(moments) == Moment(cursor, phases, done)
    }

    constructor (adapters: seq<Adapter>, pageCap: nat, workers: nat)
      ensures Valid() && this.adapters == adapters && this.pageCap == pageCap && this.workers == workers
      ensures phases == AllIdle(workers)
    {
      this.adapters, this.pageCap, this.workers, cursor, findings := adapters, pageCap, workers, 0, [];
      phases, done, moments := AllIdle(workers), [], [Start(workers)];
    }

    /** The head of a worker's loop: take the next adapter, or stop. */
    method Take(w: nat)
      requires Valid() && w < |phases| && phases[w].Idle?
      modifies this`cursor, this`phases, this`moments
      ensures Valid() && Left() < old(Left())
    {
      hide Collected, History;
      ghost var before := Moment(cursor, phases, done);
      CursorBound(|adapters|, workers, moments);
      if cursor < |adapters| {
        CountUpdate(phases, w, Busy(cursor), Weight);
        phases := phases[w := Busy(cursor)];
        cursor := cursor + 1;
      } else {
        CountUpdate(phases, w, Stopped, Weight);
        phases := phases[w := Stopped];
      }
      assert MoveOf(|adapters|, before, Moment(cursor, phases, done), w);
      HistoryNext(|adapters|, workers, moments, Moment(cursor, phases, done));
      moments := moments + [Moment(cursor, phases, done)];
    }

    /** An adapter's run settles and its findings are pushed. */
    method Complete(w: nat, now: string)
      requires Valid() && w < |phases| && phases[w].Busy? && NoneIdle(phases)
      modifies this`findings, this`phases, this`done, this`moments
      ensures Valid() && Left() < old(Left())
    {
      hide Collected, Bounded, History;
      ghost var before := Moment(cursor, phases, done);
      BusyBelow(|adapters|, workers, moments, w);
      CountUpdate(phases, w, Idle, Weight);
      var a := phases[w].adapter;
      CollectedNext(adapters, pageCap, done, a, now);
      findings := findings + Bounded(adapters[a], pageCap, now);
      done := done + [(a, now)];
      phases := phases[w := Idle];
      assert MoveOf(|adapters|, before, Moment(cursor, phases, done), w);
      HistoryNext(|adapters|, workers, moments, Moment(cursor, phases, done));
      moments := moments + [Moment(cursor, phases, done)];
    }

    /** What is left to do, as an upper bound on the number of steps. */
    function Left(): nat
      reads this`cursor, this`phases
    {
      3 * (if cursor <= |adapters| then |adapters| - cursor else 0) + CountPhases(phases, Weight)
    }

    /** Runs the workers until all have stopped: idle ones go on at once, runs settle in any order. */
    method RunAll()
      requires Valid() && workers > 0
      modifies this
      ensures Valid() && EachOnce(|adapters|, done) && Schedule(|adapters|, workers, moments)
    {
      hide Collected, History, EachOnce;
      while !Finished(phases)
        invariant Valid()
        decreases Left()
      {
        if exists w | 0 <= w < |phases| :: phases[w].Idle? {
          var w: nat :| w < |phases| && phases[w].Idle?;
          Take(w);
        } else {
          var w: nat :| w < |phases| && !phases[w].Stopped?;
          var now: string := *;
          Complete(w, now);
        }
      }
      EndOfSchedule(|adapters|, workers, moments);
    }
  }

  lemma CursorBound(n: nat, workers: nat, moments: seq<Moment>)
    requires History(n, workers, moments)
    ensures Last(moments).cursor <= n
  {
    HistoryKeeps(n, workers, moments, |moments| - 1);
  }

  lemma BusyBelow(n: nat, workers: nat, moments: seq<Moment>, w: nat)
    requires History(n, workers, moments) && w < |Last(moments).phases| && Last(moments).phases[w].Busy?
    ensures Last(moments).phases[w].adapter < n
  {
    HistoryKeeps(n, workers, moments, |moments| - 1);
  }

  lemma CollectedNext(adapters: seq<Adapter>, pageCap: nat, done: seq<(nat, string)>, a: nat, now: string)
    requires a < |adapters| && AllBelow(|adapters|, done)
    ensures Collected(adapters, pageCap, done + [(a, now)])
            == Collected(adapters, pageCap, done) + Bounded(adapters[a], pageCap, now)
  {
    var more := done + [(a, now)];
    assert more[..|more| - 1] == done;
  }

  lemma RemovedAt(done: seq<(nat, string)>, k: nat)
    requires k < |done|
    ensures var fewer := done[..k] + done[k + 1..];
            |fewer| == |done| - 1 && forall j | 0 <= j < |fewer| :: fewer[j] == done[if j < k then j else j + 1]
  {
  }

  // ----- what the pool collects, whatever the order

  /** The bounded findings of all adapters in their own order. */
  function InOrder(adapters: seq<Adapter>, pageCap: nat, nows: seq<string>): seq<Finding>
    requires |nows| == |adapters|
  {
    if adapters == [] then []
    else
      var n := |adapters| - 1;
      InOrder(adapters[..n], pageCap, nows[..n]) + Bounded(adapters[n], pageCap, nows[n])
  }

  lemma {:induction false} CollectedWithout(adapters: seq<Adapter>, pageCap: nat, done: seq<(nat, string)>, k: nat)
    requires k < |done| && AllBelow(|adapters|, done)
    ensures var fewer := done[..k] + done[k + 1..];
            multiset(Collected(adapters, pageCap, done))
            == multiset(Collected(adapters, pageCap, fewer))
              + multiset(Bounded(adapters[done[k].0], pageCap, done[k].1))
  {
    hide Bounded;
    var n := |done| - 1;
    var fewer := done[..k] + done[k + 1..];
    RemovedAt(done, k);
    if k == n {
      assert fewer == done[..n];
    } else {
      CollectedWithout(adapters, pageCap, done[..n], k);
      assert fewer[..|fewer| - 1] == done[..n][..k] + done[..n][k + 1..];
      assert fewer[|fewer| - 1] == done[n];
    }
  }

  lemma {:induction false} CollectedBelow(adapters: seq<Adapter>, n: nat, pageCap: nat, done: seq<(nat, string)>)
    requires n <= |adapters| && AllBelow(n, done)
    ensures Collected(adapters[..n], pageCap, done) == Collected(adapters, pageCap, done)
  {
    if done != [] {
      CollectedBelow(adapters, n, pageCap, done[..|done| - 1]);
    }
  }

  /** Completed in any order, the adapters' findings are those of all adapters, each at some clock reading. */
  lemma {:induction false} OrderDoesNotMatter(adapters: seq<Adapter>, pageCap: nat, done: seq<(nat, string)>)
    returns (nows: seq<string>)
    requires EachOnce(|adapters|, done)
    ensures |nows| == |adapters|
            && multiset(Collected(adapters, pageCap, done)) == multiset(InOrder(adapters, pageCap, nows))
  {
    hide Bounded;
    var n := |adapters|;
    if n == 0 {
      nows := [];
    } else {
      var k := LastAdapterDone(n, done);
      var fewer := done[..k] + done[k + 1..];
      RemovedAt(done, k);
      var front := OrderDoesNotMatter(adapters[..n - 1], pageCap, fewer);
      nows := front + [done[k].1];
      CollectedWithout(adapters, pageCap, done, k);
      CollectedBelow(adapters, n - 1, pageCap, fewer);
      assert nows[..n - 1] == front;
    }
  }

  lemma LastAdapterDone(n: nat, done: seq<(nat, string)>) returns (k: nat)
    requires n > 0 && EachOnce(n, done)
    ensures k < |done| && done[k].0 == n - 1
    ensures forall j | 0 <= j < |done| && j != k :: done[j].0 < n - 1
  {
    if forall j | 0 <= j < |done| :: done[j].0 != n - 1 {
      TooMany(n - 1, done);
      assert false;
    }
    k :| 0 <= k < |done| && done[k].0 == n - 1;
  }

  /** There are at most `n` distinct numbers below `n`. */
  lemma {:induction false} TooMany(n: nat, done: seq<(nat, string)>)
    requires forall k | 0 <= k < |done| :: done[k].0 < n
    requires forall j, k | 0 <= j < k < |done| :: done[j].0 != done[k].0
    ensures |done| <= n
  {
    assert done != [] ==> done[0].0 < n;
    if k :| 0 <= k < |done| && done[k].0 == n - 1 {
      RemovedAt(done, k);
      TooMany(n - 1, done[..k] + done[k + 1..]);
    } else if n > 0 {
      TooMany(n - 1, done);
    }
  }

  // ----- the report

  /** A caller's limit, or `None` when it is no positive integer. */
  function PositiveInt(value: Option<int>, fallback: nat): Option<nat>
    requires fallback > 0
  {
    match value
    case None => Some(fallback)
    case Some(v) => if v < 1 then None else Some(v)
  }

  /** How many workers there are: no more than allowed, and no more than adapters but for one. */
  function Workers(maxConcurrency: nat, adapters: nat): (workers: nat)
    ensures workers <= maxConcurrency && (maxConcurrency > 0 ==> workers > 0)
  {
    var most := if adapters > 1 then adapters else 1;
    if maxConcurrency < most then maxConcurrency else most
  }

  /** `findings.map(normalizeFinding)`; `None` when one of them is refused. */
  method NormalizeAll(raw: seq<Finding>) returns (out: Option<seq<Finding>>)
    ensures out.Some? <==> forall i | 0 <= i < |raw| :: IsValid(raw[i])
    ensures out.Some? ==> AllNormalized(raw, out.value)
  {
    var normalized: seq<Finding> := [];
    for i := 0 to |raw|
      invariant AllNormalized(raw[..i], normalized)
      invariant forall j | 0 <= j < i :: IsValid(raw[j])
    {
      if !IsValid(raw[i]) {
        return None;
      }
      var now: string := *;
      normalized := normalized + [Normalize(raw[i], now)];
    }
    assert raw[..|raw|] == raw;
    out := Some(normalized);
  }

  /** The four status counters of a report of accepted findings add up to its total. */
  lemma {:induction false} SummaryAddsUp(findings: seq<Finding>)
    requires forall f | f in findings :: IsValid(f)
    ensures var s := Summarize(findings); s.pass + s.fail + s.degraded + s.skipped == s.total
  {
    if findings != [] {
      var n := |findings| - 1;
      assert findings[n] in findings;
      SummaryAddsUp(findings[..n]);
    }
  }

  /** No adapter failed or was cut, and there is something to report, none of it bad. */
  predicate Clean(adapters: seq<Adapter>, pageCap: nat) {
    && (forall i | 0 <= i < |adapters| ::
          Complete(adapters[i], pageCap)
            && forall f | f in adapters[i].outcome.findings :: f.status != "fail" && f.status != "degraded")
    && (exists i | 0 <= i < |adapters| :: adapters[i].outcome.Returned? && adapters[i].outcome.findings != [])
  }

  lemma {:induction false} CountZero(findings: seq<Finding>, status: string)
    ensures CountStatus(findings, status) == 0 <==> forall f | f in findings :: f.status != status
  {
    if findings != [] {
      var n := |findings| - 1;
      CountZero(findings[..n], status);
      assert findings == findings[..n] + [findings[n]];
    }
  }

  lemma NormalizedStatuses(raw: seq<Finding>, out: seq<Finding>, status: string)
    requires AllNormalized(raw, out)
    ensures (forall f | f in out :: f.status != status) <==> (forall f | f in raw :: f.status != status)
  {
    if f :| f in raw && f.status == status {
      var i :| 0 <= i < |raw| && raw[i] == f;
      assert out[i] in out && out[i].status == status;
    }
    if f :| f in out && f.status == status {
      var i :| 0 <= i < |out| && out[i] == f;
      assert raw[i] in raw && raw[i].status == status;
    }
  }

  lemma {:induction false} InOrderMembers(adapters: seq<Adapter>, pageCap: nat, nows: seq<string>)
    requires |nows| == |adapters|
    ensures forall f ::
            f in InOrder(adapters, pageCap, nows) <==>
            exists i | 0 <= i < |adapters| :: f in Bounded(adapters[i], pageCap, nows[i])
  {
    hide Bounded;
    if adapters != [] {
      var n := |adapters| - 1;
      InOrderMembers(adapters[..n], pageCap, nows[..n]);
      forall f
        ensures f in InOrder(adapters, pageCap, nows) <==>
                exists i | 0 <= i < |adapters| :: f in Bounded(adapters[i], pageCap, nows[i])
      {
        if i :| 0 <= i < |adapters| && f in Bounded(adapters[i], pageCap, nows[i]) {
          assert i == n || f in Bounded(adapters[..n][i], pageCap, nows[..n][i]);
        }
        if f in InOrder(adapters[..n], pageCap, nows[..n]) {
          var i :| 0 <= i < n && f in Bounded(adapters[..n][i], pageCap, nows[..n][i]);
          assert f in Bounded(adapters[i], pageCap, nows[i]);
        }
      }
    }
  }

  lemma IncompleteIsDegraded(adapter: Adapter, pageCap: nat, now: string)
    ensures !Complete(adapter, pageCap) ==> exists f :: f in Bounded(adapter, pageCap, now) && f.status == "degraded"
    ensures Complete(adapter, pageCap) ==> Bounded(adapter, pageCap, now) == adapter.outcome.findings
  {
    if !Complete(adapter, pageCap) {
      var b := Bounded(adapter, pageCap, now);
      assert b[|b| - 1].status == "degraded";
    }
  }

  predicate NoneBad(findings: seq<Finding>) { forall f | f in findings :: f.status != "fail" && f.status != "degraded" }

  /** The bounded findings are good and some exactly when the adapters are clean. */
  lemma CleanIff(adapters: seq<Adapter>, pageCap: nat, nows: seq<string>)
    requires |nows| == |adapters|
    ensures InOrder(adapters, pageCap, nows) != [] && NoneBad(InOrder(adapters, pageCap, nows)) <==>
            Clean(adapters, pageCap)
  {
    var all := InOrder(adapters, pageCap, nows);
    InOrderMembers(adapters, pageCap, nows);
    forall i | 0 <= i < |adapters|
      ensures !Complete(adapters[i], pageCap) ==>
              exists f :: f in Bounded(adapters[i], pageCap, nows[i]) && f.status == "degraded"
      ensures Complete(adapters[i], pageCap) ==> Bounded(adapters[i], pageCap, nows[i]) == adapters[i].outcome.findings
    {
      IncompleteIsDegraded(adapters[i], pageCap, nows[i]);
    }
    hide Bounded, InOrder, Complete;
    if all != [] && NoneBad(all) {
      forall i | 0 <= i < |adapters|
        ensures Complete(adapters[i], pageCap) && NoneBad(adapters[i].outcome.findings)
      {
        forall f | f in Bounded(adapters[i], pageCap, nows[i]) ensures f.status != "fail" && f.status != "degraded" {
          assert f in all;
        }
      }
      assert all[0] in all;
      var i :| 0 <= i < |adapters| && all[0] in Bounded(adapters[i], pageCap, nows[i]);
      assert Complete(adapters[i], pageCap) && adapters[i].outcome.findings != [];
    }
    if Clean(adapters, pageCap) {
      var i :| 0 <= i < |adapters| && adapters[i].outcome.Returned? && adapters[i].outcome.findings != [];
      assert Complete(adapters[i], pageCap);
      assert adapters[i].outcome.findings[0] in Bounded(adapters[i], pageCap, nows[i]);
      assert adapters[i].outcome.findings[0] in all;
    }
  }

  lemma ExitIff(raw: seq<Finding>, out: seq<Finding>)
    requires AllNormalized(raw, out)
    ensures ExitCode(Summarize(Sort(out, FindingLe))) == 0 <==> raw != [] && NoneBad(raw)
  {
    hide Sort, IsNormalized;
    SortMembers(out, FindingLe);
    SortMultiset(out, FindingLe);
    CountZero(Sort(out, FindingLe), "fail");
    CountZero(Sort(out, FindingLe), "degraded");
    NormalizedStatuses(raw, out, "fail");
    NormalizedStatuses(raw, out, "degraded");
  }

  lemma SameMembers(s: seq<Finding>, t: seq<Finding>)
    requires multiset(s) == multiset(t)
    ensures (s != [] && NoneBad(s)) <==> (t != [] && NoneBad(t))
  {
    forall f ensures f in s <==> f in t {
      assert f in multiset(s) <==> f in multiset(t);
    }
    if s != [] {
      assert s[0] in t;
    }
    if t != [] {
      assert t[0] in s;
    }
  }

  predicate AllAccepted(findings: seq<Finding>) { forall f | f in findings :: IsValid(f) }

  /** Every finding that is reported, of adapters or about them, passes the checks of the normaliser. */
  predicate AllValid(adapters: seq<Adapter>, pageCap: nat) {
    forall i | 0 <= i < |adapters| :: AllAccepted(Bounded(adapters[i], pageCap, ""))
  }

  lemma ValidAtAnyTime(adapter: Adapter, pageCap: nat, now: string)
    ensures AllAccepted(Bounded(adapter, pageCap, now)) <==> AllAccepted(Bounded(adapter, pageCap, ""))
  {
    var b, c := Bounded(adapter, pageCap, now), Bounded(adapter, pageCap, "");
    assert |b| == |c| && forall i | 0 <= i < |b| :: IsValid(b[i]) == IsValid(c[i]);
    hide Bounded, IsValid;
    AcceptedByIndex(b);
    AcceptedByIndex(c);
  }

  lemma AcceptedByIndex(s: seq<Finding>)
    ensures AllAccepted(s) <==> forall i | 0 <= i < |s| :: IsValid(s[i])
  {
    hide IsValid;
  }

  lemma AcceptedSplit(s: seq<Finding>, t: seq<Finding>)
    ensures AllAccepted(s + t) <==> AllAccepted(s) && AllAccepted(t)
  {
    hide IsValid;
    assert forall f :: f in s + t <==> f in s || f in t;
  }

  lemma {:induction false} InOrderAccepted(adapters: seq<Adapter>, pageCap: nat, nows: seq<string>)
    requires |nows| == |adapters|
    ensures AllAccepted(InOrder(adapters, pageCap, nows)) <==> AllValid(adapters, pageCap)
  {
    if adapters != [] {
      hide Bounded, IsValid, AllAccepted;
      var n := |adapters| - 1;
      InOrderAccepted(adapters[..n], pageCap, nows[..n]);
      AcceptedSplit(InOrder(adapters[..n], pageCap, nows[..n]), Bounded(adapters[n], pageCap, nows[n]));
      ValidAtAnyTime(adapters[n], pageCap, nows[n]);
      assert forall i | 0 <= i < n :: adapters[..n][i] == adapters[i];
    }
  }

  lemma ValidIff(adapters: seq<Adapter>, pageCap: nat, nows: seq<string>, raw: seq<Finding>)
    requires |nows| == |adapters| && multiset(raw) == multiset(InOrder(adapters, pageCap, nows))
    ensures (forall i | 0 <= i < |raw| :: IsValid(raw[i])) <==> AllValid(adapters, pageCap)
  {
    var all := InOrder(adapters, pageCap, nows);
    InOrderAccepted(adapters, pageCap, nows);
    AcceptedByIndex(raw);
    hide InOrder, AllValid, IsValid;
    forall f ensures f in raw <==> f in all {
      assert f in multiset(raw) <==> f in multiset(all);
    }
  }

  /** A report's findings: those collected, normalised one for one and sorted. */
  ghost predicate ReportOf(adapters: seq<Adapter>, pageCap: nat, done: seq<(nat, string)>, findings: seq<Finding>) {
    AllBelow(|adapters|, done)
    && exists out: seq<Finding> :: Reports(Collected(adapters, pageCap, done), out, findings)
  }

  ghost predicate Reports(raw: seq<Finding>, out: seq<Finding>, findings: seq<Finding>) {
    AllNormalized(raw, out) && findings == Sort(out, FindingLe)
  }

  /** These findings can be the report of a run of `workers` workers over these adapters. */
  ghost predicate CanReport(adapters: seq<Adapter>, pageCap: nat, workers: nat, findings: seq<Finding>) {
    && AllValid(adapters, pageCap)
    && exists moments: seq<Moment> ::
         Schedule(|adapters|, workers, moments) && ReportOf(adapters, pageCap, Last(moments).done, findings)
  }

  predicate ProviderLe(a: Adapter, b: Adapter) { LexLe(a.provider, b.provider) }

  lemma SameAdapters(s: seq<Adapter>, t: seq<Adapter>, pageCap: nat)
    requires forall a :: a in s <==> a in t
    ensures Clean(s, pageCap) ==> Clean(t, pageCap)
    ensures AllValid(s, pageCap) ==> AllValid(t, pageCap)
  {
    hide Bounded, IsValid, Complete;
    forall i | 0 <= i < |t| ensures exists j :: 0 <= j < |s| && s[j] == t[i] {
      assert t[i] in s;
    }
    if Clean(s, pageCap) {
      var i :| 0 <= i < |s| && s[i].outcome.Returned? && s[i].outcome.findings != [];
      assert s[i] in t;
      var j :| 0 <= j < |t| && t[j] == s[i];
    }
  }

  /** The limits of a run that are no positive integers are refused before anything is run. */
  predicate LimitsOk(timeoutMs: Option<int>, maxConcurrency: Option<int>, pageCap: Option<int>) {
    && PositiveInt(timeoutMs, DEFAULT_TIMEOUT_MS).Some? && PositiveInt(maxConcurrency, DEFAULT_MAX_CONCURRENCY).Some?
    && PositiveInt(pageCap, DEFAULT_PAGE_CAP).Some?
  }

  /**
   * `runLiveValidation`. The workers go through some schedule (`moments`) over the adapters sorted by provider; a
   * report is made exactly when the limits and all findings are acceptable; it is the one of the order in which
   * the adapters settled in that schedule; and the exit code is 0 exactly when no adapter failed, timed out or was
   * cut and there are findings, none of them failing or degraded.
   */
  method RunLiveValidation(adapters: seq<Adapter>, timeoutMs: Option<int>, maxConcurrency: Option<int>,
                           pageCap: Option<int>)
    returns (report: Option<Report>, ghost moments: seq<Moment>)
    ensures LimitsOk(timeoutMs, maxConcurrency, pageCap) ==>
              Schedule(|adapters|, Workers(PositiveInt(maxConcurrency, DEFAULT_MAX_CONCURRENCY).value, |adapters|),
                       moments)
    ensures report.Some? <==> LimitsOk(timeoutMs, maxConcurrency, pageCap)
                              && AllValid(adapters, PositiveInt(pageCap, DEFAULT_PAGE_CAP).value)
    ensures report.Some? ==>
              ReportOf(Sort(adapters, ProviderLe), PositiveInt(pageCap, DEFAULT_PAGE_CAP).value, Last(moments).done,
                       report.value.findings)
    ensures report.Some? ==>
              CanReport(Sort(adapters, ProviderLe), PositiveInt(pageCap, DEFAULT_PAGE_CAP).value,
                        Workers(PositiveInt(maxConcurrency, DEFAULT_MAX_CONCURRENCY).value, |adapters|),
                        report.value.findings)
    ensures report.Some? ==> report.value.summary == Summarize(report.value.findings)
    ensures report.Some? ==>
              (report.value.exitCode == 0 <==> Clean(adapters, PositiveInt(pageCap, DEFAULT_PAGE_CAP).value))
  {
    hide InOrder, Collected, Clean, AllValid, IsNormalized, EachOnce, Sort, Summarize, History, Finished, ProviderLe;
    moments := [];
    var timeout := PositiveInt(timeoutMs, DEFAULT_TIMEOUT_MS);
    var concurrency := PositiveInt(maxConcurrency, DEFAULT_MAX_CONCURRENCY);
    var cap := PositiveInt(pageCap, DEFAULT_PAGE_CAP);
    if timeout.None? || concurrency.None? || cap.None? {
      return None, moments;
    }
    var sorted := Sort(adapters, ProviderLe);
    SortMultiset(adapters, ProviderLe);
    SortMembers(adapters, ProviderLe);
    SameAdapters(adapters, sorted, cap.value);
    SameAdapters(sorted, adapters, cap.value);
    var pool := new Pool(sorted, cap.value, Workers(concurrency.value, |adapters|));
    pool.RunAll();
    moments := pool.moments;
    ghost var nows := OrderDoesNotMatter(sorted, cap.value, pool.done);
    ValidIff(sorted, cap.value, nows, pool.findings);
    var normalized := NormalizeAll(pool.findings);
    if normalized.None? {
      return None, moments;
    }
    ExitIff(pool.findings, normalized.value);
    SameMembers(pool.findings, InOrder(sorted, cap.value, nows));
    CleanIff(sorted, cap.value, nows);
    var findings := Sort(normalized.value, FindingLe);
    assert Reports(pool.findings, normalized.value, findings);
    var summary := Summarize(findings);
    report := Some(Report(summary, findings, ExitCode(summary)));
  }
}
