// packages/drift/src/live-validator.ts, runLiveValidation: when the order in which
// adapters settle shows in the report, and when it does not.
module LiveOrder {
  import opened Wrappers
  import opened Sorting
  import opened Json
  import opened Text
  import opened LiveValidator
  import opened LiveSchedule
  import opened LivePool

  // ----- keys

  predicate SameKey(a: Finding, b: Finding) { a.provider == b.provider && a.id == b.id && a.resource == b.resource }

  lemma FindingOrder()
    ensures Total(FindingLe) && Transitive(FindingLe)
    ensures forall a, b :: Tied(a, b, FindingLe) <==> SameKey(a, b)
  {
    LexOrder();
    hide LexLe;
    forall a, b ensures (FindingLe(a, b) || FindingLe(b, a)) && (Tied(a, b, FindingLe) <==> SameKey(a, b)) {
      assert LexLe(a.provider, b.provider) || LexLe(b.provider, a.provider);
      assert LexLe(a.id, b.id) || LexLe(b.id, a.id);
      assert LexLe(a.resource, b.resource) || LexLe(b.resource, a.resource);
    }
    forall a, b, c | FindingLe(a, b) && FindingLe(b, c) ensures FindingLe(a, c) {
      FindingTransitive(a, b, c);
    }
  }

  lemma FindingTransitive(a: Finding, b: Finding, c: Finding)
    requires FindingLe(a, b) && FindingLe(b, c)
    ensures FindingLe(a, c)
  {
    LexOrder();
    hide LexLe;
    if a.provider == b.provider == c.provider {
      if a.id == b.id == c.id {
        assert LexLe(a.resource, b.resource) && LexLe(b.resource, c.resource);
      } else {
        assert LexLe(a.id, b.id) && LexLe(b.id, c.id);
      }
    } else {
      assert LexLe(a.provider, b.provider) && LexLe(b.provider, c.provider);
    }
  }

  function MapAll(findings: seq<Finding>, f: Finding -> Finding): seq<Finding> {
    seq(|findings|, i requires 0 <= i < |findings| => f(findings[i]))
  }

  ghost predicate KeepsKey(f: Finding -> Finding) { forall a :: SameKey(f(a), a) }

  lemma {:induction false} InsertMapped(x: Finding, s: seq<Finding>, f: Finding -> Finding)
    requires KeepsKey(f)
    ensures Insert(f(x), MapAll(s, f), FindingLe) == MapAll(Insert(x, s, FindingLe), f)
  {
    if s != [] {
      assert SameKey(f(x), x) && SameKey(f(s[0]), s[0]);
      hide KeepsKey;
      assert FindingLe(f(x), f(s[0])) == FindingLe(x, s[0]);
      hide FindingLe;
      assert MapAll(s, f)[1..] == MapAll(s[1..], f);
      InsertMapped(x, s[1..], f);
    }
  }

  /** A change that keeps the keys may be made before sorting or after it. */
  lemma {:induction false} SortMapped(s: seq<Finding>, f: Finding -> Finding)
    requires KeepsKey(f)
    ensures Sort(MapAll(s, f), FindingLe) == MapAll(Sort(s, FindingLe), f)
  {
    if s != [] {
      hide KeepsKey, FindingLe, Insert;
      SortMapped(s[1..], f);
      assert MapAll(s, f)[1..] == MapAll(s[1..], f);
      InsertMapped(s[0], Sort(s[1..], FindingLe), f);
    }
  }

  lemma MapSplit(s: seq<Finding>, t: seq<Finding>, f: Finding -> Finding)
    ensures MapAll(s + t, f) == MapAll(s, f) + MapAll(t, f)
  {
    assert forall i | 0 <= i < |s| + |t| :: MapAll(s + t, f)[i] == (MapAll(s, f) + MapAll(t, f))[i];
  }

  // ----- findings without their time

  /** What a finding says apart from the time: its evidence is shown redacted. */
  function Timeless(f: Finding): Finding { f.(observedAt := None, evidence := RedactValue(f.evidence, 0, "")) }

  lemma NormalizedTimeless(raw: seq<Finding>, out: seq<Finding>)
    requires AllNormalized(raw, out)
    ensures MapAll(out, Timeless) == MapAll(raw, Timeless)
  {
    forall i | 0 <= i < |raw| ensures Timeless(out[i]) == Timeless(raw[i]) {
      assert IsNormalized(raw[i], out[i]);
      RedactionIsIdempotent(raw[i].evidence, 0, "");
    }
  }

  lemma BoundedTimeless(adapter: Adapter, pageCap: nat, now: string, other: string)
    ensures MapAll(Bounded(adapter, pageCap, now), Timeless) == MapAll(Bounded(adapter, pageCap, other), Timeless)
  {
    var b, c := Bounded(adapter, pageCap, now), Bounded(adapter, pageCap, other);
    assert |b| == |c| && forall i | 0 <= i < |b| :: b[i].(observedAt := None) == c[i].(observedAt := None);
    forall i | 0 <= i < |b| ensures Timeless(b[i]) == Timeless(c[i]) {
      assert b[i].(observedAt := None) == c[i].(observedAt := None);
    }
  }

  /** What adapter `a` adds to the report, apart from the time. */
  function Shown(adapters: seq<Adapter>, pageCap: nat, a: nat): seq<Finding>
    requires a < |adapters|
  {
    MapAll(Bounded(adapters[a], pageCap, ""), Timeless)
  }

  /** What is pushed when adapters settle in this order, apart from the time. */
  function Pushed(adapters: seq<Adapter>, pageCap: nat, done: seq<(nat, string)>): seq<Finding>
    requires AllBelow(|adapters|, done)
  {
    if done == [] then []
    else
      var n := |done| - 1;
      Pushed(adapters, pageCap, done[..n]) + Shown(adapters, pageCap, done[n].0)
  }

  lemma {:induction false} CollectedTimeless(adapters: seq<Adapter>, pageCap: nat, done: seq<(nat, string)>)
    requires AllBelow(|adapters|, done)
    ensures MapAll(Collected(adapters, pageCap, done), Timeless) == Pushed(adapters, pageCap, done)
  {
    hide Bounded, Timeless;
    if done != [] {
      var n := |done| - 1;
      CollectedTimeless(adapters, pageCap, done[..n]);
      BoundedTimeless(adapters[done[n].0], pageCap, done[n].1, "");
      MapSplit(Collected(adapters, pageCap, done[..n]), Bounded(adapters[done[n].0], pageCap, done[n].1), Timeless);
    }
  }

  /** Apart from the time, the report is what was pushed, sorted. */
  lemma ReportTimeless(adapters: seq<Adapter>, pageCap: nat, done: seq<(nat, string)>, findings: seq<Finding>)
    requires ReportOf(adapters, pageCap, done, findings)
    ensures AllBelow(|adapters|, done)
    ensures MapAll(findings, Timeless) == Sort(Pushed(adapters, pageCap, done), FindingLe)
  {
    var raw := Collected(adapters, pageCap, done);
    var out: seq<Finding> :| Reports(raw, out, findings);
    assert KeepsKey(Timeless);
    hide Collected, Sort, FindingLe, Timeless, MapAll, KeepsKey, AllNormalized;
    CollectedTimeless(adapters, pageCap, done);
    NormalizedTimeless(raw, out);
    SortMapped(out, Timeless);
  }

  // ----- the findings of one key

  function OfKey(s: seq<Finding>, x: Finding): seq<Finding> {
    if s == [] then [] else (if SameKey(s[0], x) then [s[0]] else []) + OfKey(s[1..], x)
  }

  lemma {:induction false} OfKeyIsTies(s: seq<Finding>, x: Finding)
    ensures Ties(s, x, FindingLe) == OfKey(s, x)
  {
    if s != [] {
      OfKeyIsTies(s[1..], x);
      FindingOrder();
      hide FindingLe, SameKey;
      assert Tied(s[0], x, FindingLe) <==> SameKey(s[0], x);
    }
  }

  lemma {:induction false} OfKeySplit(s: seq<Finding>, t: seq<Finding>, x: Finding)
    ensures OfKey(s + t, x) == OfKey(s, x) + OfKey(t, x)
  {
    hide SameKey;
    if s == [] {
      assert s + t == t;
    } else {
      OfKeySplit(s[1..], t, x);
      assert (s + t)[1..] == s[1..] + t;
    }
  }

  lemma SortsAlikeIff(s: seq<Finding>, t: seq<Finding>)
    ensures Sort(s, FindingLe) == Sort(t, FindingLe) <==> forall x :: OfKey(s, x) == OfKey(t, x)
  {
    FindingOrder();
    hide Total, Transitive, Tied, Sort, FindingLe, Ties, OfKey, SameKey;
    SortedAlikeIff(s, t, FindingLe);
    if forall x :: OfKey(s, x) == OfKey(t, x) {
      forall x ensures Ties(s, x, FindingLe) == Ties(t, x, FindingLe) {
        OfKeyIsTies(s, x);
        OfKeyIsTies(t, x);
        assert OfKey(s, x) == OfKey(t, x);
      }
    } else {
      var x :| OfKey(s, x) != OfKey(t, x);
      OfKeyIsTies(s, x);
      OfKeyIsTies(t, x);
    }
  }

  // ----- blocks that commute

  /** For this key it does not show which of the two adapters settles first. */
  predicate CommuteAt(adapters: seq<Adapter>, pageCap: nat, a: nat, b: nat, x: Finding)
    requires a < |adapters| && b < |adapters|
  {
    OfKey(Shown(adapters, pageCap, a), x) + OfKey(Shown(adapters, pageCap, b), x)
    == OfKey(Shown(adapters, pageCap, b), x) + OfKey(Shown(adapters, pageCap, a), x)
  }

  ghost predicate AllCommute(adapters: seq<Adapter>, pageCap: nat) {
    forall a: nat, b: nat, x: Finding | a < b < |adapters| :: CommuteAt(adapters, pageCap, a, b, x)
  }

  lemma Commutes(adapters: seq<Adapter>, pageCap: nat, a: nat, b: nat, x: Finding)
    requires AllCommute(adapters, pageCap) && a < |adapters| && b < |adapters|
    ensures CommuteAt(adapters, pageCap, a, b, x)
  {
    hide Shown, OfKey;
    if a < b {
      assert CommuteAt(adapters, pageCap, a, b, x);
    } else if b < a {
      assert CommuteAt(adapters, pageCap, b, a, x);
    }
  }

  lemma PushedNext(adapters: seq<Adapter>, pageCap: nat, done: seq<(nat, string)>, x: Finding)
    requires AllBelow(|adapters|, done) && done != []
    ensures var n := |done| - 1;
            OfKey(Pushed(adapters, pageCap, done), x)
            == OfKey(Pushed(adapters, pageCap, done[..n]), x) + OfKey(Shown(adapters, pageCap, done[n].0), x)
  {
    var n := |done| - 1;
    OfKeySplit(Pushed(adapters, pageCap, done[..n]), Shown(adapters, pageCap, done[n].0), x);
  }

  lemma SwapLast(u: seq<Finding>, v: seq<Finding>, w: seq<Finding>)
    requires v + w == w + v
    ensures (u + v) + w == (u + w) + v
  {
    assert (u + v) + w == u + (v + w) && (u + w) + v == u + (w + v);
  }

  lemma CancelLast(u: seq<Finding>, v: seq<Finding>, w: seq<Finding>)
    requires u + w == v + w
    ensures u == v
  {
    assert |u| == |v|;
    assert u == (u + w)[..|u|] && v == (v + w)[..|v|];
  }

  lemma CancelFirst(u: seq<Finding>, v: seq<Finding>, w: seq<Finding>)
    requires w + u == w + v
    ensures u == v
  {
    assert u == (w + u)[|w|..] && v == (w + v)[|w|..];
  }

  /** An adapter may as well settle last. */
  lemma {:induction false} MoveLast(adapters: seq<Adapter>, pageCap: nat, done: seq<(nat, string)>, k: nat, x: Finding)
    requires AllCommute(adapters, pageCap) && AllBelow(|adapters|, done) && k < |done|
    ensures var fewer := done[..k] + done[k + 1..];
            OfKey(Pushed(adapters, pageCap, done), x)
            == OfKey(Pushed(adapters, pageCap, fewer), x) + OfKey(Shown(adapters, pageCap, done[k].0), x)
  {
    hide AllCommute, Shown, OfKey, Pushed;
    var n := |done| - 1;
    var fewer := done[..k] + done[k + 1..];
    RemovedAt(done, k);
    PushedNext(adapters, pageCap, done, x);
    if k == n {
      assert fewer == done[..n];
    } else {
      MoveLast(adapters, pageCap, done[..n], k, x);
      PushedNext(adapters, pageCap, fewer, x);
      assert fewer[..|fewer| - 1] == done[..n][..k] + done[..n][k + 1..];
      assert fewer[|fewer| - 1] == done[n];
      Commutes(adapters, pageCap, done[k].0, done[n].0, x);
      SwapLast(OfKey(Pushed(adapters, pageCap, fewer[..|fewer| - 1]), x),
               OfKey(Shown(adapters, pageCap, done[k].0), x), OfKey(Shown(adapters, pageCap, done[n].0), x));
    }
  }

  /** The adapters in their own order. */
  function OwnOrder(n: nat): seq<(nat, string)> { seq(n, i => (i, "")) }

  lemma OthersOnce(done: seq<(nat, string)>) returns (k: nat)
    requires EachOnce(|done|, done) && done != []
    ensures k < |done| && done[k].0 == |done| - 1
    ensures EachOnce(|done| - 1, done[..k] + done[k + 1..])
  {
    k := LastAdapterDone(|done|, done);
    RemovedAt(done, k);
  }

  lemma OwnNext(adapters: seq<Adapter>, pageCap: nat, n: nat, x: Finding)
    requires 0 < n <= |adapters|
    ensures OfKey(Pushed(adapters, pageCap, OwnOrder(n)), x)
            == OfKey(Pushed(adapters, pageCap, OwnOrder(n - 1)), x) + OfKey(Shown(adapters, pageCap, n - 1), x)
  {
    hide OfKey, Shown, Pushed;
    PushedNext(adapters, pageCap, OwnOrder(n), x);
    assert OwnOrder(n)[..n - 1] == OwnOrder(n - 1);
  }

  lemma OnceIsBelow(n: nat, m: nat, done: seq<(nat, string)>)
    requires EachOnce(n, done) && n <= m
    ensures AllBelow(m, done)
  {
  }

  lemma {:induction false} AnyOrderShows(adapters: seq<Adapter>, pageCap: nat, done: seq<(nat, string)>, x: Finding)
    requires AllCommute(adapters, pageCap) && EachOnce(|done|, done) && |done| <= |adapters|
    ensures AllBelow(|adapters|, done)
    ensures OfKey(Pushed(adapters, pageCap, done), x) == OfKey(Pushed(adapters, pageCap, OwnOrder(|done|)), x)
    decreases |done|
  {
    var n := |done|;
    hide AllCommute, Shown, OfKey, Pushed, EachOnce, AllBelow;
    OnceIsBelow(n, |adapters|, done);
    if n == 0 {
      assert done == OwnOrder(n);
    } else {
      var k := OthersOnce(done);
      var fewer := done[..k] + done[k + 1..];
      MoveLast(adapters, pageCap, done, k, x);
      AnyOrderShows(adapters, pageCap, fewer, x);
      OwnNext(adapters, pageCap, n, x);
    }
  }

  // ----- two schedules that tell two adapters apart

  /** All settle in their own order, but `a` waits for the one before `b`, or for `b` as well. */
  function Late(n: nat, a: nat, b: nat, behind: bool): seq<(nat, string)> {
    seq(n, i =>
      (if a <= i < b - 1 then i + 1
       else if i == b - 1 then (if behind then b else a)
       else if i == b then (if behind then a else b)
       else i, ""))
  }

  lemma LateIsReachable(n: nat, a: nat, b: nat, behind: bool, workers: nat)
    requires a < b < n && workers >= 2
    ensures EachOnce(n, Late(n, a, b, behind)) && InTurn(workers, Late(n, a, b, behind))
  {
  }

  lemma {:induction false} PushedSplit(adapters: seq<Adapter>, pageCap: nat, front: seq<(nat, string)>,
                                       back: seq<(nat, string)>, x: Finding)
    requires AllBelow(|adapters|, front) && AllBelow(|adapters|, back)
    ensures AllBelow(|adapters|, front + back)
    ensures OfKey(Pushed(adapters, pageCap, front + back), x)
            == OfKey(Pushed(adapters, pageCap, front), x) + OfKey(Pushed(adapters, pageCap, back), x)
  {
    hide OfKey, Pushed, Shown;
    if back == [] {
      assert front + back == front;
      NothingPushed(adapters, pageCap, x);
    } else {
      var n := |back| - 1;
      PushedSplit(adapters, pageCap, front, back[..n], x);
      assert (front + back)[..|front| + n] == front + back[..n] && (front + back)[|front| + n] == back[n];
      PushedNext(adapters, pageCap, front + back, x);
      PushedNext(adapters, pageCap, back, x);
    }
  }

  lemma NothingPushed(adapters: seq<Adapter>, pageCap: nat, x: Finding)
    ensures OfKey(Pushed(adapters, pageCap, []), x) == []
  {
  }

  /** Two settled adapters in the middle of an order. */
  lemma MiddlePair(adapters: seq<Adapter>, pageCap: nat, front: seq<(nat, string)>, c: nat, d: nat,
                   back: seq<(nat, string)>, x: Finding)
    requires AllBelow(|adapters|, front) && AllBelow(|adapters|, back) && c < |adapters| && d < |adapters|
    ensures AllBelow(|adapters|, front + [(c, ""), (d, "")] + back)
    ensures OfKey(Pushed(adapters, pageCap, front + [(c, ""), (d, "")] + back), x)
            == OfKey(Pushed(adapters, pageCap, front), x)
               + (OfKey(Shown(adapters, pageCap, c), x) + OfKey(Shown(adapters, pageCap, d), x))
               + OfKey(Pushed(adapters, pageCap, back), x)
  {
    hide OfKey, Pushed, Shown;
    var pair := [(c, ""), (d, "")];
    PushedSplit(adapters, pageCap, front, pair, x);
    PushedSplit(adapters, pageCap, front + pair, back, x);
    PairShows(adapters, pageCap, c, d, x);
  }

  lemma PairShows(adapters: seq<Adapter>, pageCap: nat, c: nat, d: nat, x: Finding)
    requires c < |adapters| && d < |adapters|
    ensures AllBelow(|adapters|, [(c, ""), (d, "")])
    ensures OfKey(Pushed(adapters, pageCap, [(c, ""), (d, "")]), x)
            == OfKey(Shown(adapters, pageCap, c), x) + OfKey(Shown(adapters, pageCap, d), x)
  {
    hide Shown, OfKey;
    assert [(c, ""), (d, "")][..1] == [(c, "")] && [(c, "")][..0] == [];
    assert Pushed(adapters, pageCap, [(c, "")]) == Pushed(adapters, pageCap, []) + Shown(adapters, pageCap, c)
           == Shown(adapters, pageCap, c);
    assert Pushed(adapters, pageCap, [(c, ""), (d, "")])
           == Pushed(adapters, pageCap, [(c, "")]) + Shown(adapters, pageCap, d);
    OfKeySplit(Shown(adapters, pageCap, c), Shown(adapters, pageCap, d), x);
  }

  lemma LateIsPair(n: nat, a: nat, b: nat, front: seq<(nat, string)>, back: seq<(nat, string)>)
    requires a < b < n && front == Late(n, a, b, false)[..b - 1] && back == Late(n, a, b, false)[b + 1..]
    ensures Late(n, a, b, false) == front + [(a, ""), (b, "")] + back
    ensures Late(n, a, b, true) == front + [(b, ""), (a, "")] + back
    ensures AllBelow(n, front) && AllBelow(n, back)
  {
  }

  /** When two late orders are reported alike, the two adapters commute. */
  lemma LateTells(adapters: seq<Adapter>, pageCap: nat, a: nat, b: nat, x: Finding)
    requires a < b < |adapters|
    ensures AllBelow(|adapters|, Late(|adapters|, a, b, false)) && AllBelow(|adapters|, Late(|adapters|, a, b, true))
    ensures OfKey(Pushed(adapters, pageCap, Late(|adapters|, a, b, false)), x)
            == OfKey(Pushed(adapters, pageCap, Late(|adapters|, a, b, true)), x)
            <==> CommuteAt(adapters, pageCap, a, b, x)
  {
    var n := |adapters|;
    var front, back := Late(n, a, b, false)[..b - 1], Late(n, a, b, false)[b + 1..];
    LateIsPair(n, a, b, front, back);
    hide Late, OfKey, Pushed, Shown;
    MiddlePair(adapters, pageCap, front, a, b, back, x);
    MiddlePair(adapters, pageCap, front, b, a, back, x);
    var p, q := OfKey(Pushed(adapters, pageCap, front), x), OfKey(Pushed(adapters, pageCap, back), x);
    var u, v := OfKey(Shown(adapters, pageCap, a), x), OfKey(Shown(adapters, pageCap, b), x);
    if p + (u + v) + q == p + (v + u) + q {
      CancelLast(p + (u + v), p + (v + u), q);
      CancelFirst(u + v, v + u, p);
    }
  }

  // ----- when the report does not depend on the schedule

  predicate Explicit(findings: seq<Finding>) { forall f | f in findings :: f.observedAt.Some? }

  /** Normalisation where the clock is not read. */
  function Settled(f: Finding): Finding { Normalize(f, "") }

  lemma SettledNormalizes(raw: seq<Finding>)
    ensures AllNormalized(raw, MapAll(raw, Settled))
  {
    var out := MapAll(raw, Settled);
    forall i | 0 <= i < |raw| ensures IsNormalized(raw[i], out[i]) {
      assert out[i] == Settled(raw[i]);
    }
  }

  /** Every order that the workers allow has its report. */
  lemma ReportExists(adapters: seq<Adapter>, pageCap: nat, workers: nat, done: seq<(nat, string)>)
    returns (findings: seq<Finding>)
    requires AllValid(adapters, pageCap) && EachOnce(|adapters|, done) && InTurn(workers, done)
    ensures CanReport(adapters, pageCap, workers, findings) && ReportOf(adapters, pageCap, done, findings)
    ensures AllBelow(|adapters|, done)
    ensures findings == Sort(MapAll(Collected(adapters, pageCap, done), Settled), FindingLe)
  {
    OnceIsBelow(|adapters|, |adapters|, done);
    hide AllValid, EachOnce, InTurn, AllBelow, Collected, AllNormalized, Sort, MapAll, Schedule;
    var raw := Collected(adapters, pageCap, done);
    SettledNormalizes(raw);
    findings := Sort(MapAll(raw, Settled), FindingLe);
    assert Reports(raw, MapAll(raw, Settled), findings);
    var moments := ScheduleOf(|adapters|, workers, done);
    assert ReportOf(adapters, pageCap, Last(moments).done, findings);
  }

  lemma ReportedOrder(adapters: seq<Adapter>, pageCap: nat, workers: nat, findings: seq<Finding>)
    returns (done: seq<(nat, string)>)
    requires workers > 0 && CanReport(adapters, pageCap, workers, findings)
    ensures EachOnce(|adapters|, done) && InTurn(workers, done) && ReportOf(adapters, pageCap, done, findings)
  {
    hide ReportOf, AllValid, EachOnce, InTurn;
    var moments: seq<Moment> :| Schedule(|adapters|, workers, moments)
      && ReportOf(adapters, pageCap, Last(moments).done, findings);
    EndOfSchedule(|adapters|, workers, moments);
    done := Last(moments).done;
  }

  /** The findings of all adapters, returned or about a failure or a cut, in the adapters' order. */
  function Everything(adapters: seq<Adapter>, pageCap: nat): seq<Finding> {
    OwnBelow(|adapters|);
    Pushed(adapters, pageCap, OwnOrder(|adapters|))
  }

  lemma OwnBelow(n: nat)
    ensures AllBelow(n, OwnOrder(n))
  {
  }

  lemma OwnOrderOnly(n: nat, done: seq<(nat, string)>)
    requires EachOnce(n, done) && InTurn(1, done)
    ensures forall k | 0 <= k < n :: done[k].0 == k
  {
    forall k | 0 <= k < n ensures done[k].0 == k {
      OneWorker(n, done, k);
    }
  }

  lemma {:induction false} SameOrderSamePushed(adapters: seq<Adapter>, pageCap: nat, done: seq<(nat, string)>,
                                               more: seq<(nat, string)>)
    requires AllBelow(|adapters|, done) && AllBelow(|adapters|, more) && |done| == |more|
    requires forall k | 0 <= k < |done| :: done[k].0 == more[k].0
    ensures Pushed(adapters, pageCap, done) == Pushed(adapters, pageCap, more)
  {
    if done != [] {
      SameOrderSamePushed(adapters, pageCap, done[..|done| - 1], more[..|more| - 1]);
    }
  }

  /**
   * With one worker, or adapters that commute, every schedule gives one and the same list of findings up to the
   * time each carries: those of all adapters, failed and cut ones included, sorted and redacted.
   */
  lemma ScheduleDoesNotMatter(adapters: seq<Adapter>, pageCap: nat, workers: nat, findings: seq<Finding>)
    requires workers > 0 && CanReport(adapters, pageCap, workers, findings)
    requires workers == 1 || AllCommute(adapters, pageCap)
    ensures MapAll(findings, Timeless) == Sort(Everything(adapters, pageCap), FindingLe)
  {
    var n := |adapters|;
    var done := ReportedOrder(adapters, pageCap, workers, findings);
    OwnBelow(n);
    assert |done| == n;
    hide CanReport, ReportOf, EachOnce, InTurn, AllBelow, AllCommute, MapAll, Sort, Timeless, Pushed, OfKey;
    ReportTimeless(adapters, pageCap, done, findings);
    if workers == 1 {
      OwnOrderOnly(n, done);
      SameOrderSamePushed(adapters, pageCap, done, OwnOrder(n));
    } else {
      SortsAlikeIff(Pushed(adapters, pageCap, done), Everything(adapters, pageCap));
      forall x ensures OfKey(Pushed(adapters, pageCap, done), x) == OfKey(Everything(adapters, pageCap), x) {
        AnyOrderShows(adapters, pageCap, done, x);
      }
    }
  }

  /** All reports that schedules of so many workers can give list the same findings, up to the time they carry. */
  ghost predicate OneList(adapters: seq<Adapter>, pageCap: nat, workers: nat) {
    forall f, g | CanReport(adapters, pageCap, workers, f) && CanReport(adapters, pageCap, workers, g) ::
      MapAll(f, Timeless) == MapAll(g, Timeless)
  }

  lemma OneListCommutes(adapters: seq<Adapter>, pageCap: nat, workers: nat, a: nat, b: nat, x: Finding)
    requires workers >= 2 && AllValid(adapters, pageCap) && OneList(adapters, pageCap, workers) && a < b < |adapters|
    ensures CommuteAt(adapters, pageCap, a, b, x)
  {
    var n := |adapters|;
    hide CanReport, ReportOf, EachOnce, InTurn, AllBelow, AllValid, MapAll, Sort, Timeless, Pushed, OfKey, Collected,
         Late,
         CommuteAt;
    var before, behind := Late(n, a, b, false), Late(n, a, b, true);
    LateIsReachable(n, a, b, false, workers);
    LateIsReachable(n, a, b, true, workers);
    var f := ReportExists(adapters, pageCap, workers, before);
    var g := ReportExists(adapters, pageCap, workers, behind);
    ReportTimeless(adapters, pageCap, before, f);
    ReportTimeless(adapters, pageCap, behind, g);
    SortsAlikeIff(Pushed(adapters, pageCap, before), Pushed(adapters, pageCap, behind));
    LateTells(adapters, pageCap, a, b, x);
  }

  /**
   * The report does not depend on the schedule, up to the time of its findings, exactly when there is no report at
   * all, or one worker only, or for every key the findings of any two adapters commute.
   */
  lemma ScheduleDoesNotMatterIff(adapters: seq<Adapter>, pageCap: nat, workers: nat)
    requires workers > 0
    ensures OneList(adapters, pageCap, workers) <==>
            !AllValid(adapters, pageCap) || workers == 1 || AllCommute(adapters, pageCap)
  {
    hide ReportOf, AllValid, MapAll, Sort, Timeless, Pushed, OfKey, CommuteAt, Schedule, Everything, FindingLe;
    if workers == 1 || AllCommute(adapters, pageCap) {
      forall f, g | CanReport(adapters, pageCap, workers, f) && CanReport(adapters, pageCap, workers, g)
        ensures MapAll(f, Timeless) == MapAll(g, Timeless)
      {
        ScheduleDoesNotMatter(adapters, pageCap, workers, f);
        ScheduleDoesNotMatter(adapters, pageCap, workers, g);
      }
    } else if AllValid(adapters, pageCap) && OneList(adapters, pageCap, workers) {
      forall a: nat, b: nat, x: Finding | a < b < |adapters| ensures CommuteAt(adapters, pageCap, a, b, x) {
        OneListCommutes(adapters, pageCap, workers, a, b, x);
      }
    }
  }

  // ----- adapters whose own findings have different keys

  ghost predicate DistinctKeys(findings: seq<Finding>) {
    forall i, j | 0 <= i < j < |findings| :: !SameKey(findings[i], findings[j])
  }

  ghost predicate OwnKeysDiffer(adapters: seq<Adapter>, pageCap: nat) {
    forall a: nat | a < |adapters| :: DistinctKeys(Shown(adapters, pageCap, a))
  }

  /** Findings of different adapters with one key say the same, apart from the time. */
  ghost predicate SharedKeysAgree(adapters: seq<Adapter>, pageCap: nat) {
    forall a: nat, b: nat, f, g | a < b < |adapters| && f in Shown(adapters, pageCap, a)
                                  && g in Shown(adapters, pageCap, b) && SameKey(f, g) :: f == g
  }

  lemma {:induction false} OfKeyMembers(s: seq<Finding>, x: Finding)
    ensures forall y :: y in OfKey(s, x) <==> y in s && SameKey(y, x)
  {
    hide SameKey;
    if s != [] {
      OfKeyMembers(s[1..], x);
      assert s == [s[0]] + s[1..];
    }
  }

  lemma {:induction false} OneOfKey(s: seq<Finding>, x: Finding)
    requires DistinctKeys(s)
    ensures |OfKey(s, x)| <= 1
  {
    if s != [] {
      assert forall i | 0 <= i < |s| - 1 :: s[1..][i] == s[i + 1];
      OneOfKey(s[1..], x);
      OfKeyMembers(s[1..], x);
      if SameKey(s[0], x) {
        forall y ensures y !in OfKey(s[1..], x) {
          if y in s[1..] {
            var j :| 0 <= j < |s| - 1 && s[1..][j] == y;
            assert !SameKey(s[0], s[j + 1]);
          }
        }
        assert OfKey(s[1..], x) == [] || OfKey(s[1..], x)[0] in OfKey(s[1..], x);
      }
    }
  }

  lemma TheOneOfKey(s: seq<Finding>, y: Finding, x: Finding)
    requires DistinctKeys(s) && y in s && SameKey(y, x)
    ensures OfKey(s, x) == [y]
  {
    OneOfKey(s, x);
    OfKeyMembers(s, x);
    hide OfKey, DistinctKeys, SameKey;
    assert y in OfKey(s, x);
  }

  lemma ShortCommute(u: seq<Finding>, v: seq<Finding>)
    requires |u| <= 1 && |v| <= 1 && (u != [] && v != [] ==> u[0] == v[0])
    ensures u + v == v + u
  {
  }

  lemma AgreeingCommute(adapters: seq<Adapter>, pageCap: nat, a: nat, b: nat, x: Finding)
    requires OwnKeysDiffer(adapters, pageCap) && SharedKeysAgree(adapters, pageCap) && a < b < |adapters|
    ensures CommuteAt(adapters, pageCap, a, b, x)
  {
    hide Shown, OfKey, DistinctKeys, SameKey;
    var u, v := OfKey(Shown(adapters, pageCap, a), x), OfKey(Shown(adapters, pageCap, b), x);
    OneOfKey(Shown(adapters, pageCap, a), x);
    OneOfKey(Shown(adapters, pageCap, b), x);
    OfKeyMembers(Shown(adapters, pageCap, a), x);
    OfKeyMembers(Shown(adapters, pageCap, b), x);
    if u != [] && v != [] {
      assert u[0] in u && v[0] in v;
      KeysMeet(u[0], v[0], x);
    }
    ShortCommute(u, v);
  }

  lemma KeysMeet(f: Finding, g: Finding, x: Finding)
    requires SameKey(f, x) && SameKey(g, x)
    ensures SameKey(f, g)
  {
  }

  /** When each adapter's own findings have different keys, adapters commute exactly when shared keys agree. */
  lemma AllCommuteIff(adapters: seq<Adapter>, pageCap: nat)
    requires OwnKeysDiffer(adapters, pageCap)
    ensures AllCommute(adapters, pageCap) <==> SharedKeysAgree(adapters, pageCap)
  {
    hide Shown, OfKey, DistinctKeys;
    if AllCommute(adapters, pageCap) {
      forall a: nat, b: nat, f, g | a < b < |adapters| && f in Shown(adapters, pageCap, a)
                                    && g in Shown(adapters, pageCap, b) && SameKey(f, g)
        ensures f == g
      {
        assert CommuteAt(adapters, pageCap, a, b, f);
        TheOneOfKey(Shown(adapters, pageCap, a), f, f);
        TheOneOfKey(Shown(adapters, pageCap, b), g, f);
        assert ([f] + [g])[0] == ([g] + [f])[0];
      }
    }
    if SharedKeysAgree(adapters, pageCap) {
      forall a: nat, b: nat, x: Finding | a < b < |adapters| ensures CommuteAt(adapters, pageCap, a, b, x) {
        AgreeingCommute(adapters, pageCap, a, b, x);
      }
    }
  }

  /**
   * With two workers or more, and such adapters, all of whose findings are accepted, the report does not depend on
   * the schedule exactly when shared keys agree.
   */
  lemma SharedKeysIff(adapters: seq<Adapter>, pageCap: nat, workers: nat)
    requires workers >= 2 && AllValid(adapters, pageCap) && OwnKeysDiffer(adapters, pageCap)
    ensures OneList(adapters, pageCap, workers) <==> SharedKeysAgree(adapters, pageCap)
  {
    hide OneList, AllValid, AllCommute, SharedKeysAgree, OwnKeysDiffer;
    ScheduleDoesNotMatterIff(adapters, pageCap, workers);
    AllCommuteIff(adapters, pageCap);
  }

  // ----- two schedules, two reports

  /** Two adapters of one provider that both fail. */
  function Failing(provider: string, reason: string, other: string): seq<Adapter> {
    [Adapter(provider, Failed(reason)), Adapter(provider, Failed(other))]
  }

  /** What is reported of a failure at a clock that reads nothing. */
  function FailureShown(provider: string, reason: string): Finding {
    Settled(DegradedFinding(provider, "", Obj(map["reason" := Str(reason)])))
  }

  lemma NotMentioned(key: string, pattern: string)
    requires pattern != ""
    requires forall i: nat | i + |pattern| <= |key| :: LowerChar(key[i]) != LowerChar(pattern[0])
    ensures !Mentions(key, pattern)
  {
    forall i: nat | i <= |key| ensures !OccursAt(Lower(key), Lower(pattern), i) {
      if i + |pattern| <= |key| {
        assert Lower(key)[i..i + |pattern|][0] == Lower(key)[i] == LowerChar(key[i]);
      }
    }
  }

  lemma ReasonIsShown()
    ensures !IsSecretKey("reason") && !IsSecretKey("")
  {
    forall key | key in {"reason", ""} ensures !IsSecretKey(key) {
      hide Mentions;
      NotMentioned(key, "secret");
      NotMentioned(key, "token");
      NotMentioned(key, "password");
      NotMentioned(key, "credential");
      NotMentioned(key, "kubeconfig");
      NotMentioned(key, "accesskey");
      NotMentioned(key, "access_key");
      NotMentioned(key, "access-key");
    }
  }

  lemma FailuresDiffer(provider: string, reason: string, other: string)
    requires reason != other
    ensures SameKey(FailureShown(provider, reason), FailureShown(provider, other))
    ensures Timeless(FailureShown(provider, reason)) != Timeless(FailureShown(provider, other))
  {
    ReasonIsShown();
    hide IsSecretKey;
    forall r: string ensures RedactValue(Obj(map["reason" := Str(r)]), 0, "") == Obj(map["reason" := Str(r)]) {
      RedactionFixesClean(Obj(map["reason" := Str(r)]), 0, "");
    }
    assert map["reason" := Str(reason)]["reason"] != map["reason" := Str(other)]["reason"];
  }

  lemma FailuresAreValid(provider: string, reason: string, other: string, pageCap: nat)
    requires provider in PROVIDERS
    ensures AllValid(Failing(provider, reason, other), pageCap)
  {
    hide Upper;
  }

  lemma SortTwo(x: Finding, y: Finding)
    requires SameKey(x, y)
    ensures Sort([x, y], FindingLe) == [x, y]
  {
    LexOrder();
    assert LexLe(x.resource, y.resource);
    assert [x, y][1..] == [y] && [y][1..] == [];
    assert Sort([y], FindingLe) == [y];
    assert Insert(x, [y], FindingLe) == [x, y];
  }

  lemma CollectedTwo(adapters: seq<Adapter>, pageCap: nat, c: nat, d: nat)
    requires c < |adapters| && d < |adapters|
    ensures AllBelow(|adapters|, [(c, ""), (d, "")])
    ensures Collected(adapters, pageCap, [(c, ""), (d, "")])
            == Bounded(adapters[c], pageCap, "") + Bounded(adapters[d], pageCap, "")
  {
    hide Bounded;
    assert [(c, ""), (d, "")][..1] == [(c, "")] && [(c, "")][..0] == [];
    assert Collected(adapters, pageCap, [(c, "")]) == Bounded(adapters[c], pageCap, "");
  }

  lemma FailingReport(adapters: seq<Adapter>, pageCap: nat, c: nat, d: nat, provider: string, reason: string,
                      other: string)
    requires c < |adapters| && d < |adapters|
    requires adapters[c] == Adapter(provider, Failed(reason)) && adapters[d] == Adapter(provider, Failed(other))
    ensures ReportOf(adapters, pageCap, [(c, ""), (d, "")],
                     [FailureShown(provider, reason), FailureShown(provider, other)])
  {
    var x := DegradedFinding(provider, "", Obj(map["reason" := Str(reason)]));
    var y := DegradedFinding(provider, "", Obj(map["reason" := Str(other)]));
    assert Bounded(adapters[c], pageCap, "") == [x] && Bounded(adapters[d], pageCap, "") == [y];
    assert SameKey(Settled(x), Settled(y));
    hide Bounded, Collected, DegradedFinding, Settled, Sort, FindingLe, SameKey, AllNormalized;
    CollectedTwo(adapters, pageCap, c, d);
    SortTwo(Settled(x), Settled(y));
    BothSettled(x, y);
    assert Collected(adapters, pageCap, [(c, ""), (d, "")]) == [x, y];
    assert Reports([x, y], [Settled(x), Settled(y)], [Settled(x), Settled(y)]);
  }

  lemma BothOrders() returns (first: seq<Moment>, second: seq<Moment>)
    ensures Schedule(2, 2, first) && Last(first).done == [(0, ""), (1, "")]
    ensures Schedule(2, 2, second) && Last(second).done == [(1, ""), (0, "")]
  {
    first := ScheduleOf(2, 2, [(0, ""), (1, "")]);
    second := ScheduleOf(2, 2, [(1, ""), (0, "")]);
  }

  /** Which of two failing adapters of a provider settles first shows in the report, for any two different reasons. */
  lemma TwoSchedulesTwoReports(provider: string, reason: string, other: string, pageCap: nat)
    returns (first: seq<Moment>, second: seq<Moment>)
    requires provider in PROVIDERS && reason != other
    ensures var adapters := Failing(provider, reason, other);
            var x, y := FailureShown(provider, reason), FailureShown(provider, other);
            && AllValid(adapters, pageCap) && Timeless(x) != Timeless(y)
            && Schedule(2, 2, first) && ReportOf(adapters, pageCap, Last(first).done, [x, y])
            && Schedule(2, 2, second) && ReportOf(adapters, pageCap, Last(second).done, [y, x])
  {
    var adapters := Failing(provider, reason, other);
    FailuresAreValid(provider, reason, other, pageCap);
    FailuresDiffer(provider, reason, other);
    hide Timeless, Schedule, AllValid, ReportOf, FailureShown, IsValid;
    first, second := BothOrders();
    FailingReport(adapters, pageCap, 0, 1, provider, reason, other);
    FailingReport(adapters, pageCap, 1, 0, provider, other, reason);
  }

  lemma BothSettled(d: Finding, e: Finding)
    ensures AllNormalized([d, e], [Settled(d), Settled(e)])
  {
    assert IsNormalized(d, Settled(d)) && IsNormalized(e, Settled(e));
  }

  // ----- reports that agree in their times as well

  predicate AllComplete(adapters: seq<Adapter>, pageCap: nat) {
    forall i | 0 <= i < |adapters| :: Complete(adapters[i], pageCap)
  }

  /** The clock is not read for adapters that completed. */
  lemma {:induction false} CompleteIgnoresClock(adapters: seq<Adapter>, pageCap: nat, nows: seq<string>,
                                                other: seq<string>)
    requires |nows| == |other| == |adapters| && AllComplete(adapters, pageCap)
    ensures InOrder(adapters, pageCap, nows) == InOrder(adapters, pageCap, other)
  {
    if adapters != [] {
      var n := |adapters| - 1;
      CompleteIgnoresClock(adapters[..n], pageCap, nows[..n], other[..n]);
      IncompleteIsDegraded(adapters[n], pageCap, nows[n]);
      IncompleteIsDegraded(adapters[n], pageCap, other[n]);
    }
  }

  /** The findings the adapters returned, in their order. */
  function Returned(adapters: seq<Adapter>, pageCap: nat): seq<Finding>
    requires AllComplete(adapters, pageCap)
  {
    InOrder(adapters, pageCap, seq(|adapters|, i => ""))
  }

  lemma ExplicitIsSettled(raw: seq<Finding>, out: seq<Finding>)
    requires AllNormalized(raw, out) && Explicit(raw)
    ensures out == MapAll(raw, Settled)
  {
    forall i | 0 <= i < |raw| ensures out[i] == Settled(raw[i]) {
      assert raw[i] in raw && IsNormalized(raw[i], out[i]);
    }
  }

  lemma SortedAlike(s: seq<Finding>, t: seq<Finding>)
    requires multiset(s) == multiset(t) && DistinctKeys(s)
    ensures Sort(s, FindingLe) == Sort(t, FindingLe)
  {
    FindingOrder();
    hide FindingLe, Sort;
    forall x, y | x in s && y in s && x != y ensures !(FindingLe(x, y) && FindingLe(y, x)) {
      var i :| 0 <= i < |s| && s[i] == x;
      var j :| 0 <= j < |s| && s[j] == y;
      assert if i < j then !SameKey(s[i], s[j]) else !SameKey(s[j], s[i]);
    }
    assert Distinct(s);
    SortPermutation(s, t, FindingLe);
  }

  /**
   * When no adapter failed or was cut, the findings carry their own time and their keys are pairwise different, the
   * times agree too: every schedule gives the findings returned, sorted and redacted.
   */
  lemma CompleteScheduleDoesNotMatter(adapters: seq<Adapter>, pageCap: nat, workers: nat, findings: seq<Finding>)
    requires workers > 0 && AllComplete(adapters, pageCap) && CanReport(adapters, pageCap, workers, findings)
    requires Explicit(Returned(adapters, pageCap)) && DistinctKeys(Returned(adapters, pageCap))
    ensures findings == MapAll(Sort(Returned(adapters, pageCap), FindingLe), Settled)
  {
    hide InOrder, Collected, Complete, IsNormalized, Sort, MapAll, FindingLe, InTurn, AllValid;
    var done := ReportedOrder(adapters, pageCap, workers, findings);
    var nows := OrderDoesNotMatter(adapters, pageCap, done);
    var raw := Collected(adapters, pageCap, done);
    var out: seq<Finding> :| Reports(raw, out, findings);
    var all := Returned(adapters, pageCap);
    CompleteIgnoresClock(adapters, pageCap, nows, seq(|adapters|, i => ""));
    SortedAlike(all, raw);
    forall f | f in raw ensures f.observedAt.Some? {
      assert f in multiset(raw);
      assert f in all;
    }
    ExplicitIsSettled(raw, out);
    assert KeepsKey(Settled);
    SortMapped(raw, Settled);
  }
}
