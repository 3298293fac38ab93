// packages/drift/src/reconciler.ts, `execute`: calls that overlap, because each
// awaits its executors while other calls go on. The lock is taken and released
// between awaits, so those two steps are atomic.
module ExecutionLocks {
  import opened Reconciler
  import opened ReconcilerRun

  /** `Running(n)`: the first `n` actions are done. */
  datatype Phase = Waiting | Running(done: nat) | TurnedAway | Ended

  /** A call that passed the token checks, with its lock key and the stored actions it fetched. */
  datatype Call = Call(key: string, actions: seq<Action>)

  datatype State = State(held: set<string>, phases: seq<Phase>)

  datatype Step = Begin(c: nat) | RunNext(c: nat) | Finish(c: nat) | Fail(c: nat)

  predicate Next(calls: seq<Call>, s: State, t: State, step: Step) {
    && |s.phases| == |calls| && step.c < |calls|
    && var key, phase := calls[step.c].key, s.phases[step.c];
    match step
    case Begin(c) =>
      && phase.Waiting?
      && t == if key in s.held then State(s.held, s.phases[c := TurnedAway])
         else State(s.held + {key}, s.phases[c := Running(0)])
    case RunNext(c) =>
      phase.Running? && phase.done < |calls[c].actions| && t == State(s.held, s.phases[c := Running(phase.done + 1)])
    case Finish(c) =>
      phase.Running? && phase.done == |calls[c].actions| && t == State(s.held - {key}, s.phases[c := Ended])
    case Fail(c) =>
      phase.Running? && t == State(s.held - {key}, s.phases[c := Ended])
  }

  predicate Init(calls: seq<Call>, s: State) {
    |s.phases| == |calls| && s.held == {} && forall c | 0 <= c < |calls| :: s.phases[c].Waiting?
  }

  ghost predicate Run(calls: seq<Call>, states: seq<State>, steps: seq<Step>) {
    && |states| == |steps| + 1 && Init(calls, states[0])
    && forall i | 0 <= i < |steps| :: Next(calls, states[i], states[i + 1], steps[i])
  }

  /** The held locks are exactly those of the running calls, and no two of these share one. */
  ghost predicate Exclusive(calls: seq<Call>, s: State) {
    && |s.phases| == |calls|
    && (forall c | 0 <= c < |calls| && s.phases[c].Running? :: calls[c].key in s.held)
    && (forall k | k in s.held :: exists c :: 0 <= c < |calls| && s.phases[c].Running? && calls[c].key == k)
    && (forall c, d | 0 <= c < d < |calls| && s.phases[c].Running? && s.phases[d].Running? ::
        calls[c].key != calls[d].key)
  }

  lemma StepKeepsExclusive(calls: seq<Call>, s: State, t: State, step: Step)
    requires Exclusive(calls, s) && Next(calls, s, t, step)
    ensures Exclusive(calls, t)
  {
    var key := calls[step.c].key;
    forall k | k in t.held ensures exists c :: 0 <= c < |calls| && t.phases[c].Running? && calls[c].key == k {
      if k == key && t.phases[step.c].Running? {
        assert calls[step.c].key == k;
      } else {
        var c :| 0 <= c < |calls| && s.phases[c].Running? && calls[c].key == k;
        assert c != step.c;
      }
    }
  }

  /** In every interleaving at most one call per lock key runs, and a lock is held only while its call runs. */
  lemma {:induction false} RunsAreExclusive(calls: seq<Call>, states: seq<State>, steps: seq<Step>, i: nat)
    requires Run(calls, states, steps) && i < |states|
    ensures Exclusive(calls, states[i])
  {
    if i > 0 {
      RunsAreExclusive(calls, states, steps, i - 1);
      StepKeepsExclusive(calls, states[i - 1], states[i], steps[i - 1]);
    }
  }

  /** Once no call runs any more, whichever way each ended, every lock is free. */
  lemma LocksAreReleased(calls: seq<Call>, states: seq<State>, steps: seq<Step>, i: nat)
    requires Run(calls, states, steps) && i < |states|
    requires forall c | 0 <= c < |calls| :: |states[i].phases| == |calls| && !states[i].phases[c].Running?
    ensures states[i].held == {}
  {
    RunsAreExclusive(calls, states, steps, i);
  }

  lemma {:induction false} PhasesKept(calls: seq<Call>, states: seq<State>, steps: seq<Step>, i: nat)
    requires Run(calls, states, steps) && i < |states|
    ensures |states[i].phases| == |calls|
    ensures forall c | 0 <= c < |calls| && states[i].phases[c].Running? ::
            states[i].phases[c].done <= |calls[c].actions|
  {
    if i > 0 {
      PhasesKept(calls, states, steps, i - 1);
    }
  }

  /** A call is never stuck while it holds its lock: it can always take its next step. */
  lemma RunningCallCanStep(calls: seq<Call>, states: seq<State>, steps: seq<Step>, i: nat, c: nat)
    returns (step: Step, t: State)
    requires Run(calls, states, steps) && i < |states| && c < |calls| && |states[i].phases| == |calls|
             && states[i].phases[c].Running?
    ensures Next(calls, states[i], t, step) && step.c == c && (step.RunNext? || step.Finish?)
  {
    PhasesKept(calls, states, steps, i);
    var s := states[i];
    if s.phases[c].done < |calls[c].actions| {
      step, t := RunNext(c), State(s.held, s.phases[c := Running(s.phases[c].done + 1)]);
    } else {
      step, t := Finish(c), State(s.held - {calls[c].key}, s.phases[c := Ended]);
    }
  }

  // ----- the lock is per key, not per plan

  /**
   * The call that `execute` makes of an accepted plan object: its key comes from the object, its actions from the
   * store.
   */
  function CallOf(plan: Plan, stored: seq<Action>, lockKeyOf: LockFields -> string): Call {
    Call(lockKeyOf(LockFieldsOf(plan)), stored)
  }

  ghost predicate BothRun(calls: seq<Call>, states: seq<State>, steps: seq<Step>, i: nat) {
    && |calls| == 2 && Run(calls, states, steps) && i < |states| && |states[i].phases| == 2
    && states[i].phases[0].Running? && states[i].phases[1].Running?
  }

  lemma DifferentKeysRunTogether(first: Call, second: Call) returns (states: seq<State>, steps: seq<Step>)
    requires first.key != second.key
    ensures BothRun([first, second], states, steps, 2)
  {
    states := [State({}, [Waiting, Waiting]), State({first.key}, [Running(0), Waiting]),
               State({first.key, second.key}, [Running(0), Running(0)])];
    steps := [Begin(0), Begin(1)];
    assert {first.key} + {second.key} == {first.key, second.key};
  }

  /**
   * Two accepted calls for one token, and so for the same stored actions, can run at the same time exactly when
   * their plan objects have different lock keys.
   */
  lemma SameTokenRunsTwiceIff(p: Plan, q: Plan, token: string, raw: map<string, seq<Action>>,
                              lockKeyOf: LockFields -> string)
    requires Accepted(p, token, raw.Keys) && Accepted(q, token, raw.Keys)
    ensures var calls := [CallOf(p, raw[token], lockKeyOf), CallOf(q, raw[token], lockKeyOf)];
            (exists states, steps, i :: BothRun(calls, states, steps, i))
            <==> lockKeyOf(LockFieldsOf(p)) != lockKeyOf(LockFieldsOf(q))
  {
    hide LockFieldsOf;
    var calls := [CallOf(p, raw[token], lockKeyOf), CallOf(q, raw[token], lockKeyOf)];
    if calls[0].key != calls[1].key {
      var states, steps := DifferentKeysRunTogether(calls[0], calls[1]);
      assert BothRun(calls, states, steps, 2);
    } else {
      forall states, steps, i ensures !BothRun(calls, states, steps, i) {
        if BothRun(calls, states, steps, i) {
          RunsAreExclusive(calls, states, steps, i);
        }
      }
    }
  }

  /**
   * Every plan that may run at all runs beside itself with its mode edited, unless its digest collides with
   * another.
   */
  lemma EditedPlanRunsBesideIt(p: Plan, token: string, raw: map<string, seq<Action>>, mode: Mode,
                               lockKeyOf: LockFields -> string)
    returns (q: Plan, states: seq<State>, steps: seq<Step>)
    requires Accepted(p, token, raw.Keys) && !IsReadOnly(mode) && mode != p.body.mode
    requires forall g | g != LockFieldsOf(p) :: lockKeyOf(g) != lockKeyOf(LockFieldsOf(p))
    ensures q == p.(body := p.body.(mode := mode)) && Accepted(q, token, raw.Keys)
    ensures BothRun([CallOf(p, raw[token], lockKeyOf), CallOf(q, raw[token], lockKeyOf)], states, steps, 2)
  {
    q := p.(body := p.body.(mode := mode));
    EditedModeIsAccepted(p, token, raw.Keys, mode);
    hide LockFieldsOf;
    states, steps := DifferentKeysRunTogether(CallOf(p, raw[token], lockKeyOf), CallOf(q, raw[token], lockKeyOf));
  }
}
