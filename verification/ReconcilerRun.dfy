// packages/drift/src/reconciler.ts: the reconciler object, which keeps the raw
// actions of its plans and runs them under a confirmation token and a lock.
module ReconcilerRun {
  import opened Wrappers
  import opened DriftTypes
  import opened Reconciler
  import opened ReconcilerPlan

  datatype Unsigned = Unsigned(
    createdAt: int, mode: Mode, scope: Scope, resourceCount: nat, actionCount: nat, executable: bool,
    summary: Summary, actions: seq<Action>)

  /** A plan as the caller holds it, and may have edited it; `schemaKnown` stands for the schema version. */
  datatype Plan = Plan(schemaKnown: bool, body: Unsigned, confirmToken: string)

  datatype Status = Succeeded | StatusBlocked | StatusFailed | Skipped

  datatype ActionResult = ActionResult(actionId: string, status: Status)

  datatype Refusal = UnsupportedSchema | ReadOnlyMode | TokenMismatch | UnknownToken

  datatype Outcome = Refused(reason: Refusal) | Locked | Ran(results: seq<ActionResult>)

  datatype LockFields = LockFields(
    mode: Mode, stackName: string, projectName: string, resourcePrefix: string, regions: seq<string>,
    accountIds: seq<string>, actionIds: multiset<string>)

  function Ids(actions: seq<Action>): seq<string> { seq(|actions|, i requires 0 <= i < |actions| => actions[i].id) }

  /** What the lock key is computed from; the ids are sorted, so only how often each occurs matters. */
  function LockFieldsOf(plan: Plan): LockFields {
    var scope := plan.body.scope;
    LockFields(plan.body.mode, OrElse(scope.stackName, ""), OrElse(scope.projectName, ""),
               OrElse(scope.resourcePrefix, ""), OrElse(scope.regions, []), OrElse(scope.accountIds, []),
               multiset(Ids(plan.body.actions)))
  }

  /**
   * Two plans share a lock key's fields exactly when they agree on mode, stack, project, prefix, regions and accounts,
   * where none given is the empty text or list, and hold the same ids, each as often.
   */
  lemma SameLockFieldsIff(p: Plan, q: Plan)
    ensures LockFieldsOf(p) == LockFieldsOf(q) <==>
            && p.body.mode == q.body.mode
            && SameText(p.body.scope.stackName, q.body.scope.stackName)
            && SameText(p.body.scope.projectName, q.body.scope.projectName)
            && SameText(p.body.scope.resourcePrefix, q.body.scope.resourcePrefix)
            && SameList(p.body.scope.regions, q.body.scope.regions)
            && SameList(p.body.scope.accountIds, q.body.scope.accountIds)
            && multiset(Ids(p.body.actions)) == multiset(Ids(q.body.actions))
  {
  }

  predicate SameText(s: Option<string>, t: Option<string>) {
    s == t || (s in {None, Some("")} && t in {None, Some("")})
  }

  predicate SameList(s: Option<seq<string>>, t: Option<seq<string>>) {
    s == t || (s in {None, Some([])} && t in {None, Some([])})
  }

  predicate IsReadOnly(mode: Mode) { mode == CheckOnly || mode == PlanOnly }

  predicate IsAllowed(a: Action, allow: set<Choice>) { allow == {} || a.recommended in allow }

  /** The plan object passes the four checks before the lock. */
  predicate Accepted(plan: Plan, confirmToken: string, tokens: set<string>) {
    plan.schemaKnown && !IsReadOnly(plan.body.mode) && confirmToken == plan.confirmToken && plan.confirmToken in tokens
  }

  /** A plan with another mutating mode in place of its own is accepted as well, and computes another lock key. */
  lemma EditedModeIsAccepted(plan: Plan, confirmToken: string, tokens: set<string>, mode: Mode)
    requires Accepted(plan, confirmToken, tokens) && !IsReadOnly(mode) && mode != plan.body.mode
    ensures var edited := plan.(body := plan.body.(mode := mode));
            && Accepted(edited, confirmToken, tokens) && edited.confirmToken == plan.confirmToken
            && LockFieldsOf(edited) != LockFieldsOf(plan)
  {
    var edited := plan.(body := plan.body.(mode := mode));
    assert LockFieldsOf(edited).mode == mode && LockFieldsOf(plan).mode == plan.body.mode;
  }

  /** The actions that reach an executor, in order. */
  function Runnable(actions: seq<Action>, allow: set<Choice>, executors: set<ActionType>): seq<Action> {
    if actions == [] then []
    else
      var last := actions[|actions| - 1];
      Runnable(actions[..|actions| - 1], allow, executors)
      + if Runs(last, allow, executors) then [last] else []
  }

  /** The result an action may have; only an executor is free to answer as it likes. */
  predicate Fits(a: Action, allow: set<Choice>, executors: set<ActionType>, result: ActionResult) {
    if !a.executable then result == ActionResult(a.id, StatusBlocked)
    else if !IsAllowed(a, allow) then result == ActionResult(a.id, Skipped)
    else a.kind !in executors ==> result == ActionResult(a.id, StatusBlocked)
  }

  /** What an executor's answer is recorded as; one that throws has failed. */
  function Settled(a: Action, answer: Option<ActionResult>): ActionResult {
    match answer
    case Some(result) => result
    case None => ActionResult(a.id, StatusFailed)
  }

  predicate Runs(a: Action, allow: set<Choice>, executors: set<ActionType>) {
    a.executable && IsAllowed(a, allow) && a.kind in executors
  }

  /** Each action that runs has as its result what its own executor call answered. */
  predicate Answered(actions: seq<Action>, allow: set<Choice>, executors: set<ActionType>,
                     answers: seq<Option<ActionResult>>, results: seq<ActionResult>)
  {
    && |results| == |actions| && |answers| == |Runnable(actions, allow, executors)|
    && forall i | 0 <= i < |actions| && Runs(actions[i], allow, executors) ::
         var n := |Runnable(actions[..i], allow, executors)|;
         n < |answers| && results[i] == Settled(actions[i], answers[n])
  }

  lemma AnsweredNext(actions: seq<Action>, k: nat, allow: set<Choice>, executors: set<ActionType>,
                     answers: seq<Option<ActionResult>>, results: seq<ActionResult>, more: seq<Option<ActionResult>>,
                     result: ActionResult)
    requires k < |actions| && Answered(actions[..k], allow, executors, answers, results)
    requires if Runs(actions[k], allow, executors) then |more| == 1 && result == Settled(actions[k], more[0])
             else more == []
    ensures Answered(actions[..k + 1], allow, executors, answers + more, results + [result])
  {
    var next := actions[..k + 1];
    assert next[..k] == actions[..k];
    forall i | 0 <= i < k ensures next[..i] == actions[..k][..i] && next[i] == actions[..k][i] {
    }
    hide Settled, IsAllowed;
  }

  predicate AllFit(actions: seq<Action>, allow: set<Choice>, executors: set<ActionType>, results: seq<ActionResult>) {
    |results| == |actions| && forall i | 0 <= i < |actions| :: Fits(actions[i], allow, executors, results[i])
  }

  /** Which actions reach an executor: each for itself, and in the order they stand in. */
  lemma {:induction false} RunnableParts(before: seq<Action>, after: seq<Action>, allow: set<Choice>,
                                         executors: set<ActionType>)
    ensures Runnable(before + after, allow, executors)
            == Runnable(before, allow, executors) + Runnable(after, allow, executors)
  {
    hide Runs;
    if after == [] {
      assert before + after == before;
    } else {
      var n := |after| - 1;
      RunnableParts(before, after[..n], allow, executors);
      assert (before + after)[..|before| + n] == before + after[..n];
    }
  }

  /** A non-empty allow list keeps every other choice from the executors; an empty one keeps none. */
  lemma {:induction false} RunnableIff(actions: seq<Action>, allow: set<Choice>, executors: set<ActionType>, a: Action)
    ensures a in Runnable(actions, allow, executors) <==>
            a in actions && a.executable && a.kind in executors && (allow != {} ==> a.recommended in allow)
  {
    if actions != [] {
      var n := |actions| - 1;
      RunnableIff(actions[..n], allow, executors, a);
      assert actions == actions[..n] + [actions[n]];
    }
  }

  /** The action is one of a plan that was made of this request. */
  ghost predicate PlannedFrom(request: Request, executors: set<ActionType>, digest: Identity -> string, a: Action) {
    && NormalizeScope(request.scope).Some?
    && a in PlanActions(request, NormalizeScope(request.scope).value, executors, digest)
  }

  ghost predicate PlannedFromSome(requests: seq<Request>, executors: set<ActionType>, digest: Identity -> string,
                                  a: Action)
  {
    exists r | r in requests :: PlannedFrom(r, executors, digest, a)
  }

  /** Some target of some planned request may be changed in this way, within the cap. */
  ghost predicate Entitled(requests: seq<Request>, executors: set<ActionType>, a: Action) {
    exists r, i: nat | r in requests && i < |r.targets| :: EntitledBy(r, i, executors, a)
  }

  ghost predicate EntitledBy(r: Request, i: nat, executors: set<ActionType>, a: Action)
    requires i < |r.targets|
  {
    && NormalizeScope(r.scope).Some? && a.resource == r.targets[i].identity
    && MayChange(r.targets[i], a.recommended, NormalizeScope(r.scope).value, r.mode, r.now, executors)
    && !OverCap(r.scope, |r.targets|) && a.stateMutation != a.cloudMutation
  }

  lemma NormalizedCap(scope: Scope, count: nat)
    requires NormalizeScope(scope).Some?
    ensures OverCap(NormalizeScope(scope).value, count) == OverCap(scope, count)
  {
  }

  /** What reaches an executor is a change the guardrails of a planned request permit. */
  lemma ExecutedIsEntitled(requests: seq<Request>, executors: set<ActionType>, digest: Identity -> string, a: Action)
    requires PlannedFromSome(requests, executors, digest, a) && a.executable
    ensures Entitled(requests, executors, a)
  {
    hide PlanActions, MayChange, NormalizeScope;
    var r :| r in requests && PlannedFrom(r, executors, digest, a);
    var scope := NormalizeScope(r.scope).value;
    var actions := PlanActions(r, scope, executors, digest);
    var k :| 0 <= k < |actions| && actions[k] == a;
    PlanShape(r, scope, executors, digest);
    var i := ExecutableIff(r, scope, executors, digest, k);
    NormalizedCap(r.scope, |r.targets|);
    assert EntitledBy(r, i, executors, a);
  }

  class LockTable {
    var held: set<string>
  }

  class OrphanReconciler {
    const executors: set<ActionType>
    const locks: LockTable
    const digest: Identity -> string
    const tokenOf: (Unsigned, string) -> string
    const lockKeyOf: LockFields -> string
    var rawActionsByToken: map<string, seq<Action>>
    ghost var requests: seq<Request>
    ghost var executed: seq<Action>
    ghost var answers: seq<Option<ActionResult>>

    /** Stored actions come from planned requests, and only such actions ever reached an executor. */
    ghost predicate Valid()
      reads this
    {
      && (forall t | t in rawActionsByToken ::
          forall a | a in rawActionsByToken[t] :: PlannedFromSome(requests, executors, digest, a))
      && (forall a | a in executed :: a.executable && PlannedFromSome(requests, executors, digest, a))
    }

    constructor (executors: set<ActionType>, locks: LockTable, digest: Identity -> string,
                 tokenOf: (Unsigned, string) -> string, lockKeyOf: LockFields -> string)
      ensures Valid() && this.locks == locks && this.executors == executors && requests == []
              && executed == [] && answers == []
    {
      this.executors, this.locks, this.digest, this.tokenOf, this.lockKeyOf := executors, locks, digest, tokenOf,
        lockKeyOf;
      rawActionsByToken, requests, executed, answers := map[], [], [], [];
    }

    /** `plan`: refuses a broad prefix, and otherwise stores the actions under the token it returns. */
    method MakePlan(request: Request, redactScope: Scope -> Scope, redactAction: Action -> Action)
      returns (plan: Option<Plan>)
      requires Valid()
      modifies this
      ensures Valid() && executed == old(executed)
      ensures plan.None? <==> NormalizeScope(request.scope).None?
      ensures plan.None? ==> rawActionsByToken == old(rawActionsByToken) && requests == old(requests)
      ensures plan.Some? ==>
                var actions := PlanActions(request, NormalizeScope(request.scope).value, executors, digest);
                && requests == old(requests) + [request]
                && rawActionsByToken == old(rawActionsByToken)[plan.value.confirmToken := actions]
                && plan.value.schemaKnown && plan.value.body.mode == request.mode
                && plan.value.body.actionCount == plan.value.body.resourceCount == |request.targets|
                && CounterSum(plan.value.body.summary) == |request.targets|
                && plan.value.body.summary == Summarize(actions) && plan.value.body.createdAt == request.now
                && plan.value.body.scope == redactScope(NormalizeScope(request.scope).value)
                && |plan.value.body.actions| == |actions|
                && (forall i | 0 <= i < |actions| :: plan.value.body.actions[i] == redactAction(actions[i]))
                && plan.value.confirmToken
                   == tokenOf(plan.value.body.(scope := NormalizeScope(request.scope).value, actions := actions),
                              request.nonce)
                && (plan.value.body.executable <==>
                      !IsReadOnly(request.mode) && actions != [] && forall a | a in actions :: a.executable)
    {
      hide PlanActions, NormalizeScope, Summarize;
      var normalized := NormalizeScope(request.scope);
      if normalized.None? {
        return None;
      }
      var actions := PlanActions(request, normalized.value, executors, digest);
      PlanShape(request, normalized.value, executors, digest);
      SummaryCounts(actions);
      var executable := !IsReadOnly(request.mode) && actions != [] && forall a | a in actions :: a.executable;
      var unsigned := Unsigned(request.now, request.mode, normalized.value, |request.targets|, |actions|, executable,
                               Summarize(actions), actions);
      var token := tokenOf(unsigned, request.nonce);
      MoreRequests(request);
      StoredIsPlanned(requests + [request], request, actions);
      requests := requests + [request];
      rawActionsByToken := rawActionsByToken[token := actions];
      var redacted := seq(|actions|, i requires 0 <= i < |actions| => redactAction(actions[i]));
      plan := Some(Plan(true, unsigned.(scope := redactScope(normalized.value), actions := redacted), token));
    }

    lemma MoreRequests(request: Request)
      ensures forall a | PlannedFromSome(requests, executors, digest, a) ::
              PlannedFromSome(requests + [request], executors, digest, a)
    {
      hide PlannedFrom;
      forall a | PlannedFromSome(requests, executors, digest, a)
        ensures PlannedFromSome(requests + [request], executors, digest, a)
      {
        var r :| r in requests && PlannedFrom(r, executors, digest, a);
        assert r in requests + [request];
      }
    }

    lemma StoredIsPlanned(more: seq<Request>, request: Request, actions: seq<Action>)
      requires request in more && NormalizeScope(request.scope).Some?
      requires actions == PlanActions(request, NormalizeScope(request.scope).value, executors, digest)
      ensures forall a | a in actions :: PlannedFromSome(more, executors, digest, a)
    {
      hide PlanActions, NormalizeScope;
      forall a | a in actions ensures PlannedFromSome(more, executors, digest, a) {
        assert PlannedFrom(request, executors, digest, a);
      }
    }

    /** One executor call, made only while the plan's lock is held: any result, or a thrown error. */
    method CallExecutor(a: Action, ghost key: string) returns (result: Option<ActionResult>)
      requires key in locks.held
      modifies this`executed, this`answers
      ensures executed == old(executed) + [a] && answers == old(answers) + [result]
    {
      result := *;
      executed, answers := executed + [a], answers + [result];
    }

    method RunAction(a: Action, allow: set<Choice>, ghost key: string) returns (result: ActionResult)
      requires key in locks.held && Valid() && PlannedFromSome(requests, executors, digest, a)
      modifies this`executed, this`answers
      ensures Valid() && Fits(a, allow, executors, result)
      ensures executed == old(executed) + if Runs(a, allow, executors) then [a] else []
      ensures if Runs(a, allow, executors) then exists x :: answers == old(answers) + [x] && result == Settled(a, x)
              else answers == old(answers)
    {
      hide PlannedFromSome;
      if !a.executable {
        return ActionResult(a.id, StatusBlocked);
      }
      if !IsAllowed(a, allow) {
        return ActionResult(a.id, Skipped);
      }
      if a.kind !in executors {
        return ActionResult(a.id, StatusBlocked);
      }
      var answer := CallExecutor(a, key);
      result := if answer.Some? then answer.value else ActionResult(a.id, StatusFailed);
      assert answers == old(answers) + [answer] && result == Settled(a, answer);
    }

    lemma NothingAnswered(allow: set<Choice>)
      ensures Answered([], allow, executors, [], [])
    {
    }

    /** The loop of `execute`, while the lock is held. */
    method RunActions(actions: seq<Action>, allow: set<Choice>, ghost key: string) returns (results: seq<ActionResult>)
      requires key in locks.held && Valid()
               && forall a | a in actions :: PlannedFromSome(requests, executors, digest, a)
      modifies this`executed, this`answers
      ensures Valid() && AllFit(actions, allow, executors, results)
      ensures executed == old(executed) + Runnable(actions, allow, executors)
      ensures old(answers) <= answers && Answered(actions, allow, executors, answers[|old(answers)|..], results)
    {
      hide PlannedFromSome, Fits, Runs, Answered, Settled;
      results := [];
      NothingAnswered(allow);
      assert actions[..0] == [] && answers[|answers|..] == [];
      for i := 0 to |actions|
        invariant Valid() && AllFit(actions[..i], allow, executors, results)
        invariant executed == old(executed) + Runnable(actions[..i], allow, executors)
        invariant old(answers) <= answers
        invariant Answered(actions[..i], allow, executors, answers[|old(answers)|..], results)
      {
        assert actions[..i + 1] == actions[..i] + [actions[i]] && actions[..i + 1][..i] == actions[..i];
        ghost var was := answers;
        var result := RunAction(actions[i], allow, key);
        AnsweredNext(actions, i, allow, executors, was[|old(answers)|..], results, answers[|was|..], result);
        assert answers[|old(answers)|..] == was[|old(answers)|..] + answers[|was|..];
        results := results + [result];
      }
      assert actions[..|actions|] == actions;
    }

    /**
     * `execute` of a plan the caller may have edited. It is refused on four grounds and no other; it
     * runs only stored actions, each once and in order; and the lock is free again afterwards.
     */
    method Execute(plan: Plan, confirmToken: string, allow: set<Choice>) returns (outcome: Outcome)
      requires Valid()
      modifies this`executed, this`answers, locks
      ensures Valid() && locks.held == old(locks.held)
      ensures outcome.Refused? <==> !Accepted(plan, confirmToken, rawActionsByToken.Keys)
      ensures outcome == Refused(UnsupportedSchema) <==> !plan.schemaKnown
      ensures outcome == Refused(ReadOnlyMode) <==> plan.schemaKnown && plan.body.mode in {CheckOnly, PlanOnly}
      ensures outcome == Refused(UnknownToken) ==>
              confirmToken == plan.confirmToken && confirmToken !in rawActionsByToken
      ensures outcome == Refused(TokenMismatch) ==> confirmToken != plan.confirmToken
      ensures outcome.Locked? <==> !outcome.Refused? && lockKeyOf(LockFieldsOf(plan)) in old(locks.held)
      ensures !outcome.Ran? ==> executed == old(executed) && answers == old(answers)
      ensures outcome.Ran? ==>
                var actions := rawActionsByToken[plan.confirmToken];
                && AllFit(actions, allow, executors, outcome.results)
                && old(answers) <= answers
                && Answered(actions, allow, executors, answers[|old(answers)|..], outcome.results)
                && executed == old(executed) + Runnable(actions, allow, executors)
    {
      hide PlannedFromSome, LockFieldsOf, AllFit, Runnable, Answered;
      if !plan.schemaKnown {
        return Refused(UnsupportedSchema);
      }
      if IsReadOnly(plan.body.mode) {
        return Refused(ReadOnlyMode);
      }
      if confirmToken != plan.confirmToken {
        return Refused(TokenMismatch);
      }
      if plan.confirmToken !in rawActionsByToken {
        return Refused(UnknownToken);
      }
      var key := lockKeyOf(LockFieldsOf(plan));
      if key in locks.held {
        return Locked;
      }
      locks.held := locks.held + {key};
      var actions := rawActionsByToken[plan.confirmToken];
      var results := RunActions(actions, allow, key);
      locks.held := locks.held - {key};
      outcome := Ran(results);
    }

    /** Whatever the caller edited: everything that ever reached an executor was entitled to by a planned request. */
    lemma EverythingExecutedIsEntitled()
      requires Valid()
      ensures forall a | a in executed :: Entitled(requests, executors, a)
    {
      hide PlannedFromSome, Entitled;
      forall a | a in executed ensures Entitled(requests, executors, a) {
        ExecutedIsEntitled(requests, executors, digest, a);
      }
    }
  }
}
