// What holds of every plan: which actions are executable, in what order they
// stand, and what the summary counts.
module ReconcilerPlan {
  import opened Wrappers
  import opened Text
  import opened Sorting
  import opened DriftTypes
  import opened Reconciler

  // ----- which actions are executable

  /** The change a plan may make to a target that no guardrail stops. */
  predicate CallsFor(target: Target, choice: Choice) {
    match choice
    case RefreshState => target.inState && target.existsInCloud && Supports(target, "refreshState")
    case StateDelete => target.inState && !target.existsInCloud
    case ImportToState => IsCloudOnly(target) && Supports(target, "importToState")
    case DeleteCloudResource =>
      && IsCloudOnly(target) && !Supports(target, "importToState")
      && (Mentions(target.identity.kind, "aws:s3/bucket") || DeleteFamily(target.identity.kind).Some?)
    case _ => false
  }

  predicate WithinScope(target: Target, scope: Scope, now: int) {
    && MatchesPrefix(target.identity, scope.resourcePrefix)
    && MatchesOne(target.identity.region, scope.regions)
    && MatchesOne(target.identity.accountId, scope.accountIds)
    && MatchesAge(target.identity.createdAt, scope.minAgeMinutes, now)
  }

  /** Enough independent ownership signals, under an explicit prefix, where nothing but the cloud knows the resource. */
  predicate OwnedEnough(target: Target, scope: Scope) {
    IsCloudOnly(target) ==> scope.resourcePrefix.Some? && |Signals(target)| >= OrElse(scope.ownershipMinSignals, 2)
  }

  predicate ExecutorReady(target: Target, choice: Choice, executors: set<ActionType>) {
    && choice == DeleteCloudResource && !Mentions(target.identity.kind, "aws:s3/bucket")
    ==> DeleteFamily(target.identity.kind).Some? && DeleteFamily(target.identity.kind).value in executors
  }

  /** Everything the guardrails promise about a change that may be carried out. */
  predicate MayChange(target: Target, choice: Choice, scope: Scope, mode: Mode, now: int, executors: set<ActionType>) {
    && CallsFor(target, choice) && ModeAllows(mode, choice)
    && WithinScope(target, scope, now) && OwnedEnough(target, scope)
    && (IsSingleton(target.identity) ==> scope.allowSingletonDelete)
    && ExecutorReady(target, choice, executors)
  }

  lemma NoGuardrailIff(target: Target, scope: Scope, now: int)
    ensures Guardrails(target, scope, now) == [] <==>
            WithinScope(target, scope, now) && OwnedEnough(target, scope)
              && (IsSingleton(target.identity) ==> scope.allowSingletonDelete)
  {
  }

  lemma FamilyNeedsExecutor(kind: string)
    requires DeleteFamily(kind).Some?
    ensures RequiresExecutor(DeleteFamily(kind).value)
  {
    hide Mentions;
  }

  lemma JudgeCallsFor(target: Target)
    ensures var v := Judge(target, false);
            (v.stateMutation || v.cloudMutation) && v.recommended != NoOp <==> CallsFor(target, v.recommended)
  {
    hide Mentions, DeleteFamily, Supports;
  }

  lemma CallsForJudge(target: Target, choice: Choice)
    requires CallsFor(target, choice)
    ensures Judge(target, false).recommended == choice
  {
    hide Mentions, DeleteFamily, Supports;
  }

  lemma JudgeExecutor(target: Target, executors: set<ActionType>)
    ensures var v := Judge(target, false);
            CallsFor(target, v.recommended) ==>
              ((RequiresExecutor(v.kind) && v.kind !in executors) <==> !ExecutorReady(target, v.recommended, executors))
  {
    if DeleteFamily(target.identity.kind).Some? {
      FamilyNeedsExecutor(target.identity.kind);
    }
    hide Mentions, DeleteFamily, Supports;
  }

  /** Before the cap, an action is executable exactly for a change that may be made to its target. */
  lemma ClassifiedIff(target: Target, scope: Scope, mode: Mode, now: int, index: nat, executors: set<ActionType>,
                      digest: Identity -> string, choice: Choice)
    ensures var a := Classify(target, scope, mode, now, index, executors, digest);
            (a.executable && a.recommended == choice <==> MayChange(target, choice, scope, mode, now, executors))
  {
    NoGuardrailIff(target, scope, now);
    JudgeCallsFor(target);
    if CallsFor(target, choice) {
      CallsForJudge(target, choice);
    }
    JudgeExecutor(target, executors);
    hide Guardrails, Judge, CallsFor, WithinScope, OwnedEnough, ExecutorReady, RequiresExecutor, ModeAllows, ActionId,
         UniqueChoices;
  }

  /** A change goes to the state or to the cloud, never to both. */
  lemma ClassifiedMutatesOne(target: Target, scope: Scope, mode: Mode, now: int, index: nat, executors: set<ActionType>,
                             digest: Identity -> string)
    ensures var a := Classify(target, scope, mode, now, index, executors, digest);
            a.executable ==> a.stateMutation != a.cloudMutation
  {
    hide Mentions, DeleteFamily, Supports, Guardrails, ActionId, UniqueChoices, ModeAllows;
  }

  // ----- from actions back to targets

  /** The classified targets in plan order. */
  function Ordered(request: Request, scope: Scope, executors: set<ActionType>, digest: Identity -> string): seq<Action>
  {
    Sort(ClassifyAll(request.targets, scope, request.mode, request.now, executors, digest), ActionLe)
  }

  lemma PlanShape(request: Request, scope: Scope, executors: set<ActionType>, digest: Identity -> string)
    ensures var ordered := Ordered(request, scope, executors, digest);
            var actions := PlanActions(request, scope, executors, digest);
            && |actions| == |ordered| == |request.targets|
            && forall k | 0 <= k < |ordered| ::
                 actions[k] == if OverCap(scope, |ordered|) then Capped(WithDependency(ordered[k], ordered))
                   else WithDependency(ordered[k], ordered)
  {
    var all := ClassifyAll(request.targets, scope, request.mode, request.now, executors, digest);
    assert |all| == |request.targets|;
    SortMultiset(all, ActionLe);
    hide Sort, ClassifyAll, WithDependency, Capped;
  }

  lemma OrderedOrigin(request: Request, scope: Scope, executors: set<ActionType>, digest: Identity -> string, k: nat)
    returns (i: nat)
    requires k < |Ordered(request, scope, executors, digest)|
    ensures i < |request.targets|
    ensures Ordered(request, scope, executors, digest)[k]
            == Classify(request.targets[i], scope, request.mode, request.now, i, executors, digest)
  {
    hide Classify, Sort;
    var all := ClassifyAll(request.targets, scope, request.mode, request.now, executors, digest);
    SortMembers(all, ActionLe);
    var a := Sort(all, ActionLe)[k];
    assert a in all;
    i :| 0 <= i < |all| && all[i] == a;
  }

  /** The index in the id is read back from it. */
  lemma ActionIdInjective(i: nat, j: nat, d: string, e: string)
    requires ActionId(i, d) == ActionId(j, e)
    ensures i == j
  {
    PaddedDigits(i);
    PaddedDigits(j);
    hide PaddedIndex;
    var p, q := ACTION_PREFIX, PaddedIndex(i) + ['-'] + d;
    assert ActionId(i, d)[|p|..] == q && ActionId(j, e)[|p|..] == PaddedIndex(j) + ['-'] + e;
    SeparatorInjective(PaddedIndex(i), d, PaddedIndex(j), e, '-');
  }

  lemma {:induction false} LeadingZero(s: string)
    requires AllDigits(s)
    ensures AllDigits(['0'] + s) && DecimalValue(['0'] + s) == DecimalValue(s)
  {
    if s != "" {
      LeadingZero(s[..|s| - 1]);
      assert (['0'] + s)[..|s|] == ['0'] + s[..|s| - 1];
    } else {
      assert (['0'] + s)[..0] == "";
    }
  }

  lemma {:induction false} LeadingZeros(n: nat, s: string)
    requires AllDigits(s)
    ensures AllDigits(Zeros(n) + s) && DecimalValue(Zeros(n) + s) == DecimalValue(s)
  {
    if n == 0 {
      assert Zeros(n) + s == s;
    } else {
      LeadingZeros(n - 1, s);
      LeadingZero(Zeros(n - 1) + s);
      assert Zeros(n) + s == ['0'] + (Zeros(n - 1) + s);
    }
  }

  lemma PaddedDigits(i: nat)
    ensures AllDigits(PaddedIndex(i)) && DecimalValue(PaddedIndex(i)) == i && '-' !in PaddedIndex(i)
  {
    DecimalRoundTrip(i);
    LeadingZeros(if |Decimal(i)| < 4 then 4 - |Decimal(i)| else 0, Decimal(i));
    hide Decimal, DecimalValue, Zeros;
  }

  lemma SameId(a: Action, actions: seq<Action>)
    ensures WithDependency(a, actions).id == a.id && Capped(WithDependency(a, actions)).id == a.id
  {
  }

  /** The actions of a plan have pairwise different ids. */
  lemma DistinctIds(request: Request, scope: Scope, executors: set<ActionType>, digest: Identity -> string, j: nat,
                    k: nat)
    requires j < k < |request.targets|
    ensures var actions := PlanActions(request, scope, executors, digest);
            |actions| == |request.targets| && actions[j].id != actions[k].id
  {
    hide PlanActions, Ordered, WithDependency, Capped;
    PlanShape(request, scope, executors, digest);
    OrderedIds(request, scope, executors, digest, j, k);
    var ordered := Ordered(request, scope, executors, digest);
    SameId(ordered[j], ordered);
    SameId(ordered[k], ordered);
  }

  lemma ClassifiedId(target: Target, scope: Scope, mode: Mode, now: int, i: nat, executors: set<ActionType>,
                     digest: Identity -> string)
    ensures Classify(target, scope, mode, now, i, executors, digest).id == ActionId(i, digest(target.identity))
  {
    hide Guardrails, Judge, ActionId, UniqueChoices;
  }

  lemma ClassifiedDistinct(request: Request, scope: Scope, executors: set<ActionType>, digest: Identity -> string)
    ensures Distinct(ClassifyAll(request.targets, scope, request.mode, request.now, executors, digest))
  {
    hide Classify, ActionId;
    var all := ClassifyAll(request.targets, scope, request.mode, request.now, executors, digest);
    forall i, j | 0 <= i < j < |all| ensures all[i] != all[j] {
      ClassifiedId(request.targets[i], scope, request.mode, request.now, i, executors, digest);
      ClassifiedId(request.targets[j], scope, request.mode, request.now, j, executors, digest);
      if all[i] == all[j] {
        ActionIdInjective(i, j, digest(request.targets[i].identity), digest(request.targets[j].identity));
      }
    }
  }

  lemma OrderedIds(request: Request, scope: Scope, executors: set<ActionType>, digest: Identity -> string, j: nat,
                   k: nat)
    requires j < k < |Ordered(request, scope, executors, digest)|
    ensures Ordered(request, scope, executors, digest)[j].id != Ordered(request, scope, executors, digest)[k].id
  {
    hide Classify, ActionId, Sort;
    var all := ClassifyAll(request.targets, scope, request.mode, request.now, executors, digest);
    ClassifiedDistinct(request, scope, executors, digest);
    SortMultiset(all, ActionLe);
    DistinctByMultiset(all, Sort(all, ActionLe));
    var ordered := Ordered(request, scope, executors, digest);
    var x := OrderedOrigin(request, scope, executors, digest, j);
    var y := OrderedOrigin(request, scope, executors, digest, k);
    ClassifiedId(request.targets[x], scope, request.mode, request.now, x, executors, digest);
    ClassifiedId(request.targets[y], scope, request.mode, request.now, y, executors, digest);
    if ordered[j].id == ordered[k].id {
      ActionIdInjective(x, y, digest(request.targets[x].identity), digest(request.targets[y].identity));
    }
  }

  /**
   * Every action of a plan is about one of the targets; it is executable exactly for a change that
   * may be made to that target in a plan within the cap, and then changes either state or cloud.
   */
  lemma ExecutableIff(request: Request, scope: Scope, executors: set<ActionType>, digest: Identity -> string, k: nat)
    returns (i: nat)
    requires k < |request.targets|
    ensures i < |request.targets| && |PlanActions(request, scope, executors, digest)| == |request.targets|
    ensures var a, target := PlanActions(request, scope, executors, digest)[k], request.targets[i];
            && a.resource == target.identity && a.id == ActionId(i, digest(target.identity))
            && (forall choice :: a.executable && a.recommended == choice <==>
                  MayChange(target, choice, scope, request.mode, request.now, executors)
                    && !OverCap(scope, |request.targets|))
            && (a.executable ==> a.stateMutation != a.cloudMutation)
  {
    PlanShape(request, scope, executors, digest);
    i := OrderedOrigin(request, scope, executors, digest, k);
    var target := request.targets[i];
    var a := Classify(target, scope, request.mode, request.now, i, executors, digest);
    assert a.resource == target.identity;
    ClassifiedId(target, scope, request.mode, request.now, i, executors, digest);
    ClassifiedMutatesOne(target, scope, request.mode, request.now, i, executors, digest);
    hide Classify, PlanActions, Ordered, MayChange, ActionId, ChannelFor;
    forall choice ensures a.executable && a.recommended == choice <==>
                          MayChange(target, choice, scope, request.mode, request.now, executors) {
      ClassifiedIff(target, scope, request.mode, request.now, i, executors, digest, choice);
    }
  }

  /** Every target has its action in the plan, the one whose id starts with its index. */
  lemma TargetIsPlanned(request: Request, scope: Scope, executors: set<ActionType>, digest: Identity -> string, i: nat)
    returns (k: nat)
    requires i < |request.targets|
    ensures k < |PlanActions(request, scope, executors, digest)|
    ensures PlanActions(request, scope, executors, digest)[k].id == ActionId(i, digest(request.targets[i].identity))
  {
    var all := ClassifyAll(request.targets, scope, request.mode, request.now, executors, digest);
    hide Classify, Sort, ActionId, ChannelFor, PlanActions;
    PlanShape(request, scope, executors, digest);
    SortMembers(all, ActionLe);
    ClassifiedId(request.targets[i], scope, request.mode, request.now, i, executors, digest);
    assert all[i] in Sort(all, ActionLe);
    k :| 0 <= k < |Sort(all, ActionLe)| && Sort(all, ActionLe)[k] == all[i];
  }

  /** And every change that may be made within the cap is an executable action of the plan. */
  lemma MayChangeIsPlanned(request: Request, scope: Scope, executors: set<ActionType>, digest: Identity -> string,
                           i: nat, choice: Choice)
    returns (k: nat)
    requires i < |request.targets| && !OverCap(scope, |request.targets|)
    requires MayChange(request.targets[i], choice, scope, request.mode, request.now, executors)
    ensures k < |request.targets| == |PlanActions(request, scope, executors, digest)|
    ensures var a := PlanActions(request, scope, executors, digest)[k];
            a.resource == request.targets[i].identity && a.executable && a.recommended == choice
  {
    hide PlanActions, MayChange, ActionId;
    k := TargetIsPlanned(request, scope, executors, digest, i);
    PlanShape(request, scope, executors, digest);
    var j := ExecutableIff(request, scope, executors, digest, k);
    ActionIdInjective(i, j, digest(request.targets[i].identity), digest(request.targets[j].identity));
  }

  // ----- dependencies

  lemma {:induction false} KeyOrder(p: string, s: string, t: string)
    requires |s| > 0 && |t| > 0 && s[0] < t[0]
    ensures !LexLe(p + t, p + s)
  {
    if p == "" {
      assert p + t == t && p + s == s;
    } else {
      assert (p + t)[1..] == p[1..] + t && (p + s)[1..] == p[1..] + s;
      KeyOrder(p[1..], s, t);
    }
  }

  lemma TypeNames(rest: string)
    ensures "deleteConfigDeliveryChannel" + rest == "deleteConfig" + ("DeliveryChannel" + rest)
    ensures "deleteConfigRecorder" + rest == "deleteConfig" + ("Recorder" + rest)
  {
    assert "deleteConfigDeliveryChannel" == "deleteConfig" + "DeliveryChannel";
    assert "deleteConfigRecorder" == "deleteConfig" + "Recorder";
  }

  /** Delivery channels sort before recorders, whatever the rest of their keys. */
  lemma ChannelsFirst(channel: Action, recorder: Action)
    requires channel.kind == DeleteConfigDeliveryChannel && recorder.kind == DeleteConfigRecorder
    ensures !ActionLe(recorder, channel)
  {
    var s := [':'] + (channel.resource.kind + [':'] + OrElse(channel.resource.urn, "") + [':']
                      + OrElse(channel.resource.physicalId, ""));
    var t := [':'] + (recorder.resource.kind + [':'] + OrElse(recorder.resource.urn, "") + [':']
                      + OrElse(recorder.resource.physicalId, ""));
    TypeNames(s);
    TypeNames(t);
    hide LexLe;
    assert SortKey(channel) == "deleteConfigDeliveryChannel" + s && SortKey(recorder) == "deleteConfigRecorder" + t;
    KeyOrder("deleteConfig", "DeliveryChannel" + s, "Recorder" + t);
  }

  predicate IsChannelFor(a: Action, recorder: Identity) {
    a.kind == DeleteConfigDeliveryChannel && SamePlacement(recorder, a.resource)
  }

  lemma {:induction false} ChannelPlace(actions: seq<Action>, recorder: Identity) returns (c: int)
    ensures -1 <= c < |actions|
    ensures c >= 0 ==> IsChannelFor(actions[c], recorder) && ChannelFor(actions, recorder) == Some(actions[c].id)
    ensures c >= 0 ==> actions[c].kind == DeleteConfigDeliveryChannel
    ensures c < 0 ==>
            ChannelFor(actions, recorder).None? && forall j | 0 <= j < |actions| :: !IsChannelFor(actions[j], recorder)
  {
    if actions == [] {
      c := -1;
    } else if IsChannelFor(actions[0], recorder) {
      c := 0;
    } else {
      c := ChannelPlace(actions[1..], recorder);
      if c >= 0 {
        c := c + 1;
      } else {
        assert forall j | 0 < j < |actions| :: actions[j] == actions[1..][j - 1];
      }
    }
  }

  lemma OrderedIsSorted(request: Request, scope: Scope, executors: set<ActionType>, digest: Identity -> string)
    ensures Sorted(Ordered(request, scope, executors, digest), ActionLe)
  {
    LexOrder();
    hide LexLe, SortKey, Classify, Sort;
    assert Total(ActionLe) && Transitive(ActionLe) by {
      forall a, b ensures ActionLe(a, b) || ActionLe(b, a) {
        assert LexLe(SortKey(a), SortKey(b)) || LexLe(SortKey(b), SortKey(a));
      }
      forall a, b, c | ActionLe(a, b) && ActionLe(b, c) ensures ActionLe(a, c) {
        assert LexLe(SortKey(a), SortKey(b)) && LexLe(SortKey(b), SortKey(c));
      }
    }
    SortSorted(ClassifyAll(request.targets, scope, request.mode, request.now, executors, digest), ActionLe);
  }

  lemma ClassifiedHasNoDependency(request: Request, scope: Scope, executors: set<ActionType>,
                                  digest: Identity -> string, k: nat)
    requires k < |Ordered(request, scope, executors, digest)|
    ensures Ordered(request, scope, executors, digest)[k].dependsOn == []
  {
    var i := OrderedOrigin(request, scope, executors, digest, k);
    hide Guardrails, Judge, ActionId, UniqueChoices, Ordered;
  }

  /**
   * An action depends on another exactly when it deletes a configuration recorder and some action
   * deletes a delivery channel in the same place. The one it names is such an action, and comes first.
   */
  lemma DependencyComesFirst(request: Request, scope: Scope, executors: set<ActionType>, digest: Identity -> string,
                             k: nat)
    returns (c: int)
    requires k < |request.targets|
    ensures |PlanActions(request, scope, executors, digest)| == |request.targets|
    ensures var actions := PlanActions(request, scope, executors, digest);
            && -1 <= c < k
            && actions[k].dependsOn == (if c < 0 then [] else [actions[c].id])
            && (c >= 0 ==> actions[k].kind == DeleteConfigRecorder && IsChannelFor(actions[c], actions[k].resource))
            && (c < 0 && actions[k].kind == DeleteConfigRecorder ==>
                  forall j | 0 <= j < |actions| :: !IsChannelFor(actions[j], actions[k].resource))
  {
    hide PlanActions, Ordered, WithDependency, Capped, IsChannelFor;
    PlanShape(request, scope, executors, digest);
    var ordered := Ordered(request, scope, executors, digest);
    c := OrderedDependency(request, scope, executors, digest, k);
    var actions := PlanActions(request, scope, executors, digest);
    forall j | 0 <= j < |actions| ensures SameForDependencies(actions[j], ordered[j]) {
      KeptForDependencies(ordered[j], ordered);
    }
    DependencyKept(ordered[k], ordered);
    if c < 0 && actions[k].kind == DeleteConfigRecorder {
      forall j | 0 <= j < |actions| ensures !IsChannelFor(actions[j], actions[k].resource) {
        AlikeChannels(actions[j], ordered[j], actions[k].resource);
      }
    } else if c >= 0 {
      AlikeChannels(actions[c], ordered[c], actions[k].resource);
    }
  }

  predicate SameForDependencies(a: Action, b: Action) { a.id == b.id && a.kind == b.kind && a.resource == b.resource }

  lemma KeptForDependencies(a: Action, actions: seq<Action>)
    ensures SameForDependencies(WithDependency(a, actions), a)
            && SameForDependencies(Capped(WithDependency(a, actions)), a)
  {
  }

  lemma DependencyKept(a: Action, actions: seq<Action>)
    ensures Capped(WithDependency(a, actions)).dependsOn == WithDependency(a, actions).dependsOn
  {
  }

  lemma AlikeChannels(a: Action, b: Action, recorder: Identity)
    requires SameForDependencies(a, b)
    ensures IsChannelFor(a, recorder) == IsChannelFor(b, recorder)
  {
  }

  /** The same about the ordered actions, before they are linked. */
  lemma OrderedDependency(request: Request, scope: Scope, executors: set<ActionType>, digest: Identity -> string,
                          k: nat)
    returns (c: int)
    requires k < |Ordered(request, scope, executors, digest)|
    ensures var ordered := Ordered(request, scope, executors, digest);
            && -1 <= c < k
            && WithDependency(ordered[k], ordered).dependsOn == (if c < 0 then [] else [ordered[c].id])
            && (c >= 0 ==> ordered[k].kind == DeleteConfigRecorder && IsChannelFor(ordered[c], ordered[k].resource))
            && (c < 0 && ordered[k].kind == DeleteConfigRecorder ==>
                  forall j | 0 <= j < |ordered| :: !IsChannelFor(ordered[j], ordered[k].resource))
  {
    var ordered := Ordered(request, scope, executors, digest);
    ClassifiedHasNoDependency(request, scope, executors, digest, k);
    hide Ordered, IsChannelFor, ChannelFor;
    c := -1;
    if ordered[k].kind == DeleteConfigRecorder {
      c := ChannelPlace(ordered, ordered[k].resource);
      if c >= 0 {
        ChannelBefore(request, scope, executors, digest, c, k);
      }
    }
  }

  lemma ChannelBefore(request: Request, scope: Scope, executors: set<ActionType>, digest: Identity -> string, c: nat,
                      k: nat)
    requires c < |Ordered(request, scope, executors, digest)| && k < |Ordered(request, scope, executors, digest)|
    requires Ordered(request, scope, executors, digest)[c].kind == DeleteConfigDeliveryChannel
    requires Ordered(request, scope, executors, digest)[k].kind == DeleteConfigRecorder
    ensures c < k
  {
    var ordered := Ordered(request, scope, executors, digest);
    OrderedIsSorted(request, scope, executors, digest);
    hide Ordered, ActionLe;
    if k < c {
      assert ActionLe(ordered[k], ordered[c]);
      ChannelsFirst(ordered[c], ordered[k]);
    }
  }

  // ----- the summary

  function CounterSum(s: Summary): nat { s.cleanedUp + s.stateReconciled + s.adopted + s.retained + s.blocked }

  lemma {:induction false} SummaryCounts(actions: seq<Action>)
    ensures CounterSum(Summarize(actions)) == |actions|
  {
    if actions != [] {
      SummaryCounts(actions[..|actions| - 1]);
    }
  }

  function NumberWith(actions: seq<Action>, choices: set<Choice>): nat {
    if actions == [] then 0
    else NumberWith(actions[..|actions| - 1], choices) + if actions[|actions| - 1].recommended in choices then 1 else 0
  }

  /** Each counter is the number of actions recommended for it; what is neither done nor kept counts as blocked. */
  lemma {:induction false} SummaryByChoice(actions: seq<Action>)
    ensures Summarize(actions).cleanedUp == NumberWith(actions, {DeleteCloudResource})
    ensures Summarize(actions).stateReconciled == NumberWith(actions, {StateDelete, RefreshState})
    ensures Summarize(actions).adopted == NumberWith(actions, {ImportToState})
    ensures Summarize(actions).retained == NumberWith(actions, {RetainExternal, NoOp})
    ensures Summarize(actions).blocked
            == NumberWith(actions, {Blocked, CodifyProduction, RevertProduction, IgnoreWithJustification})
  {
    if actions != [] {
      SummaryByChoice(actions[..|actions| - 1]);
    }
  }

  /** The five counters of a plan add up to the number of targets. */
  lemma SummaryCountsTargets(request: Request, scope: Scope, executors: set<ActionType>, digest: Identity -> string)
    ensures CounterSum(Summarize(PlanActions(request, scope, executors, digest))) == |request.targets|
  {
    SummaryCounts(PlanActions(request, scope, executors, digest));
    PlanShape(request, scope, executors, digest);
  }

  // ----- singletons

  /**
   * A deletion that the singleton flag permits is permitted without it exactly when the resource counts as no
   * singleton.
   */
  lemma FlagNeededIff(target: Target, scope: Scope, mode: Mode, now: int, executors: set<ActionType>)
    requires MayChange(target, DeleteCloudResource, scope.(allowSingletonDelete := true), mode, now, executors)
    ensures MayChange(target, DeleteCloudResource, scope.(allowSingletonDelete := false), mode, now, executors)
            <==> !IsSingleton(target.identity)
  {
    hide CallsFor, ExecutorReady, MatchesPrefix, MatchesOne, MatchesAge, IsSingleton;
  }
}
