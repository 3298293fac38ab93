// packages/drift/src/discovery.ts and reconciler.ts together: what discovered
// targets come to in a plan, and in what reaches an executor.
module DiscoveryRun {
  import opened Wrappers
  import opened Text
  import opened DriftTypes
  import opened Discovery
  import opened DiscoveryPlan
  import opened Reconciler
  import opened ReconcilerPlan
  import opened ReconcilerRun

  // ----- nothing present is ever deleted from the state

  /** What a request was discovered from. */
  datatype World = World(resources: seq<StateResource>, cloud: seq<CloudResource>, scope: DiscoveryScope)

  /** The request is about what discovery found in this world, under a plain scope. */
  ghost predicate DiscoveredIn(request: Request, world: World, refOf: Identity -> string) {
    && request.targets == Discover(world.resources, world.cloud, world.scope, refOf).targets
    && request.scope == world.scope.scope && PlainScope(world.scope) && SameIdSameKind(world.resources, world.cloud)
  }

  predicate Present(world: World, physicalId: Option<string>) {
    physicalId.Some? && exists c | c in world.cloud :: c.identity.physicalId == physicalId
  }

  lemma PlannedDeletionIsOfMissing(request: Request, world: World, refOf: Identity -> string,
                                   executors: set<ActionType>, digest: Identity -> string, a: Action)
    requires DiscoveredIn(request, world, refOf) && PlannedFrom(request, executors, digest, a)
    requires a.executable && a.recommended == StateDelete
    ensures !Present(world, a.resource.physicalId)
  {
    hide PlanActions, NormalizeScope, Discover, PlainScope, SameIdSameKind;
    var scope := NormalizeScope(request.scope).value;
    var actions := PlanActions(request, scope, executors, digest);
    PlanShape(request, scope, executors, digest);
    var k :| 0 <= k < |actions| && actions[k] == a;
    forall c | c in world.cloud && c.identity.physicalId.Some?
      ensures a.resource.physicalId != c.identity.physicalId
    {
      NoStateDeleteOfPresentResource(world.resources, world.cloud, world.scope, refOf, request, executors, digest, k,
                                     c);
    }
  }

  /**
   * Over every sequence of plans and executions, whatever the callers edited in between: as long as each planned
   * request is about what discovery found under a plain scope, every deletion from the state that ever reached an
   * executor came from a request in whose world the resource was not in the inventory.
   */
  lemma NoPresentResourceWasDeleted(o: OrphanReconciler, worldOf: Request -> World, refOf: Identity -> string,
                                    a: Action)
    returns (request: Request)
    requires o.Valid() && forall r | r in o.requests :: DiscoveredIn(r, worldOf(r), refOf)
    requires a in o.executed && a.recommended == StateDelete
    ensures request in o.requests && PlannedFrom(request, o.executors, o.digest, a)
    ensures !Present(worldOf(request), a.resource.physicalId)
  {
    hide PlannedFrom, DiscoveredIn, Present;
    request :| request in o.requests && PlannedFrom(request, o.executors, o.digest, a);
    PlannedDeletionIsOfMissing(request, worldOf(request), refOf, o.executors, o.digest, a);
  }

  // ----- the plans behind the two concrete findings

  /** The scope of a request as the planner uses it. */
  function Normal(scope: Scope): Scope { scope.(ownershipMinSignals := Some(OrElse(scope.ownershipMinSignals, 2))) }

  lemma OrdersPrefix()
    ensures Trim("orders-") == "orders-" && !IsBroadPrefix("orders-")
  {
    assert Lower("orders-")[0] == 'o' && |Lower("orders-")| == 7;
  }

  lemma OrdersScope(scope: Scope)
    requires scope.resourcePrefix == Some("orders-")
    ensures NormalizeScope(scope) == Some(Normal(scope))
  {
    OrdersPrefix();
    hide Trim, IsBroadPrefix;
  }

  /** Signals do not matter for a deletion from the state. */
  lemma SignalsDoNotMatter(r: StateResource, seen: Option<CloudResource>, scope: Scope, mode: Mode, now: int,
                           executors: set<ActionType>)
    requires MayChange(StateTarget(r, seen), StateDelete, scope, mode, now, executors)
    ensures MayChange(StateTarget(r, seen), StateDelete, Normal(scope), mode, now, executors)
  {
    StateTargetMayBeDeleted(r, seen, scope, mode, now, executors);
    StateTargetMayBeDeleted(r, seen, Normal(scope), mode, now, executors);
    hide MayChange, StateTarget;
  }

  lemma {:induction false} NoMoreInState(resources: seq<StateResource>, s: DiscoveryScope)
    ensures |InScopeState(resources, s)| <= |resources|
  {
    if resources != [] {
      NoMoreInState(resources[..|resources| - 1], s);
    }
  }

  lemma {:induction false} NoMoreInScope(cloud: seq<CloudResource>, s: DiscoveryScope)
    ensures |InScopeCloud(cloud, s)| <= |cloud|
  {
    hide OutOfScope;
    if cloud != [] {
      NoMoreInScope(cloud[..|cloud| - 1], s);
    }
  }

  lemma {:induction false} NoMoreUnclaimed(scoped: seq<CloudResource>, matched: set<string>)
    ensures |Unclaimed(scoped, matched)| <= |scoped|
  {
    if scoped != [] {
      NoMoreUnclaimed(scoped[..|scoped| - 1], matched);
    }
  }

  /** There is at most one target for each resource of the state and of the inventory. */
  lemma NoMoreTargets(resources: seq<StateResource>, cloud: seq<CloudResource>, s: DiscoveryScope,
                      refOf: Identity -> string)
    ensures |Discover(resources, cloud, s, refOf).targets| <= |resources| + |cloud|
  {
    TargetCount(resources, cloud, s, refOf);
    NoMoreInState(resources, s);
    NoMoreInScope(cloud, s);
    hide Discover, InScopeCloud, InScopeState, MatchedIds;
    var scoped := InScopeCloud(cloud, s);
    NoMoreUnclaimed(scoped, MatchedIds(resources, s, scoped));
  }

  function TopicInState(): StateResource { StateResource("urn:topic", TOPIC, Some("orders-topic"), map[]) }

  function TopicInCloud(): CloudResource {
    CloudResource(Identity(TOPIC, None, Some("orders-topic"), Some("eu-west-1"), Some("111122223333"), None, None,
                           None),
                  [])
  }

  /** Under each of the four scopes the plan deletes the topic from the state although the inventory has it. */
  lemma PresentTopicIsDeleted(s: DiscoveryScope, refOf: Identity -> string, executors: set<ActionType>,
                              digest: Identity -> string)
    returns (request: Request, k: nat)
    requires s in {ScopeWith(None, None, Some([("team", "billing")])), ScopeWith(None, None, Some([])),
                   ScopeWith(Some([]), None, None), ScopeWith(None, Some([]), None)}
    ensures request.targets == Discover([TopicInState()], [TopicInCloud()], s, refOf).targets
    ensures request.scope == s.scope && NormalizeScope(s.scope).Some?
    ensures k < |PlanActions(request, NormalizeScope(s.scope).value, executors, digest)|
    ensures var a := PlanActions(request, NormalizeScope(s.scope).value, executors, digest)[k];
            a.executable && a.recommended == StateDelete && a.resource.physicalId == Some("orders-topic")
  {
    var r, c := TopicInState(), TopicInCloud();
    PresentResourceMayBeDeleted(s, refOf, executors);
    var seen := CloudOf(r, InScopeCloud([c], s));
    var t := StateTarget(r, seen);
    SignalsDoNotMatter(r, seen, s.scope, ReconcileAll, 0, executors);
    OrdersScope(s.scope);
    NoMoreTargets([r], [c], s, refOf);
    hide MayChange, StateTarget, CloudOf, InScopeCloud, Discover, PlanActions, NormalizeScope, StateInScope;
    TargetsAreTheJoin([r], [c], s, refOf, t);
    assert r in [r];
    request := Request(ReconcileAll, s.scope, Discover([r], [c], s, refOf).targets, 0, "");
    var i :| 0 <= i < |request.targets| && request.targets[i] == t;
    k := MayChangeIsPlanned(request, Normal(s.scope), executors, digest, i, StateDelete);
  }

  lemma SignalsSuffice(scope: Scope, mode: Mode, now: int, executors: set<ActionType>, target: Target)
    requires MayChange(target, DeleteCloudResource, scope, mode, now, executors)
    requires scope.ownershipMinSignals == None
    ensures MayChange(target, DeleteCloudResource, Normal(scope), mode, now, executors)
  {
    hide CallsFor, ExecutorReady, MatchesPrefix, MatchesOne, MatchesAge, IsSingleton, Signals;
  }

  lemma DetectorInScope()
    ensures OutOfScope(FOUND_DETECTOR.identity, ScopeWith(None, None, None)).None?
  {
    DetectorPrefix();
    assert |SHOUTED| > 0;
  }

  /** A change that may be made to the only resource of the inventory is planned. */
  lemma OnlyCloudTarget(c: CloudResource, s: DiscoveryScope, refOf: Identity -> string, scope: Scope, choice: Choice,
                        executors: set<ActionType>, digest: Identity -> string)
    returns (request: Request, k: nat)
    requires OutOfScope(c.identity, s).None? && NormalizeScope(s.scope) == Some(scope) && scope.maxActions.None?
    requires MayChange(CloudTarget(c, s), choice, scope, ReconcileAll, 0, executors)
    ensures request.targets == Discover([], [c], s, refOf).targets && request.scope == s.scope
    ensures k < |PlanActions(request, scope, executors, digest)|
    ensures var a := PlanActions(request, scope, executors, digest)[k];
            a.executable && a.recommended == choice && a.resource == CloudTarget(c, s).identity
  {
    NoMoreTargets([], [c], s, refOf);
    var t := CloudTarget(c, s);
    hide MayChange, CloudTarget, Discover, PlanActions, NormalizeScope, OutOfScope, InScopeCloud, StateTarget, CloudOf;
    InOneHalf([c], s, refOf, c);
    assert c in [c] && c in InScopeCloud([c], s);
    TargetsAreTheJoin([], [c], s, refOf, t);
    request := Request(ReconcileAll, s.scope, Discover([], [c], s, refOf).targets, 0, "");
    var i :| 0 <= i < |request.targets| && request.targets[i] == t;
    k := MayChangeIsPlanned(request, scope, executors, digest, i, choice);
  }

  lemma DetectorKeepsIdentity(s: DiscoveryScope)
    ensures CloudTarget(FOUND_DETECTOR, s).identity == FOUND_DETECTOR.identity
  {
    ShoutedDetector();
    hide OwnershipEvidence, DeleteFamily;
  }

  /** The plan deletes the detector although its scope does not allow deletions of singletons. */
  lemma ShoutedDetectorIsDeleted(refOf: Identity -> string, digest: Identity -> string)
    returns (request: Request, k: nat)
    ensures var s := ScopeWith(None, None, None);
            && request.targets == Discover([], [FOUND_DETECTOR], s, refOf).targets && request.scope == s.scope
            && !s.scope.allowSingletonDelete && NormalizeScope(s.scope).Some?
            && k < |PlanActions(request, NormalizeScope(s.scope).value, {DeleteGuardDutyDetector}, digest)|
            && var a := PlanActions(request, NormalizeScope(s.scope).value, {DeleteGuardDutyDetector}, digest)[k];
               a.executable && a.recommended == DeleteCloudResource && a.resource == FOUND_DETECTOR.identity
  {
    var s, executors := ScopeWith(None, None, None), {DeleteGuardDutyDetector};
    ShoutedDetectorMayBeDeleted();
    DetectorKeepsIdentity(s);
    OrdersScope(s.scope);
    DetectorInScope();
    hide MayChange, CloudTarget, Discover, PlanActions, NormalizeScope, OutOfScope, FOUND_DETECTOR, SHOUTED;
    SignalsSuffice(s.scope, ReconcileAll, 0, executors, CloudTarget(FOUND_DETECTOR, s));
    request, k := OnlyCloudTarget(FOUND_DETECTOR, s, refOf, Normal(s.scope), DeleteCloudResource, executors, digest);
  }
}
