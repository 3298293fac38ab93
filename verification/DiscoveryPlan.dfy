// What discovery keeps of the state and of the inventory, and what a plan made
// of its targets may delete from the state.
module DiscoveryPlan {
  import opened Wrappers
  import opened Text
  import opened Sorting
  import opened DriftTypes
  import opened Discovery
  import opened Reconciler
  import opened ReconcilerPlan

  // ----- nothing is lost

  /** Every inventory entry is either in scope or reported, and never both. */
  lemma {:induction false} InventorySplits(cloud: seq<CloudResource>, s: DiscoveryScope, refOf: Identity -> string)
    ensures multiset(cloud) == multiset(InScopeCloud(cloud, s)) + multiset(ExcludedCloud(cloud, s))
    ensures |Diagnose(ExcludedCloud(cloud, s), s, refOf)| + |InScopeCloud(cloud, s)| == |cloud|
    ensures forall c | c in InScopeCloud(cloud, s) :: OutOfScope(c.identity, s).None? && c in cloud
    ensures forall c | c in ExcludedCloud(cloud, s) :: OutOfScope(c.identity, s).Some?
  {
    hide OutOfScope;
    if cloud != [] {
      var front := cloud[..|cloud| - 1];
      assert cloud == front + [cloud[|cloud| - 1]];
      InventorySplits(front, s, refOf);
      DiagnoseLength(ExcludedCloud(cloud, s), s, refOf);
      DiagnoseLength(ExcludedCloud(front, s), s, refOf);
    }
  }

  lemma {:induction false} DiagnoseLength(excluded: seq<CloudResource>, s: DiscoveryScope, refOf: Identity -> string)
    ensures |Diagnose(excluded, s, refOf)| == |excluded|
  {
    hide OutOfScope;
    if excluded != [] {
      DiagnoseLength(excluded[..|excluded| - 1], s, refOf);
    }
  }

  lemma {:induction false} LastWithIdFinds(cloud: seq<CloudResource>, id: string)
    ensures LastWithId(cloud, id).Some? <==> exists c :: c in cloud && c.identity.physicalId == Some(id)
    ensures LastWithId(cloud, id).Some? ==>
            LastWithId(cloud, id).value in cloud && LastWithId(cloud, id).value.identity.physicalId == Some(id)
  {
    if cloud != [] {
      var front := cloud[..|cloud| - 1];
      assert cloud == front + [cloud[|cloud| - 1]];
      LastWithIdFinds(front, id);
    }
  }

  lemma {:induction false} StateTargetsMembers(resources: seq<StateResource>, s: DiscoveryScope,
                                               scoped: seq<CloudResource>)
    ensures forall t :: t in StateTargets(resources, s, scoped) <==>
              exists r :: r in resources && StateInScope(r, s) && t == StateTarget(r, CloudOf(r, scoped))
  {
    hide StateInScope, StateTarget, CloudOf;
    if resources != [] {
      var front, last := resources[..|resources| - 1], resources[|resources| - 1];
      assert resources == front + [last];
      StateTargetsMembers(front, s, scoped);
    }
  }

  lemma {:induction false} CloudTargetsMembers(scoped: seq<CloudResource>, s: DiscoveryScope, matched: set<string>)
    ensures forall t :: t in CloudTargets(scoped, s, matched) <==>
              exists c :: c in scoped && !IsMatched(c, matched) && t == CloudTarget(c, s)
  {
    hide IsMatched, CloudTarget;
    if scoped != [] {
      var front, last := scoped[..|scoped| - 1], scoped[|scoped| - 1];
      assert scoped == front + [last];
      CloudTargetsMembers(front, s, matched);
    }
  }

  predicate SameResource(r: StateResource, c: CloudResource) {
    StatePhysicalId(r).Some? && c.identity.physicalId == StatePhysicalId(r)
  }

  /** An in-scope cloud resource is left to the state exactly when an in-scope state resource has its physical ID. */
  lemma MatchedIff(resources: seq<StateResource>, s: DiscoveryScope, scoped: seq<CloudResource>, c: CloudResource)
    requires c in scoped
    ensures IsMatched(c, MatchedIds(resources, s, scoped)) <==>
            exists r :: r in resources && StateInScope(r, s) && SameResource(r, c)
  {
    hide StateInScope, StatePhysicalId;
    if c.identity.physicalId.Some? {
      LastWithIdFinds(scoped, c.identity.physicalId.value);
    }
    if r :| r in resources && StateInScope(r, s) && SameResource(r, c) {
      assert CloudOf(r, scoped).Some?;
    }
    if IsMatched(c, MatchedIds(resources, s, scoped)) {
      var r :| r in resources && StateInScope(r, s) && CloudOf(r, scoped).Some?
        && OrElse(StatePhysicalId(r), "") == c.identity.physicalId.value;
      assert SameResource(r, c);
    }
  }

  /**
   * The targets are exactly: one for each in-scope state resource, present when some in-scope cloud
   * resource has its physical ID; and one for each in-scope cloud resource that no such state resource claims.
   */
  lemma TargetsAreTheJoin(resources: seq<StateResource>, cloud: seq<CloudResource>, s: DiscoveryScope,
                          refOf: Identity -> string, t: Target)
    ensures var scoped := InScopeCloud(cloud, s);
            t in Discover(resources, cloud, s, refOf).targets <==>
              || (exists r :: r in resources && StateInScope(r, s) && t == StateTarget(r, CloudOf(r, scoped)))
              || (exists c ::
                  c in scoped && !(exists r :: r in resources && StateInScope(r, s) && SameResource(r, c))
                  && t == CloudTarget(c, s))
  {
    hide StateInScope, StateTarget, CloudOf, CloudTarget, SameResource, InScopeCloud, IsMatched, MatchedIds,
         StateTargets, CloudTargets;
    var scoped := InScopeCloud(cloud, s);
    var matched := MatchedIds(resources, s, scoped);
    StateTargetsMembers(resources, s, scoped);
    CloudTargetsMembers(scoped, s, matched);
    SortMembers(StateTargets(resources, s, scoped) + CloudTargets(scoped, s, matched), TargetLe);
    forall c | c in scoped
      ensures IsMatched(c, matched) <==> exists r :: r in resources && StateInScope(r, s) && SameResource(r, c)
    {
      MatchedIff(resources, s, scoped, c);
    }
  }

  function InScopeState(resources: seq<StateResource>, s: DiscoveryScope): seq<StateResource> {
    if resources == [] then []
    else
      var n := |resources| - 1;
      InScopeState(resources[..n], s) + if StateInScope(resources[n], s) then [resources[n]] else []
  }

  function Unclaimed(scoped: seq<CloudResource>, matched: set<string>): seq<CloudResource> {
    if scoped == [] then []
    else
      var n := |scoped| - 1;
      Unclaimed(scoped[..n], matched) + if IsMatched(scoped[n], matched) then [] else [scoped[n]]
  }

  lemma {:induction false} StateTargetCount(resources: seq<StateResource>, s: DiscoveryScope,
                                            scoped: seq<CloudResource>)
    ensures |StateTargets(resources, s, scoped)| == |InScopeState(resources, s)|
  {
    hide StateInScope, StateTarget, CloudOf;
    if resources != [] {
      StateTargetCount(resources[..|resources| - 1], s, scoped);
    }
  }

  lemma {:induction false} CloudTargetCount(scoped: seq<CloudResource>, s: DiscoveryScope, matched: set<string>)
    ensures |CloudTargets(scoped, s, matched)| == |Unclaimed(scoped, matched)|
  {
    hide IsMatched, CloudTarget;
    if scoped != [] {
      CloudTargetCount(scoped[..|scoped| - 1], s, matched);
    }
  }

  /** One target for each in-scope state resource and each unclaimed in-scope cloud resource, counting repetitions. */
  lemma TargetCount(resources: seq<StateResource>, cloud: seq<CloudResource>, s: DiscoveryScope,
                    refOf: Identity -> string)
    ensures var scoped := InScopeCloud(cloud, s);
            |Discover(resources, cloud, s, refOf).targets|
            == |InScopeState(resources, s)| + |Unclaimed(scoped, MatchedIds(resources, s, scoped))|
  {
    hide MatchedIds, InScopeCloud, StateTargets, CloudTargets, InScopeState, Unclaimed;
    var scoped := InScopeCloud(cloud, s);
    var matched := MatchedIds(resources, s, scoped);
    StateTargetCount(resources, s, scoped);
    CloudTargetCount(scoped, s, matched);
    SortMultiset(StateTargets(resources, s, scoped) + CloudTargets(scoped, s, matched), TargetLe);
  }

  // ----- deleting from the state what still exists

  /**
   * An inventory entry that discovery does not look at, although the state's own scope test lets its resource
   * through.
   */
  predicate Hidden(c: Identity, s: DiscoveryScope) {
    || Excludes(s.scope.accountIds, c.accountId) || Excludes(s.scope.regions, c.region)
    || Excludes(s.resourceTypes, Some(c.kind)) || (s.tags.Some? && !MatchesTags(c.tags, s.tags.value))
  }

  lemma HiddenIff(r: StateResource, c: CloudResource, s: DiscoveryScope)
    requires StateInScope(r, s) && SameResource(r, c)
    ensures OutOfScope(c.identity, s).Some? <==> Hidden(c.identity, s)
  {
    hide StatePhysicalId, MatchesTags;
  }

  /** A state resource is taken for missing exactly when every inventory entry with its physical ID is hidden. */
  lemma MissingIff(r: StateResource, cloud: seq<CloudResource>, s: DiscoveryScope, refOf: Identity -> string)
    requires StateInScope(r, s)
    ensures CloudOf(r, InScopeCloud(cloud, s)).None? <==>
            forall c | c in cloud && SameResource(r, c) :: Hidden(c.identity, s)
  {
    var scoped := InScopeCloud(cloud, s);
    InventorySplits(cloud, s, refOf);
    hide InScopeCloud, ExcludedCloud, Hidden, StateInScope, StatePhysicalId, OutOfScope;
    if StatePhysicalId(r).Some? {
      LastWithIdFinds(scoped, StatePhysicalId(r).value);
    }
    forall c | c in cloud && SameResource(r, c) ensures c in scoped <==> !Hidden(c.identity, s) {
      HiddenIff(r, c, s);
      InOneHalf(cloud, s, refOf, c);
    }
    if c :| c in cloud && SameResource(r, c) && !Hidden(c.identity, s) {
      assert c in scoped;
    }
  }

  lemma InOneHalf(cloud: seq<CloudResource>, s: DiscoveryScope, refOf: Identity -> string, c: CloudResource)
    requires c in cloud
    ensures c in InScopeCloud(cloud, s) <==> OutOfScope(c.identity, s).None?
  {
    hide OutOfScope;
    InventorySplits(cloud, s, refOf);
    assert c in multiset(cloud);
    assert c in InScopeCloud(cloud, s) || c in ExcludedCloud(cloud, s);
  }

  predicate EmptyOrAbsent(values: Option<seq<string>>) { values.None? || values.value == [] }

  /** What the planner itself asks before it deletes a missing resource from the state. */
  predicate PlannerDeletes(r: StateResource, scope: Scope, mode: Mode) {
    && ModeAllows(mode, StateDelete) && EmptyOrAbsent(scope.regions) && EmptyOrAbsent(scope.accountIds)
    && (scope.resourcePrefix.None? || StartsWith(OrElse(StatePhysicalId(r), ""), scope.resourcePrefix.value)
        || scope.resourcePrefix.value == "")
    && (IsSecuritySingletonType(r.kind) ==> scope.allowSingletonDelete)
  }

  lemma StateTargetMayBeDeleted(r: StateResource, seen: Option<CloudResource>, scope: Scope, mode: Mode, now: int,
                                executors: set<ActionType>)
    ensures MayChange(StateTarget(r, seen), StateDelete, scope, mode, now, executors) <==>
            seen.None? && PlannerDeletes(r, scope, mode)
  {
    hide StatePhysicalId, Mentions, DeleteFamily;
  }

  /**
   * Exactly when a plan made of the discovered targets may delete an in-scope resource from the state: the
   * planner's own guards hold and every inventory entry with the resource's physical ID was hidden.
   */
  lemma StateDeleteIff(r: StateResource, cloud: seq<CloudResource>, s: DiscoveryScope, refOf: Identity -> string,
                       scope: Scope, mode: Mode, now: int, executors: set<ActionType>)
    requires StateInScope(r, s)
    ensures MayChange(StateTarget(r, CloudOf(r, InScopeCloud(cloud, s))), StateDelete, scope, mode, now, executors) <==>
            PlannerDeletes(r, scope, mode) && forall c | c in cloud && SameResource(r, c) :: Hidden(c.identity, s)
  {
    MissingIff(r, cloud, s, refOf);
    StateTargetMayBeDeleted(r, CloudOf(r, InScopeCloud(cloud, s)), scope, mode, now, executors);
    hide MayChange, StateTarget, InScopeCloud, CloudOf, Hidden, StateInScope, PlannerDeletes, SameResource;
  }

  /** What makes the discovered scope safe: no tag selector, and no list that is present but empty. */
  predicate PlainScope(s: DiscoveryScope) {
    s.tags.None? && s.scope.regions != Some([]) && s.scope.accountIds != Some([])
  }

  ghost predicate SameIdSameKind(resources: seq<StateResource>, cloud: seq<CloudResource>) {
    forall r, c | r in resources && c in cloud && SameResource(r, c) :: c.identity.kind == r.kind
  }

  lemma NothingHidden(r: StateResource, c: CloudResource, s: DiscoveryScope, scope: Scope, mode: Mode)
    requires StateInScope(r, s) && SameResource(r, c) && c.identity.kind == r.kind && PlainScope(s)
    requires scope.regions == s.scope.regions && scope.accountIds == s.scope.accountIds
             && PlannerDeletes(r, scope, mode)
    ensures !Hidden(c.identity, s)
  {
    hide StatePhysicalId;
  }

  lemma NormalizedLists(scope: Scope)
    requires NormalizeScope(scope).Some?
    ensures NormalizeScope(scope).value.regions == scope.regions
            && NormalizeScope(scope).value.accountIds == scope.accountIds
  {
    hide IsBroadPrefix, Trim;
  }

  /** A target that may be deleted from the state is the one of an in-scope state resource. */
  lemma DeletedTargetIsOfState(resources: seq<StateResource>, cloud: seq<CloudResource>, s: DiscoveryScope,
                               refOf: Identity -> string, t: Target, scope: Scope, mode: Mode, now: int,
                               executors: set<ActionType>)
    returns (r: StateResource)
    requires t in Discover(resources, cloud, s, refOf).targets && MayChange(t, StateDelete, scope, mode, now, executors)
    ensures r in resources && StateInScope(r, s) && t == StateTarget(r, CloudOf(r, InScopeCloud(cloud, s)))
    ensures t.identity.physicalId == StatePhysicalId(r)
  {
    TargetsAreTheJoin(resources, cloud, s, refOf, t);
    hide Discover, InScopeCloud, StateInScope, CloudOf, SameResource, StatePhysicalId, WithinScope, OwnedEnough,
         ModeAllows;
    assert t.inState;
    var scoped := InScopeCloud(cloud, s);
    assert !(exists c :: c in scoped && t == CloudTarget(c, s));
    r :| r in resources && StateInScope(r, s) && t == StateTarget(r, CloudOf(r, scoped));
  }

  /**
   * Discovery followed by planning never makes a deletion from the state executable for a resource whose
   * physical ID occurs anywhere in the inventory, in or out of scope.
   */
  lemma NoStateDeleteOfPresentResource(
    resources: seq<StateResource>, cloud: seq<CloudResource>, s: DiscoveryScope, refOf: Identity -> string,
    request: Request, executors: set<ActionType>, digest: Identity -> string, k: nat, c: CloudResource)
    requires request.targets == Discover(resources, cloud, s, refOf).targets && k < |request.targets|
    requires request.scope == s.scope && NormalizeScope(s.scope).Some?
    requires PlainScope(s) && SameIdSameKind(resources, cloud) && c in cloud
    ensures |PlanActions(request, NormalizeScope(s.scope).value, executors, digest)| == |request.targets|
    ensures var a := PlanActions(request, NormalizeScope(s.scope).value, executors, digest)[k];
            a.executable && a.recommended == StateDelete && c.identity.physicalId.Some? ==>
              a.resource.physicalId != c.identity.physicalId
  {
    hide PlanActions, NormalizeScope, Discover, MayChange, InScopeCloud, StateTarget, CloudOf, StateInScope,
         PlannerDeletes, Hidden, PlainScope;
    var scope := NormalizeScope(s.scope).value;
    var i := ExecutableIff(request, scope, executors, digest, k);
    var a := PlanActions(request, scope, executors, digest)[k];
    if a.executable && a.recommended == StateDelete && c.identity.physicalId.Some?
       && a.resource.physicalId == c.identity.physicalId {
      NormalizedLists(s.scope);
      assert MayChange(request.targets[i], StateDelete, scope, request.mode, request.now, executors);
      var r := DeletedTargetIsOfState(resources, cloud, s, refOf, request.targets[i], scope, request.mode, request.now,
                                      executors);
      StateDeleteIff(r, cloud, s, refOf, scope, request.mode, request.now, executors);
      assert SameResource(r, c);
      NothingHidden(r, c, s, scope, request.mode);
      assert false;
    }
  }

  // ----- why the scope must be plain

  const TOPIC := "aws:sns/topic:Topic"

  function ScopeWith(regions: Option<seq<string>>, accountIds: Option<seq<string>>, tags: Option<Tags>): DiscoveryScope
  {
    DiscoveryScope(Scope(None, None, Some("orders-"), regions, accountIds, None, None, false, None), None, None, None,
                   tags)
  }

  /**
   * A topic that is in the state and in the inventory under the same physical ID, with the type, account and
   * region one would expect, and yet may be deleted from the state: under a tag selector it does not carry,
   * under an empty tag selector when it has no tags, under an empty region list, and under an empty account list.
   */
  lemma PresentResourceMayBeDeleted(s: DiscoveryScope, refOf: Identity -> string, executors: set<ActionType>)
    requires s in {ScopeWith(None, None, Some([("team", "billing")])), ScopeWith(None, None, Some([])),
                   ScopeWith(Some([]), None, None), ScopeWith(None, Some([]), None)}
    ensures var r := StateResource("urn:topic", TOPIC, Some("orders-topic"), map[]);
            var c := CloudResource(Identity(TOPIC, None, Some("orders-topic"), Some("eu-west-1"), Some("111122223333"),
                                            None, None, None), []);
            && StateInScope(r, s) && SameResource(r, c)
            && MayChange(StateTarget(r, CloudOf(r, InScopeCloud([c], s))), StateDelete, s.scope, ReconcileAll, 0,
                         executors)
  {
    var r := StateResource("urn:topic", TOPIC, Some("orders-topic"), map[]);
    var c := CloudResource(Identity(TOPIC, None, Some("orders-topic"), Some("eu-west-1"), Some("111122223333"), None,
                                    None, None), []);
    TopicPrefix();
    assert StateInScope(r, s) && SameResource(r, c) && Hidden(c.identity, s);
    hide InScopeCloud, MayChange, StateTarget, CloudOf;
    StateDeleteIff(r, [c], s, refOf, s.scope, ReconcileAll, 0, executors);
  }

  lemma TopicPrefix()
    ensures StartsWith("orders-topic", "orders-") && !IsSecuritySingletonType(TOPIC)
  {
    assert "orders-topic" == "orders-" + "topic";
    assert |TOPIC| != |DETECTOR| && |TOPIC| != |SECURITY_HUB|;
  }

  // ----- which discovered resources count as singletons

  /** Discovery marks exactly the two security services, in exactly this spelling, and what is marked already. */
  lemma DiscoveredSingletonIff(c: CloudResource, s: DiscoveryScope)
    ensures IsSingleton(CloudTarget(c, s).identity) <==>
            c.identity.singleton == Some(true) || c.identity.kind == DETECTOR || c.identity.kind == SECURITY_HUB
  {
    hide OwnershipEvidence;
  }

  /**
   * The deletion of a discovered detector or hub that the flag permits needs the flag exactly when the type is
   * spelled as above or the resource is marked. The test for the deletion itself ignores letter case and position.
   */
  lemma DetectorNeedsFlagIff(c: CloudResource, s: DiscoveryScope, scope: Scope, mode: Mode, now: int,
                             executors: set<ActionType>)
    requires DeleteFamily(c.identity.kind) in {Some(DeleteGuardDutyDetector), Some(DeleteSecurityHubHub)}
    requires MayChange(CloudTarget(c, s), DeleteCloudResource, scope.(allowSingletonDelete := true), mode, now,
                       executors)
    ensures MayChange(CloudTarget(c, s), DeleteCloudResource, scope.(allowSingletonDelete := false), mode, now,
                      executors)
            <==> !(c.identity.singleton == Some(true) || c.identity.kind == DETECTOR || c.identity.kind == SECURITY_HUB)
  {
    DiscoveredSingletonIff(c, s);
    FlagNeededIff(CloudTarget(c, s), scope, mode, now, executors);
  }

  const SHOUTED := "AWS:guardduty/detector:Detector"

  const DETECTOR_TAIL := ":guardduty/detector:Detector"

  lemma ShoutedText()
    ensures SHOUTED == "AWS" + DETECTOR_TAIL && DETECTOR == "aws" + DETECTOR_TAIL
  {
  }

  lemma DetectorTail()
    ensures 'w' !in DETECTOR_TAIL && 'W' !in DETECTOR_TAIL && |DETECTOR_TAIL| > 1 && DETECTOR_TAIL[1] == 'g'
  {
  }

  lemma LowerThree(a: char, b: char, c: char)
    ensures Lower([a, b, c]) == [LowerChar(a), LowerChar(b), LowerChar(c)]
  {
  }

  lemma LowerAppend(a: string, b: string)
    ensures Lower(a + b) == Lower(a) + Lower(b)
  {
  }

  lemma LowerKeepsOut(s: string)
    requires 'w' !in s && 'W' !in s
    ensures 'w' !in Lower(s)
  {
    forall i | 0 <= i < |s| ensures Lower(s)[i] != 'w' {
      assert s[i] in s;
    }
  }

  lemma NoLaterW(s: string, rest: string, k: nat)
    requires s == "aws" + rest && 'w' !in rest && 1 < k < |s|
    ensures s[k] != 'w'
  {
    assert s[2] == "aws"[2];
    if k > 2 {
      assert s[k] == rest[k - 3];
    }
  }

  /** A text with its only `w` in second place mentions a pattern that starts alike only from its own start. */
  lemma MentionedAtStart(s: string, rest: string, pattern: string, i: nat)
    requires s == "aws" + rest && 'w' !in rest && |rest| > 1 && |pattern| > 4 && pattern[1] == 'w'
             && OccursAt(s, pattern, i)
    ensures i == 0 && rest[1] == pattern[4]
  {
    if i > 0 {
      NoLaterW(s, rest, i + 1);
    }
    assert s[i..i + |pattern|][1] == s[i + 1] && s[i..i + |pattern|][4] == s[i + 4];
    assert s[4] == rest[1];
  }

  lemma NotMentioned(kind: string, tail: string, pattern: string)
    requires kind == "AWS" + tail && Lower("AWS") == "aws" && 'w' !in tail && 'W' !in tail && |tail| > 1
             && tail[1] == 'g'
    requires |pattern| > 4 && pattern[1] == 'w' && pattern[4] != 'g' && pattern[4] != 'G'
    ensures !Mentions(kind, pattern)
  {
    LowerAppend("AWS", tail);
    LowerKeepsOut(tail);
    var s, rest, lowered := Lower(kind), Lower(tail), Lower(pattern);
    assert lowered[1] == 'w' && lowered[4] != 'g' && rest[1] == 'g';
    hide Lower;
    forall i: nat | i <= |s| ensures !OccursAt(s, lowered, i) {
      if OccursAt(s, lowered, i) {
        MentionedAtStart(s, rest, lowered, i);
      }
    }
  }

  lemma AlikeIsMentioned(kind: string, pattern: string)
    requires Lower(kind) == Lower(pattern)
    ensures Mentions(kind, pattern)
  {
    var s := Lower(kind);
    assert s[0..0 + |s|] == s;
    assert OccursAt(s, s, 0);
  }

  lemma FamilyPatterns()
    ensures "aws:accessanalyzer/analyzer:Analyzer"[4] == 'a' && "aws:cloudtrail/trail:Trail"[4] == 'c'
    ensures "aws:cloudwatch/logGroup:LogGroup"[4] == 'c' && "aws:cfg/deliveryChannel:DeliveryChannel"[4] == 'c'
    ensures "aws:cfg/recorder:Recorder"[4] == 'c' && "aws:cloudwatch/eventRule:EventRule"[4] == 'c'
  {
  }

  lemma DetectorFamily(kind: string, tail: string)
    requires kind == "AWS" + tail && Lower("AWS") == "aws" && 'w' !in tail && 'W' !in tail && |tail| > 1
             && tail[1] == 'g'
    requires Mentions(kind, "aws:guardduty/detector:Detector")
    ensures DeleteFamily(kind) == Some(DeleteGuardDutyDetector)
  {
    FamilyPatterns();
    hide Mentions, Lower;
    NotMentioned(kind, tail, "aws:accessanalyzer/analyzer:Analyzer");
    NotMentioned(kind, tail, "aws:cloudtrail/trail:Trail");
    NotMentioned(kind, tail, "aws:cloudwatch/logGroup:LogGroup");
    NotMentioned(kind, tail, "aws:cfg/deliveryChannel:DeliveryChannel");
    NotMentioned(kind, tail, "aws:cfg/recorder:Recorder");
    NotMentioned(kind, tail, "aws:cloudwatch/eventRule:EventRule");
  }

  /** A spelling that is deleted as a detector and does not count as a singleton. */
  lemma ShoutedDetector()
    ensures DeleteFamily(SHOUTED) == Some(DeleteGuardDutyDetector) && !IsSecuritySingletonType(SHOUTED)
  {
    assert SHOUTED[0] != DETECTOR[0] && SHOUTED[0] != SECURITY_HUB[0];
    ShoutedText();
    DetectorTail();
    hide Mentions, Lower, DeleteFamily;
    LowerThree('A', 'W', 'S');
    LowerThree('a', 'w', 's');
    LowerAppend("AWS", DETECTOR_TAIL);
    LowerAppend("aws", DETECTOR_TAIL);
    AlikeIsMentioned(SHOUTED, DETECTOR);
    DetectorFamily(SHOUTED, DETECTOR_TAIL);
  }

  /** A detector of an account, in that spelling, with two signals of ownership. */
  const FOUND_DETECTOR := CloudResource(
    Identity(SHOUTED, None, Some("orders-detector"), Some("eu-west-1"), Some("111122223333"), None, None, None),
    [Evidence(NamePrefix, "orders-", High), Evidence(Tag, "orders", High)])

  lemma TwoSignals(target: Target, i: nat, j: nat)
    requires i < |target.ownership| && j < |target.ownership|
    requires target.ownership[i].signal != target.ownership[j].signal
    ensures |Signals(target)| >= 2
  {
    var two := {target.ownership[i].signal, target.ownership[j].signal};
    assert two <= Signals(target);
    SubsetSize(two, Signals(target));
  }

  lemma {:induction false} SubsetSize(small: set<Signal>, large: set<Signal>)
    requires small <= large
    ensures |small| <= |large|
  {
    assert large == small + (large - small);
  }

  /** The plan may delete it although deletions of singletons are not allowed. */
  lemma ShoutedDetectorMayBeDeleted()
    ensures !ScopeWith(None, None, None).scope.allowSingletonDelete
    ensures MayChange(CloudTarget(FOUND_DETECTOR, ScopeWith(None, None, None)), DeleteCloudResource,
                      ScopeWith(None, None, None).scope, ReconcileAll, 0, {DeleteGuardDutyDetector})
  {
    ShoutedDetector();
    var s := ScopeWith(None, None, None);
    var target := CloudTarget(FOUND_DETECTOR, s);
    DetectorPrefix();
    assert target.ownership[..2] == FOUND_DETECTOR.ownership;
    TwoSignals(target, 0, 1);
    hide DeleteFamily, Mentions, OwnershipEvidence, IsSecuritySingletonType, Signals, StartsWith;
  }

  lemma DetectorPrefix()
    ensures StartsWith("orders-detector", "orders-")
  {
    assert "orders-detector" == "orders-" + "detector";
  }
}
