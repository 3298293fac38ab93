// packages/drift/src/reconciler.ts: what a plan says about each target, field by
// field, and the order it says it in.
module ReconcilerActions {
  import opened Wrappers
  import opened Text
  import opened Sorting
  import opened DriftTypes
  import opened Reconciler
  import opened ReconcilerPlan
  import opened ReconcilerRules

  // ----- the prefix of a scope

  /** White space, code point by code point. */
  lemma SpaceIff(c: char)
    ensures IsSpace(c) <==>
            c as int in {0x9, 0xa, 0xb, 0xc, 0xd, 0x20, 0xa0, 0x1680, 0x2000, 0x2001, 0x2002, 0x2003, 0x2004, 0x2005,
                         0x2006, 0x2007, 0x2008, 0x2009, 0x200a, 0x2028, 0x2029, 0x202f, 0x205f, 0x3000, 0xfeff}
  {
  }

  ghost predicate AllSpace(s: string) { forall c | c in s :: IsSpace(c) }

  lemma {:induction false} TrimStartOf(blank: string, rest: string)
    requires AllSpace(blank)
    ensures TrimStart(blank + rest) == TrimStart(rest)
  {
    if blank == "" {
      assert blank + rest == rest;
    } else {
      assert (blank + rest)[1..] == blank[1..] + rest;
      TrimStartOf(blank[1..], rest);
    }
  }

  lemma {:induction false} TrimEndOf(rest: string, blank: string)
    requires AllSpace(blank)
    ensures TrimEnd(rest + blank) == TrimEnd(rest)
  {
    if blank == "" {
      assert rest + blank == rest;
    } else {
      var n := |blank| - 1;
      assert (rest + blank)[..|rest| + n] == rest + blank[..n];
      TrimEndOf(rest, blank[..n]);
    }
  }

  /** Trimming leaves what stands between white space. */
  lemma TrimIsInner(before: string, text: string, after: string)
    requires AllSpace(before) && AllSpace(after)
    requires text != "" ==> !IsSpace(text[0]) && !IsSpace(text[|text| - 1])
    ensures Trim(before + (text + after)) == text
  {
    hide IsSpace;
    TrimStartOf(before, text + after);
    if text == "" {
      assert text + after == after + "";
      TrimStartOf(after, "");
    } else {
      TrimEndOf(text, after);
    }
  }

  /** Too short, a wildcard, or one of two words that cover too much. */
  lemma BroadPrefixIff(prefix: string)
    ensures IsBroadPrefix(prefix) <==>
            |prefix| < 6 || '*' in prefix || '?' in prefix || Lower(prefix) == "hulumi" || Lower(prefix) == "production"
  {
    assert |Lower(prefix)| == |prefix|;
    assert forall s | s in BROAD_PREFIXES :: |s| < 6 || s == "hulumi" || s == "production";
  }

  /** A scope is refused for its trimmed prefix, and otherwise keeps everything else. */
  lemma NormalizedIff(scope: Scope, before: string, text: string, after: string)
    requires AllSpace(before) && AllSpace(after)
    requires text != "" ==> !IsSpace(text[0]) && !IsSpace(text[|text| - 1])
    ensures var signals := match scope.ownershipMinSignals case None => 2 case Some(m) => m;
            NormalizeScope(scope.(resourcePrefix := Some(before + (text + after)))) ==
            if |text| < 6 || '*' in text || '?' in text || Lower(text) == "hulumi" || Lower(text) == "production"
               then None
            else Some(scope.(resourcePrefix := Some(text), ownershipMinSignals := Some(signals)))
    ensures var signals := match scope.ownershipMinSignals case None => 2 case Some(m) => m;
            NormalizeScope(scope.(resourcePrefix := None))
            == Some(scope.(resourcePrefix := None, ownershipMinSignals := Some(signals)))
  {
    TrimIsInner(before, text, after);
    BroadPrefixIff(text);
    hide Trim, IsBroadPrefix, Lower, AllSpace, IsSpace;
  }

  // ----- delete families

  /** The types that only a registered executor deletes, and the part of a type's name that tells them. */
  const FAMILIES: seq<(string, ActionType)> := [
    ("aws:accessanalyzer/analyzer:Analyzer", DeleteAccessAnalyzer),
    ("aws:cloudtrail/trail:Trail", DeleteCloudTrailTrail),
    ("aws:cloudwatch/logGroup:LogGroup", DeleteCloudWatchLogGroup),
    ("aws:cfg/deliveryChannel:DeliveryChannel", DeleteConfigDeliveryChannel),
    ("aws:cfg/recorder:Recorder", DeleteConfigRecorder),
    ("aws:cloudwatch/eventRule:EventRule", DeleteEventBridgeRule),
    ("aws:guardduty/detector:Detector", DeleteGuardDutyDetector),
    ("aws:iam/role:Role", DeleteIamRole),
    ("aws:kms/key:Key", ScheduleKmsKeyDeletion),
    ("aws:securityhub/account:Account", DeleteSecurityHubHub),
    ("aws:sns/topic:Topic", DeleteSnsTopic)]

  /** The first name that the type's own name mentions. */
  ghost predicate IsFirstMentioned(kind: string, i: nat) {
    i < |FAMILIES| && Mentions(kind, FAMILIES[i].0) && forall j | 0 <= j < i :: !Mentions(kind, FAMILIES[j].0)
  }

  lemma Families()
    ensures |FAMILIES| == 11
    ensures FAMILIES[0] == ("aws:accessanalyzer/analyzer:Analyzer", DeleteAccessAnalyzer)
    ensures FAMILIES[1] == ("aws:cloudtrail/trail:Trail", DeleteCloudTrailTrail)
    ensures FAMILIES[2] == ("aws:cloudwatch/logGroup:LogGroup", DeleteCloudWatchLogGroup)
    ensures FAMILIES[3] == ("aws:cfg/deliveryChannel:DeliveryChannel", DeleteConfigDeliveryChannel)
    ensures FAMILIES[4] == ("aws:cfg/recorder:Recorder", DeleteConfigRecorder)
    ensures FAMILIES[5] == ("aws:cloudwatch/eventRule:EventRule", DeleteEventBridgeRule)
    ensures FAMILIES[6] == ("aws:guardduty/detector:Detector", DeleteGuardDutyDetector)
    ensures FAMILIES[7] == ("aws:iam/role:Role", DeleteIamRole)
    ensures FAMILIES[8] == ("aws:kms/key:Key", ScheduleKmsKeyDeletion)
    ensures FAMILIES[9] == ("aws:securityhub/account:Account", DeleteSecurityHubHub)
    ensures FAMILIES[10] == ("aws:sns/topic:Topic", DeleteSnsTopic)
  {
  }

  /** The family of a type is that of the first name mentioned. */
  lemma FamilyIff(kind: string, family: ActionType)
    ensures DeleteFamily(kind) == Some(family) <==>
            exists i: nat :: IsFirstMentioned(kind, i) && FAMILIES[i].1 == family
  {
    var i := FirstMentioned(kind);
    hide Mentions, DeleteFamily, FAMILIES;
    assert forall k: nat | IsFirstMentioned(kind, k) :: k == i;
  }

  lemma FirstMentioned(kind: string) returns (i: nat)
    ensures i <= |FAMILIES| && forall j | 0 <= j < i :: !Mentions(kind, FAMILIES[j].0)
    ensures if i < |FAMILIES| then Mentions(kind, FAMILIES[i].0) && DeleteFamily(kind) == Some(FAMILIES[i].1)
            else DeleteFamily(kind) == None
  {
    Families();
    hide Mentions, FAMILIES;
    i := 0;
    while i < |FAMILIES| && !Mentions(kind, FAMILIES[i].0)
      invariant i <= |FAMILIES| && forall j | 0 <= j < i :: !Mentions(kind, FAMILIES[j].0)
    {
      i := i + 1;
    }
    assert i > 0 ==> !Mentions(kind, FAMILIES[0].0);
    assert i > 1 ==> !Mentions(kind, FAMILIES[1].0);
    assert i > 2 ==> !Mentions(kind, FAMILIES[2].0);
    assert i > 3 ==> !Mentions(kind, FAMILIES[3].0);
    assert i > 4 ==> !Mentions(kind, FAMILIES[4].0);
    assert i > 5 ==> !Mentions(kind, FAMILIES[5].0);
    assert i > 6 ==> !Mentions(kind, FAMILIES[6].0);
    assert i > 7 ==> !Mentions(kind, FAMILIES[7].0);
    assert i > 8 ==> !Mentions(kind, FAMILIES[8].0);
    assert i > 9 ==> !Mentions(kind, FAMILIES[9].0);
    assert i > 10 ==> !Mentions(kind, FAMILIES[10].0);
  }

  lemma ExecutorNeededIff(kind: ActionType)
    ensures RequiresExecutor(kind) <==> exists i | 0 <= i < |FAMILIES| :: FAMILIES[i].1 == kind
  {
    Families();
    hide FAMILIES;
    if RequiresExecutor(kind) {
      assert kind in {FAMILIES[0].1, FAMILIES[1].1, FAMILIES[2].1, FAMILIES[3].1, FAMILIES[4].1, FAMILIES[5].1,
                      FAMILIES[6].1, FAMILIES[7].1, FAMILIES[8].1, FAMILIES[9].1, FAMILIES[10].1};
    }
  }

  // ----- the guardrails

  /** What each reason says about target, scope and time. */
  ghost predicate Speaks(reason: BlockReason, target: Target, scope: Scope, now: int) {
    var identity := target.identity;
    match reason
    case PrefixRequired => !target.inState && target.existsInCloud && scope.resourcePrefix == None
    case PrefixMismatch => scope.resourcePrefix.Some? && !CarriesPrefix(identity, scope.resourcePrefix.value)
    case RegionOutside => !ListAllows(identity.region, scope.regions)
    case AccountOutside => !ListAllows(identity.accountId, scope.accountIds)
    case TooNew => !OldEnough(identity.createdAt, scope.minAgeMinutes, now)
    case WeakOwnership =>
      && !target.inState && target.existsInCloud
      && |set e | e in target.ownership ::
         e.signal| < (match scope.ownershipMinSignals case None => 2 case Some(m) => m)
    case SingletonDisabled => !SingletonsAllowed(identity, scope)
    case _ => false
  }

  lemma GuardrailsHas(target: Target, scope: Scope, now: int, b: BlockedAction)
    ensures b in Guardrails(target, scope, now) <==>
            || (b == BlockedAction(Blocked, PrefixRequired) && scope.resourcePrefix.None? && IsCloudOnly(target))
            || (b == BlockedAction(Blocked, PrefixMismatch) && !MatchesPrefix(target.identity, scope.resourcePrefix))
            || (b == BlockedAction(Blocked, RegionOutside) && !MatchesOne(target.identity.region, scope.regions))
            || (b == BlockedAction(Blocked, AccountOutside) && !MatchesOne(target.identity.accountId, scope.accountIds))
            || (b == BlockedAction(Blocked, TooNew) && !MatchesAge(target.identity.createdAt, scope.minAgeMinutes, now))
            || (b == BlockedAction(Blocked, WeakOwnership) && IsCloudOnly(target)
                && |Signals(target)| < OrElse(scope.ownershipMinSignals, 2))
            || (b == BlockedAction(DeleteCloudResource, SingletonDisabled)
                && IsSingleton(target.identity) && !scope.allowSingletonDelete)
  {
    hide MatchesPrefix, MatchesOne, MatchesAge, IsCloudOnly, IsSingleton, Signals;
  }

  lemma ReasonsIff(target: Target, scope: Scope, now: int, b: BlockedAction)
    ensures b in Guardrails(target, scope, now) <==>
            && Speaks(b.reason, target, scope, now)
            && b.action == if b.reason == SingletonDisabled then DeleteCloudResource else Blocked
  {
    GuardrailsHas(target, scope, now, b);
    if scope.resourcePrefix.Some? {
      CarriesPrefixIff(target.identity, scope.resourcePrefix.value);
    }
    assert Signals(target) == set e | e in target.ownership :: e.signal;
    SameLists(target.identity.region, scope.regions);
    SameLists(target.identity.accountId, scope.accountIds);
    hide Guardrails, HasPrefix, CarriesPrefix, MatchesOne, ListAllows, Signals;
  }

  lemma SameLists(value: Option<string>, allowed: Option<seq<string>>)
    ensures MatchesOne(value, allowed) == ListAllows(value, allowed)
  {
  }

  ghost predicate Stopped(target: Target, scope: Scope, now: int) {
    exists reason :: Speaks(reason, target, scope, now)
  }

  lemma StoppedIff(target: Target, scope: Scope, now: int)
    ensures Guardrails(target, scope, now) != [] <==> Stopped(target, scope, now)
  {
    var all := Guardrails(target, scope, now);
    hide Speaks, Guardrails;
    if all != [] {
      ReasonsIff(target, scope, now, all[0]);
      assert Speaks(all[0].reason, target, scope, now);
    }
    if reason :| Speaks(reason, target, scope, now) {
      var b := BlockedAction(if reason == SingletonDisabled then DeleteCloudResource else Blocked, reason);
      ReasonsIff(target, scope, now, b);
      assert b in all;
    }
  }

  // ----- one action

  /** What is done with a target, told by the guardrails and its own fields. */
  ghost predicate Recommends(target: Target, stopped: bool, choice: Choice) {
    var known, seen, actions := target.inState, target.existsInCloud, OrElse(target.supportedActions, []);
    match choice
    case Blocked => if stopped then !IsShared(target.identity) else !known && !seen
    case RetainExternal =>
      if stopped then IsShared(target.identity)
      else !known && seen && "importToState" !in actions && !IsSweepable(target.identity.kind)
    case RefreshState => !stopped && known && seen && "refreshState" in actions
    case CodifyProduction =>
      !stopped && known && seen && "codifyProduction" in actions && "refreshState" !in actions
    case RevertProduction =>
      && !stopped && known && seen && "revertProduction" in actions
      && "refreshState" !in actions && "codifyProduction" !in actions
    case IgnoreWithJustification =>
      && !stopped && known && seen && "ignoreWithJustification" in actions
      && "refreshState" !in actions && "codifyProduction" !in actions && "revertProduction" !in actions
    case NoOp =>
      && !stopped && known && seen
      && "refreshState" !in actions && "codifyProduction" !in actions && "revertProduction" !in actions
      && "ignoreWithJustification" !in actions
    case StateDelete => !stopped && known && !seen
    case ImportToState => !stopped && !known && seen && "importToState" in actions
    case DeleteCloudResource =>
      !stopped && !known && seen && "importToState" !in actions && IsSweepable(target.identity.kind)
  }

  predicate IsShared(identity: Identity) {
    || identity.singleton == Some(true)
    || identity.kind == "aws:guardduty/detector:Detector" || identity.kind == "aws:securityhub/account:Account"
  }

  /** A bucket, or a type that a registered executor may delete. */
  ghost predicate IsSweepable(kind: string) {
    Mentions(kind, "aws:s3/bucket") || exists i: nat :: IsFirstMentioned(kind, i)
  }

  lemma SweepableIff(kind: string)
    ensures IsSweepable(kind) <==> Mentions(kind, "aws:s3/bucket") || DeleteFamily(kind).Some?
  {
    hide Mentions, DeleteFamily, IsFirstMentioned;
    if DeleteFamily(kind).Some? {
      FamilyIff(kind, DeleteFamily(kind).value);
    }
    if i: nat :| IsFirstMentioned(kind, i) {
      assert i < |FAMILIES| by {
        IsListed(kind, i);
      }
      FamilyIff(kind, FAMILIES[i].1);
    }
  }

  lemma IsListed(kind: string, i: nat)
    requires IsFirstMentioned(kind, i)
    ensures i < |FAMILIES|
  {
  }

  /** The type of an action, given what it does. */
  ghost predicate HasType(a: Action, target: Target, stopped: bool) {
    match a.recommended
    case RefreshState => a.kind == RefreshStateAction
    case StateDelete => a.kind == StateDeleteAlreadyAbsentResource
    case ImportToState => a.kind == ImportToStateAction
    case DeleteCloudResource =>
      if Mentions(target.identity.kind, "aws:s3/bucket") then a.kind == DrainS3BucketVersions
      else exists i: nat :: IsFirstMentioned(target.identity.kind, i) && FAMILIES[i].1 == a.kind
    case RetainExternal => a.kind == if stopped then RetainSharedSingleton else RetainUnsupportedResource
    case _ => a.kind == RetainUnsupportedResource
  }

  /** The choices left open: the recommended one first, none of them twice. */
  function Open(choice: Choice, stopped: bool): seq<Choice> {
    match choice
    case RefreshState => [RefreshState, CodifyProduction, RevertProduction, IgnoreWithJustification, NoOp]
    case CodifyProduction => [CodifyProduction, RefreshState, RevertProduction, IgnoreWithJustification, NoOp]
    case RevertProduction => [RevertProduction, RefreshState, CodifyProduction, IgnoreWithJustification, NoOp]
    case IgnoreWithJustification => [IgnoreWithJustification, RefreshState, CodifyProduction, RevertProduction, NoOp]
    case NoOp => [NoOp, RefreshState, CodifyProduction, RevertProduction, IgnoreWithJustification]
    case StateDelete => [StateDelete]
    case ImportToState => [ImportToState, RetainExternal, DeleteCloudResource]
    case DeleteCloudResource => [DeleteCloudResource, ImportToState, RetainExternal]
    case RetainExternal => if stopped then [RetainExternal] else [RetainExternal, ImportToState]
    case Blocked => [Blocked]
  }

  /** The risk of a choice that nothing blocks. */
  function RiskOf(choice: Choice): Risk {
    match choice
    case NoOp => LowRisk
    case DeleteCloudResource => HighRisk
    case Blocked => BlockedRisk
    case _ => MediumRisk
  }

  lemma JudgeIs(target: Target, stopped: bool, a: Action)
    requires var v := Judge(target, stopped);
             && a.kind == v.kind && a.recommended == v.recommended && a.stateMutation == v.stateMutation
             && a.cloudMutation == v.cloudMutation
    ensures var v := Judge(target, stopped);
            && (forall choice :: Recommends(target, stopped, choice) <==> choice == v.recommended)
            && HasType(a, target, stopped)
            && v.risk == (if stopped then BlockedRisk else RiskOf(v.recommended))
            && (v.stateMutation <==> v.recommended in {RefreshState, StateDelete, ImportToState})
            && (v.cloudMutation <==> v.recommended == DeleteCloudResource)
  {
    var kind := target.identity.kind;
    SweepableIff(kind);
    if DeleteFamily(kind).Some? {
      FamilyIff(kind, DeleteFamily(kind).value);
    }
    hide Mentions, DeleteFamily, IsFirstMentioned, IsSweepable, FAMILIES;
  }

  lemma WithoutFirst(first: Choice, rest: seq<Choice>, choice: Choice)
    ensures Without([first] + rest, choice) == (if first == choice then [] else [first]) + Without(rest, choice)
    ensures Without([], choice) == []
  {
    assert ([first] + rest)[1..] == rest;
  }

  lemma WithoutOne(a: Choice, choice: Choice)
    ensures Without([a], choice) == if a == choice then [] else [a]
  {
    WithoutFirst(a, [], choice);
    hide Without;
    assert [a] + [] == [a];
  }

  lemma WithoutThree(a: Choice, b: Choice, c: Choice, choice: Choice)
    ensures Without([a, b, c], choice) == Without([a], choice) + Without([b], choice) + Without([c], choice)
  {
    WithoutFirst(a, [b, c], choice);
    WithoutFirst(b, [c], choice);
    WithoutOne(a, choice);
    WithoutOne(b, choice);
    hide Without;
    assert [a, b, c] == [a] + [b, c] && [b, c] == [b] + [c];
  }

  lemma WithoutFive(a: Choice, b: Choice, c: Choice, d: Choice, e: Choice, choice: Choice)
    ensures Without([a, b, c, d, e], choice) == Without([a], choice) + Without([b], choice) + Without([c, d, e], choice)
  {
    WithoutFirst(a, [b, c, d, e], choice);
    WithoutFirst(b, [c, d, e], choice);
    WithoutOne(a, choice);
    WithoutOne(b, choice);
    hide Without;
    assert [a, b, c, d, e] == [a] + [b, c, d, e] && [b, c, d, e] == [b] + [c, d, e];
  }

  lemma OpenInState(c: Choice)
    requires c in {RefreshState, CodifyProduction, RevertProduction, IgnoreWithJustification, NoOp}
    ensures UniqueChoices(c, [RefreshState, CodifyProduction, RevertProduction, IgnoreWithJustification, NoOp])
            == Open(c, false)
  {
    WithoutFive(RefreshState, CodifyProduction, RevertProduction, IgnoreWithJustification, NoOp, c);
    WithoutThree(RevertProduction, IgnoreWithJustification, NoOp, c);
    WithoutOne(RefreshState, c);
    WithoutOne(CodifyProduction, c);
    WithoutOne(RevertProduction, c);
    WithoutOne(IgnoreWithJustification, c);
    WithoutOne(NoOp, c);
    hide Without;
  }

  lemma OpenInCloud(c: Choice)
    requires c in {ImportToState, DeleteCloudResource}
    ensures c == ImportToState ==>
            UniqueChoices(c, [ImportToState, RetainExternal, DeleteCloudResource]) == Open(c, false)
    ensures c == DeleteCloudResource ==>
            UniqueChoices(c, [DeleteCloudResource, ImportToState, RetainExternal]) == Open(c, false)
  {
    WithoutThree(ImportToState, RetainExternal, DeleteCloudResource, c);
    WithoutThree(DeleteCloudResource, ImportToState, RetainExternal, c);
    forall x ensures Without([x], c) == if x == c then [] else [x] {
      WithoutOne(x, c);
    }
    hide Without;
  }

  lemma OpenOther()
    ensures UniqueChoices(RetainExternal, [ImportToState, RetainExternal]) == [RetainExternal, ImportToState]
    ensures forall c :: UniqueChoices(c, []) == [c] && UniqueChoices(c, [c]) == [c]
  {
    WithoutFirst(ImportToState, [RetainExternal], RetainExternal);
    WithoutOne(RetainExternal, RetainExternal);
    forall c ensures UniqueChoices(c, []) == [c] && UniqueChoices(c, [c]) == [c] {
      WithoutOne(c, c);
      WithoutFirst(c, [], c);
    }
    hide Without;
    assert [ImportToState, RetainExternal] == [ImportToState] + [RetainExternal];
  }

  lemma OpenIs(target: Target, stopped: bool)
    ensures var v := Judge(target, stopped);
            UniqueChoices(v.recommended, v.allowed) == Open(v.recommended, stopped)
  {
    var v := Judge(target, stopped);
    OpenOther();
    if !stopped && target.inState && target.existsInCloud {
      OpenInState(v.recommended);
    } else if !stopped && v.recommended in {ImportToState, DeleteCloudResource} {
      OpenInCloud(v.recommended);
    }
    hide Mentions, DeleteFamily, Supports, UniqueChoices;
  }

  /** Every field of the action a target is classified into. */
  lemma ClassifiedAs(target: Target, scope: Scope, mode: Mode, now: int, index: nat, executors: set<ActionType>,
                     digest: Identity -> string)
    ensures var a := Classify(target, scope, mode, now, index, executors, digest);
            var stopped := Stopped(target, scope, now);
            && Recommends(target, stopped, a.recommended) && HasType(a, target, stopped)
            && a.resource == target.identity && a.evidence == target.ownership && a.dependsOn == []
            && a.allowed == Open(a.recommended, stopped)
            && (a.stateMutation <==> a.recommended in {RefreshState, StateDelete, ImportToState})
            && (a.cloudMutation <==> a.recommended == DeleteCloudResource)
            && (a.requiresApproval <==>
                a.recommended in {RefreshState, StateDelete, ImportToState, DeleteCloudResource})
  {
    var a := Classify(target, scope, mode, now, index, executors, digest);
    StoppedIff(target, scope, now);
    JudgeIs(target, Stopped(target, scope, now), a);
    OpenIs(target, Stopped(target, scope, now));
    hide Guardrails, Judge, Recommends, HasType, Open, UniqueChoices, RequiresExecutor, ModeAllows, ActionId, Stopped,
         RiskOf;
  }

  /** No executor is registered for the type that a deletion needs. */
  ghost predicate LacksExecutor(a: Action, executors: set<ActionType>) {
    a.kind !in executors && exists i | 0 <= i < |FAMILIES| :: FAMILIES[i].1 == a.kind
  }

  /** The reasons given are those that hold; where there is one and the action is not carried out, it is blocked. */
  lemma ClassifiedReasons(target: Target, scope: Scope, mode: Mode, now: int, index: nat, executors: set<ActionType>,
                          digest: Identity -> string, b: BlockedAction)
    ensures var a := Classify(target, scope, mode, now, index, executors, digest);
            var stopped := Stopped(target, scope, now);
            && (b in a.blocked <==>
                  || (Speaks(b.reason, target, scope, now)
                      && b.action == if b.reason == SingletonDisabled then DeleteCloudResource else Blocked)
                  || (LacksExecutor(a, executors) && b == BlockedAction(a.recommended, NoExecutor)))
            && a.risk == (if stopped || LacksExecutor(a, executors) then BlockedRisk else RiskOf(a.recommended))
  {
    var a := Classify(target, scope, mode, now, index, executors, digest);
    StoppedIff(target, scope, now);
    JudgeIs(target, Stopped(target, scope, now), a);
    ReasonsIff(target, scope, now, b);
    ExecutorNeededIff(a.kind);
    hide Guardrails, Judge, Recommends, HasType, Open, UniqueChoices, RequiresExecutor, ModeAllows, ActionId, Stopped,
         RiskOf, FAMILIES, Speaks;
  }

  /** An id is "action-", the index in at least four digits, and the digest. */
  lemma ActionIdIs(index: nat, digest: string) returns (digits: string)
    ensures ActionId(index, digest) == "action-" + (digits + ("-" + digest))
    ensures AllDigits(digits) && DecimalValue(digits) == index && |digits| >= 4 && (|digits| > 4 ==> digits[0] != '0')
  {
    digits := PaddedIndex(index);
    PaddedDigits(index);
    DecimalRoundTrip(index);
    hide Decimal, DecimalValue;
    assert digits + ['-'] + digest == digits + ("-" + digest);
    if |digits| > 4 {
      assert digits == "" + Decimal(index);
    }
  }

  // ----- the order of a plan

  /** The types of actions in the order of their names. */
  const TYPES: seq<ActionType> := [
    AbortS3MultipartUploads, DeleteAccessAnalyzer, DeleteCloudResourceAction, DeleteCloudTrailTrail,
    DeleteCloudWatchLogGroup, DeleteConfigDeliveryChannel, DeleteConfigRecorder, DeleteEventBridgeRule,
    DeleteGuardDutyDetector, DeleteIamRole, DeleteS3Bucket, DeleteSecurityHubHub, DeleteSnsTopic, DrainS3BucketVersions,
    ImportToStateAction, RefreshStateAction, RetainSharedSingleton, RetainUnsupportedResource, ScheduleKmsKeyDeletion,
    StateDeleteAlreadyAbsentResource]

  /** The part of the sort key after the type. */
  function RestKey(resource: Identity): string {
    ":" + (resource.kind + ":" + OrElse(resource.urn, "") + ":" + OrElse(resource.physicalId, ""))
  }

  /** Of two texts with a common beginning, the one with the smaller character after it stands first. */
  lemma {:induction false} Before(p: string, s: string, t: string)
    requires s != "" && t != "" && s[0] < t[0]
    ensures LexLe(p + s, p + t) && !LexLe(p + t, p + s)
  {
    KeyOrder(p, s, t);
    LexTotal(p + s, p + t);
    hide LexLe;
  }

  lemma NamesBefore(a: string, b: string, p: string, s: string, t: string, x: string, y: string)
    requires a == p + s && b == p + t && s != "" && t != "" && s[0] < t[0]
    ensures !LexLe(b + y, a + x)
  {
    assert a + x == p + (s + x) && b + y == p + (t + y);
    Before(p, s + x, t + y);
  }

  lemma OtherNames()
    ensures TypeName(AbortS3MultipartUploads) == "abortS3MultipartUploads"
    ensures TypeName(DrainS3BucketVersions) == "drainS3BucketVersions"
    ensures TypeName(ScheduleKmsKeyDeletion) == "scheduleKmsKeyDeletion"
    ensures TypeName(StateDeleteAlreadyAbsentResource) == "stateDeleteAlreadyAbsentResource"
    ensures TypeName(ImportToStateAction) == "importToState" && TypeName(RefreshStateAction) == "refreshState"
  {
  }

  /** Actions of type `k` stand before those of type `l`, whatever their resources. */
  ghost predicate Precedes(k: ActionType, l: ActionType) {
    forall a: Action, b: Action | a.kind == k && b.kind == l :: !ActionLe(b, a)
  }

  lemma Follows(k: ActionType, l: ActionType, p: string, s: string, t: string)
    requires TypeName(k) == p + s && TypeName(l) == p + t && s != "" && t != "" && s[0] < t[0]
    ensures Precedes(k, l)
  {
    forall a: Action, b: Action | a.kind == k && b.kind == l ensures !ActionLe(b, a) {
      hide LexLe, TypeName;
      assert SortKey(a)[|TypeName(k)|..] == SortKey(a)[|TypeName(k)|..];
      NamesBefore(TypeName(k), TypeName(l), p, s, t, SortKey(a)[|TypeName(k)|..], SortKey(b)[|TypeName(l)|..]);
    }
  }

  lemma FollowsAtOnce(k: ActionType, l: ActionType)
    requires TypeName(k) != "" && TypeName(l) != "" && TypeName(k)[0] < TypeName(l)[0]
    ensures Precedes(k, l)
  {
    hide TypeName;
    Follows(k, l, "", TypeName(k), TypeName(l));
  }

  lemma FollowsNext(k: ActionType, l: ActionType)
    requires |TypeName(k)| > 1 && |TypeName(l)| > 1 && TypeName(k)[0] == TypeName(l)[0]
    requires TypeName(k)[1] < TypeName(l)[1]
    ensures Precedes(k, l)
  {
    hide TypeName;
    var x, y := TypeName(k), TypeName(l);
    assert x == [x[0]] + x[1..] && y == [x[0]] + y[1..];
    Follows(k, l, [x[0]], x[1..], y[1..]);
  }

  lemma FromAbortS3MultipartUploads()
    ensures Precedes(AbortS3MultipartUploads, DeleteAccessAnalyzer)
    ensures Precedes(DeleteAccessAnalyzer, DeleteCloudResourceAction)
  {
    hide Precedes;
    FollowsAtOnce(AbortS3MultipartUploads, DeleteAccessAnalyzer);
    Follows(DeleteAccessAnalyzer, DeleteCloudResourceAction, "delete", "AccessAnalyzer", "CloudResource");
  }

  lemma FromDeleteCloudResourceAction()
    ensures Precedes(DeleteCloudResourceAction, DeleteCloudTrailTrail)
    ensures Precedes(DeleteCloudTrailTrail, DeleteCloudWatchLogGroup)
  {
    hide Precedes;
    Follows(DeleteCloudResourceAction, DeleteCloudTrailTrail, "deleteCloud", "Resource", "TrailTrail");
    Follows(DeleteCloudTrailTrail, DeleteCloudWatchLogGroup, "deleteCloud", "TrailTrail", "WatchLogGroup");
  }

  lemma FromDeleteCloudWatchLogGroup()
    ensures Precedes(DeleteCloudWatchLogGroup, DeleteConfigDeliveryChannel)
    ensures Precedes(DeleteConfigDeliveryChannel, DeleteConfigRecorder)
  {
    hide Precedes;
    Follows(DeleteCloudWatchLogGroup, DeleteConfigDeliveryChannel, "deleteC", "loudWatchLogGroup",
            "onfigDeliveryChannel");
    Follows(DeleteConfigDeliveryChannel, DeleteConfigRecorder, "deleteConfig", "DeliveryChannel", "Recorder");
  }

  lemma FromDeleteConfigRecorder()
    ensures Precedes(DeleteConfigRecorder, DeleteEventBridgeRule)
    ensures Precedes(DeleteEventBridgeRule, DeleteGuardDutyDetector)
  {
    hide Precedes;
    Follows(DeleteConfigRecorder, DeleteEventBridgeRule, "delete", "ConfigRecorder", "EventBridgeRule");
    Follows(DeleteEventBridgeRule, DeleteGuardDutyDetector, "delete", "EventBridgeRule", "GuardDutyDetector");
  }

  lemma FromDeleteGuardDutyDetector()
    ensures Precedes(DeleteGuardDutyDetector, DeleteIamRole)
    ensures Precedes(DeleteIamRole, DeleteS3Bucket)
  {
    hide Precedes;
    Follows(DeleteGuardDutyDetector, DeleteIamRole, "delete", "GuardDutyDetector", "IamRole");
    Follows(DeleteIamRole, DeleteS3Bucket, "delete", "IamRole", "S3Bucket");
  }

  lemma FromDeleteS3Bucket()
    ensures Precedes(DeleteS3Bucket, DeleteSecurityHubHub)
    ensures Precedes(DeleteSecurityHubHub, DeleteSnsTopic)
  {
    hide Precedes;
    Follows(DeleteS3Bucket, DeleteSecurityHubHub, "deleteS", "3Bucket", "ecurityHubHub");
    Follows(DeleteSecurityHubHub, DeleteSnsTopic, "deleteS", "ecurityHubHub", "nsTopic");
  }

  lemma FromDeleteSnsTopic()
    ensures Precedes(DeleteSnsTopic, DrainS3BucketVersions)
    ensures Precedes(DrainS3BucketVersions, ImportToStateAction)
  {
    hide Precedes;
    FollowsNext(DeleteSnsTopic, DrainS3BucketVersions);
    FollowsAtOnce(DrainS3BucketVersions, ImportToStateAction);
  }

  lemma FromImportToStateAction()
    ensures Precedes(ImportToStateAction, RefreshStateAction)
    ensures Precedes(RefreshStateAction, RetainSharedSingleton)
  {
    hide Precedes;
    FollowsAtOnce(ImportToStateAction, RefreshStateAction);
    Follows(RefreshStateAction, RetainSharedSingleton, "re", "freshState", "tainSharedSingleton");
  }

  lemma FromRetainSharedSingleton()
    ensures Precedes(RetainSharedSingleton, RetainUnsupportedResource)
    ensures Precedes(RetainUnsupportedResource, ScheduleKmsKeyDeletion)
  {
    hide Precedes;
    Follows(RetainSharedSingleton, RetainUnsupportedResource, "retain", "SharedSingleton", "UnsupportedResource");
    FollowsAtOnce(RetainUnsupportedResource, ScheduleKmsKeyDeletion);
  }

  lemma FromScheduleKmsKeyDeletion()
    ensures Precedes(ScheduleKmsKeyDeletion, StateDeleteAlreadyAbsentResource)
  {
    hide Precedes;
    FollowsNext(ScheduleKmsKeyDeletion, StateDeleteAlreadyAbsentResource);
  }

  lemma NextType(types: seq<ActionType>, i: nat)
    requires types == TYPES && i + 1 < |types|
    ensures Precedes(types[i], types[i + 1])
  {
    hide Precedes;
    FromAbortS3MultipartUploads();
    FromDeleteCloudResourceAction();
    FromDeleteCloudWatchLogGroup();
    FromDeleteConfigRecorder();
    FromDeleteGuardDutyDetector();
    FromDeleteS3Bucket();
    FromDeleteSnsTopic();
    FromImportToStateAction();
    FromRetainSharedSingleton();
    FromScheduleKmsKeyDeletion();
  }

  lemma PrecedesTransitive(k: ActionType, l: ActionType, m: ActionType)
    requires Precedes(k, l) && Precedes(l, m)
    ensures Precedes(k, m)
  {
    LexOrder();
    hide LexLe, SortKey;
    forall a: Action, b: Action | a.kind == k && b.kind == m ensures !ActionLe(b, a) {
      var c := a.(kind := l);
      assert !ActionLe(c, a) && !ActionLe(b, c);
      assert LexLe(SortKey(a), SortKey(c));
    }
  }

  /** Actions of an earlier type stand before those of a later one, whatever their resources. */
  lemma {:induction false} TypesOrder(i: nat, j: nat)
    requires i < j < |TYPES|
    ensures Precedes(TYPES[i], TYPES[j])
    decreases j
  {
    NextType(TYPES, j - 1);
    hide Precedes, TYPES;
    if i < j - 1 {
      TypesOrder(i, j - 1);
      PrecedesTransitive(TYPES[i], TYPES[j - 1], TYPES[j]);
    }
  }

  /** Of two actions of one type, the rest of the key decides: type of resource, URN, physical ID. */
  lemma SameTypeOrder(a: Action, b: Action)
    requires a.kind == b.kind
    ensures ActionLe(a, b) <==> LexLe(RestKey(a.resource), RestKey(b.resource))
  {
    hide LexLe, TypeName;
    assert SortKey(a) == TypeName(a.kind) + RestKey(a.resource) && SortKey(b) == TypeName(a.kind) + RestKey(b.resource);
    SamePrefix(TypeName(a.kind), RestKey(a.resource), RestKey(b.resource));
  }

  lemma {:induction false} SamePrefix(p: string, s: string, t: string)
    ensures LexLe(p + s, p + t) <==> LexLe(s, t)
  {
    if p == "" {
      assert p + s == s && p + t == t;
    } else {
      assert (p + s)[1..] == p[1..] + s && (p + t)[1..] == p[1..] + t;
      SamePrefix(p[1..], s, t);
    }
  }

  /** In a plan no action stands before one of an earlier type. */
  lemma PlanOrder(request: Request, scope: Scope, executors: set<ActionType>, digest: Identity -> string, m: nat,
                  n: nat,
                  i: nat, j: nat)
    requires m < n < |PlanActions(request, scope, executors, digest)| && i < |TYPES| && j < |TYPES|
    requires PlanActions(request, scope, executors, digest)[m].kind == TYPES[i]
    requires PlanActions(request, scope, executors, digest)[n].kind == TYPES[j]
    ensures i <= j
  {
    PlanShape(request, scope, executors, digest);
    OrderedIsSorted(request, scope, executors, digest);
    var ordered := Ordered(request, scope, executors, digest);
    KeptForDependencies(ordered[m], ordered);
    KeptForDependencies(ordered[n], ordered);
    hide Ordered, PlanActions, TYPES, WithDependency, Capped, ActionLe;
    assert ActionLe(ordered[m], ordered[n]);
    if j < i {
      TypesOrder(j, i);
    }
  }

  /** Two places agree unless both name an account, or both a region, and the two differ. */
  lemma SamePlacementIff(a: Identity, b: Identity)
    ensures SamePlacement(a, b) <==>
            && (forall x, y :: a.accountId == Some(x) && b.accountId == Some(y) ==> x == y)
            && (forall x, y :: a.region == Some(x) && b.region == Some(y) ==> x == y)
  {
  }

  // ----- the cap

  /** A plan of more than the permitted number of actions, fifty by default, carries out none and says so in each. */
  lemma CapIff(request: Request, scope: Scope, executors: set<ActionType>, digest: Identity -> string, k: nat)
    requires k < |request.targets|
    ensures var actions := PlanActions(request, scope, executors, digest);
            var limit := match scope.maxActions case None => 50 case Some(m) => m;
            && |actions| == |request.targets|
            && (|request.targets| > limit ==>
                  && !actions[k].executable && actions[k].risk == BlockedRisk
                  && BlockedAction(actions[k].recommended, TooManyActions) in actions[k].blocked)
            && (|request.targets| <= limit ==>
                  exists i | 0 <= i < |request.targets| ::
                    actions[k].(dependsOn := []) ==
                    Classify(request.targets[i], scope, request.mode, request.now, i, executors, digest))
  {
    PlanShape(request, scope, executors, digest);
    var i := OrderedOrigin(request, scope, executors, digest, k);
    var ordered := Ordered(request, scope, executors, digest);
    ClassifiedHasNoDependency(request, scope, executors, digest, k);
    OnlyDependency(ordered[k], ordered);
    var actions := PlanActions(request, scope, executors, digest);
    hide Ordered, PlanActions, WithDependency, Classify, Capped;
    if |request.targets| <= OrElse(scope.maxActions, 50) {
      assert actions[k].(dependsOn := []) == ordered[k];
    }
    CappedIs(WithDependency(ordered[k], ordered));
  }

  lemma CappedIs(a: Action)
    ensures !Capped(a).executable && Capped(a).risk == BlockedRisk && Capped(a).recommended == a.recommended
    ensures BlockedAction(a.recommended, TooManyActions) in Capped(a).blocked
  {
  }

  lemma OnlyDependency(a: Action, actions: seq<Action>)
    ensures WithDependency(a, actions).(dependsOn := a.dependsOn) == a
  {
    hide ChannelFor;
  }
}
