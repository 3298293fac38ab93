// packages/drift/src/reconciler.ts: how a plan is made of the targets.
module Reconciler {
  import opened Wrappers
  import opened Text
  import opened Sorting
  import opened DriftTypes

  datatype Mode = CheckOnly | PlanOnly | StateOnly | AdoptOnly | SweepOnly | ReconcileAll

  datatype Choice =
    | NoOp | RefreshState | ImportToState | StateDelete | DeleteCloudResource | RetainExternal
    | CodifyProduction | RevertProduction | IgnoreWithJustification | Blocked

  datatype BlockReason =
    | PrefixRequired | PrefixMismatch | RegionOutside | AccountOutside | TooNew | WeakOwnership
    | SingletonDisabled | NoExecutor | TooManyActions

  datatype BlockedAction = BlockedAction(action: Choice, reason: BlockReason)

  datatype Risk = LowRisk | MediumRisk | HighRisk | BlockedRisk

  datatype Action = Action(
    id: string, kind: ActionType, resource: Identity, recommended: Choice, allowed: seq<Choice>,
    blocked: seq<BlockedAction>, evidence: seq<Evidence>, risk: Risk, requiresApproval: bool,
    stateMutation: bool, cloudMutation: bool, dependsOn: seq<string>, executable: bool)

  datatype Summary = Summary(cleanedUp: nat, stateReconciled: nat, adopted: nat, retained: nat, blocked: nat)

  datatype Request = Request(mode: Mode, scope: Scope, targets: seq<Target>, now: int, nonce: string)

  const DEFAULT_MAX_ACTIONS := 50
  const BROAD_PREFIXES := {"", "*", ".", "/", "aws", "hulumi", "prod", "production"}

  // ----- text

  /** White space and line terminators, as `trim` removes them. */
  predicate IsSpace(c: char) {
    || '\t' <= c <= '\r' || c == ' ' || c == '\U{A0}' || c == '\U{1680}' || '\U{2000}' <= c <= '\U{200A}'
    || c == '\U{2028}' || c == '\U{2029}' || c == '\U{202F}' || c == '\U{205F}' || c == '\U{3000}' || c == '\U{FEFF}'
  }

  function TrimStart(s: string): string { if s != "" && IsSpace(s[0]) then TrimStart(s[1..]) else s }

  function TrimEnd(s: string): string { if s != "" && IsSpace(s[|s| - 1]) then TrimEnd(s[..|s| - 1]) else s }

  function Trim(s: string): string { TrimEnd(TrimStart(s)) }

  // ----- scope

  predicate IsBroadPrefix(prefix: string) {
    Lower(prefix) in BROAD_PREFIXES || |prefix| < 6 || '*' in prefix || '?' in prefix
  }

  /** `None` when the prefix is refused. */
  function NormalizeScope(scope: Scope): Option<Scope> {
    match scope.resourcePrefix
    case None => Some(scope.(ownershipMinSignals := Some(OrElse(scope.ownershipMinSignals, 2))))
    case Some(raw) =>
      if IsBroadPrefix(Trim(raw)) then None
      else Some(scope.(ownershipMinSignals := Some(OrElse(scope.ownershipMinSignals, 2)),
                       resourcePrefix := Some(Trim(raw))))
  }

  predicate MatchesPrefix(identity: Identity, prefix: Option<string>) {
    prefix.None? || HasPrefix(identity, prefix.value)
  }

  predicate MatchesOne(value: Option<string>, allowed: Option<seq<string>>) {
    allowed.None? || allowed.value == [] || (value.Some? && value.value in allowed.value)
  }

  predicate MatchesAge(createdAt: Option<Instant>, minAgeMinutes: Option<int>, now: int) {
    || minAgeMinutes.None? || minAgeMinutes.value <= 0 || createdAt.None?
    || (createdAt.value.At? && now - createdAt.value.ms >= minAgeMinutes.value * 60000)
  }

  // ----- classification of one target

  function Signals(target: Target): set<Signal> { set e | e in target.ownership :: e.signal }

  predicate IsSingleton(identity: Identity) {
    identity.singleton == Some(true) || IsSecuritySingletonType(identity.kind)
  }

  predicate IsCloudOnly(target: Target) { !target.inState && target.existsInCloud }

  function When(condition: bool, action: Choice, reason: BlockReason): seq<BlockedAction> {
    if condition then [BlockedAction(action, reason)] else []
  }

  function Guardrails(target: Target, scope: Scope, now: int): seq<BlockedAction> {
    When(scope.resourcePrefix.None? && IsCloudOnly(target), Blocked, PrefixRequired)
    + When(!MatchesPrefix(target.identity, scope.resourcePrefix), Blocked, PrefixMismatch)
    + When(!MatchesOne(target.identity.region, scope.regions), Blocked, RegionOutside)
    + When(!MatchesOne(target.identity.accountId, scope.accountIds), Blocked, AccountOutside)
    + When(!MatchesAge(target.identity.createdAt, scope.minAgeMinutes, now), Blocked, TooNew)
    + When(IsCloudOnly(target) && |Signals(target)| < OrElse(scope.ownershipMinSignals, 2), Blocked, WeakOwnership)
    + When(IsSingleton(target.identity) && !scope.allowSingletonDelete, DeleteCloudResource, SingletonDisabled)
  }

  function DeleteFamily(kind: string): Option<ActionType> {
    if Mentions(kind, "aws:accessanalyzer/analyzer:Analyzer") then Some(DeleteAccessAnalyzer)
    else if Mentions(kind, "aws:cloudtrail/trail:Trail") then Some(DeleteCloudTrailTrail)
    else if Mentions(kind, "aws:cloudwatch/logGroup:LogGroup") then Some(DeleteCloudWatchLogGroup)
    else if Mentions(kind, "aws:cfg/deliveryChannel:DeliveryChannel") then Some(DeleteConfigDeliveryChannel)
    else if Mentions(kind, "aws:cfg/recorder:Recorder") then Some(DeleteConfigRecorder)
    else if Mentions(kind, "aws:cloudwatch/eventRule:EventRule") then Some(DeleteEventBridgeRule)
    else if Mentions(kind, "aws:guardduty/detector:Detector") then Some(DeleteGuardDutyDetector)
    else if Mentions(kind, "aws:iam/role:Role") then Some(DeleteIamRole)
    else if Mentions(kind, "aws:kms/key:Key") then Some(ScheduleKmsKeyDeletion)
    else if Mentions(kind, "aws:securityhub/account:Account") then Some(DeleteSecurityHubHub)
    else if Mentions(kind, "aws:sns/topic:Topic") then Some(DeleteSnsTopic)
    else None
  }

  predicate RequiresExecutor(kind: ActionType) {
    kind in {DeleteAccessAnalyzer, DeleteCloudTrailTrail, DeleteCloudWatchLogGroup, DeleteConfigDeliveryChannel,
             DeleteConfigRecorder, DeleteEventBridgeRule, DeleteGuardDutyDetector, DeleteIamRole,
             DeleteSecurityHubHub, DeleteSnsTopic, ScheduleKmsKeyDeletion}
  }

  predicate Supports(target: Target, name: string) {
    target.supportedActions.Some? && name in target.supportedActions.value
  }

  /** The first supported of the four choices for a resource that is both in state and in the cloud. */
  function PreferredChoice(target: Target): Option<Choice> {
    if Supports(target, "refreshState") then Some(RefreshState)
    else if Supports(target, "codifyProduction") then Some(CodifyProduction)
    else if Supports(target, "revertProduction") then Some(RevertProduction)
    else if Supports(target, "ignoreWithJustification") then Some(IgnoreWithJustification)
    else None
  }

  datatype Verdict = Verdict(
    kind: ActionType, recommended: Choice, allowed: seq<Choice>, risk: Risk, stateMutation: bool, cloudMutation: bool)

  /** What to do with a target, given whether a guardrail stops it. */
  function Judge(target: Target, stopped: bool): Verdict {
    if stopped then
      if IsSingleton(target.identity) then Verdict(RetainSharedSingleton, RetainExternal, [], BlockedRisk, false, false)
      else Verdict(RetainUnsupportedResource, Blocked, [], BlockedRisk, false, false)
    else if target.inState && target.existsInCloud then
      var choice := PreferredChoice(target);
      Verdict(if choice == Some(RefreshState) then RefreshStateAction else RetainUnsupportedResource,
              OrElse(choice, NoOp),
              [RefreshState, CodifyProduction, RevertProduction, IgnoreWithJustification, NoOp],
              if choice.None? then LowRisk else MediumRisk, choice == Some(RefreshState), false)
    else if target.inState then
      Verdict(StateDeleteAlreadyAbsentResource, StateDelete, [StateDelete], MediumRisk, true, false)
    else if !target.existsInCloud then Verdict(RetainUnsupportedResource, Blocked, [], BlockedRisk, false, false)
    else if Supports(target, "importToState") then
      Verdict(ImportToStateAction, ImportToState, [ImportToState, RetainExternal, DeleteCloudResource], MediumRisk,
              true, false)
    else
      var sweep := [DeleteCloudResource, ImportToState, RetainExternal];
      if Mentions(target.identity.kind, "aws:s3/bucket") then
        Verdict(DrainS3BucketVersions, DeleteCloudResource, sweep, HighRisk, false, true)
      else if DeleteFamily(target.identity.kind).Some? then
        Verdict(DeleteFamily(target.identity.kind).value, DeleteCloudResource, sweep, HighRisk, false, true)
      else Verdict(RetainUnsupportedResource, RetainExternal, [ImportToState, RetainExternal], MediumRisk, false, false)
  }

  predicate ModeAllows(mode: Mode, choice: Choice) {
    match mode
    case CheckOnly => false
    case PlanOnly => false
    case StateOnly => choice == StateDelete || choice == RefreshState
    case AdoptOnly => choice == ImportToState
    case SweepOnly => choice == DeleteCloudResource
    case ReconcileAll => true
  }

  function Zeros(n: nat): string { seq(n, i => '0') }

  /** `padStart(4, "0")` of the decimal text. */
  function PaddedIndex(index: nat): string {
    Zeros(if |Decimal(index)| < 4 then 4 - |Decimal(index)| else 0) + Decimal(index)
  }

  const ACTION_PREFIX := "action-"

  function ActionId(index: nat, digest: string): string { ACTION_PREFIX + (PaddedIndex(index) + ['-'] + digest) }

  /** `[...new Set([recommended, ...allowed])]`. */
  function UniqueChoices(recommended: Choice, allowed: seq<Choice>): seq<Choice> {
    [recommended] + Without(allowed, recommended)
  }

  function Without(choices: seq<Choice>, choice: Choice): seq<Choice> {
    if choices == [] then [] else (if choices[0] == choice then [] else [choices[0]]) + Without(choices[1..], choice)
  }

  function Classify(target: Target, scope: Scope, mode: Mode, now: int, index: nat, executors: set<ActionType>,
                    digest: Identity -> string): Action {
    var guardrails := Guardrails(target, scope, now);
    var v := Judge(target, guardrails != []);
    var missing := RequiresExecutor(v.kind) && v.kind !in executors;
    var blocked := guardrails + When(missing, v.recommended, NoExecutor);
    var executable := guardrails == [] && !missing && ModeAllows(mode, v.recommended)
                      && (v.stateMutation || v.cloudMutation) && v.recommended != NoOp;
    Action(ActionId(index, digest(target.identity)), v.kind, target.identity, v.recommended,
           UniqueChoices(v.recommended, v.allowed), blocked, target.ownership,
           if !executable && blocked != [] then BlockedRisk else v.risk,
           v.stateMutation || v.cloudMutation, v.stateMutation, v.cloudMutation, [], executable)
  }

  // ----- order and dependencies

  function TypeName(kind: ActionType): string {
    match kind
    case DrainS3BucketVersions => "drainS3BucketVersions"
    case AbortS3MultipartUploads => "abortS3MultipartUploads"
    case DeleteS3Bucket => "deleteS3Bucket"
    case DeleteAccessAnalyzer => "deleteAccessAnalyzer"
    case DeleteCloudTrailTrail => "deleteCloudTrailTrail"
    case DeleteCloudWatchLogGroup => "deleteCloudWatchLogGroup"
    case DeleteConfigDeliveryChannel => "deleteConfigDeliveryChannel"
    case DeleteConfigRecorder => "deleteConfigRecorder"
    case DeleteEventBridgeRule => "deleteEventBridgeRule"
    case DeleteGuardDutyDetector => "deleteGuardDutyDetector"
    case DeleteIamRole => "deleteIamRole"
    case DeleteSecurityHubHub => "deleteSecurityHubHub"
    case DeleteSnsTopic => "deleteSnsTopic"
    case ScheduleKmsKeyDeletion => "scheduleKmsKeyDeletion"
    case DeleteCloudResourceAction => "deleteCloudResource"
    case RetainUnsupportedResource => "retainUnsupportedResource"
    case RetainSharedSingleton => "retainSharedSingleton"
    case StateDeleteAlreadyAbsentResource => "stateDeleteAlreadyAbsentResource"
    case ImportToStateAction => "importToState"
    case RefreshStateAction => "refreshState"
  }

  function SortKey(a: Action): string {
    TypeName(a.kind)
      + ([':'] + (a.resource.kind + [':'] + OrElse(a.resource.urn, "") + [':'] + OrElse(a.resource.physicalId, "")))
  }

  predicate ActionLe(a: Action, b: Action) { LexLe(SortKey(a), SortKey(b)) }

  predicate SamePlacement(a: Identity, b: Identity) {
    && (a.accountId.None? || b.accountId.None? || a.accountId == b.accountId)
    && (a.region.None? || b.region.None? || a.region == b.region)
  }

  /** The first delivery channel in the same place, if any. */
  function ChannelFor(actions: seq<Action>, recorder: Identity): Option<string> {
    if actions == [] then None
    else if actions[0].kind == DeleteConfigDeliveryChannel && SamePlacement(recorder, actions[0].resource) then
      Some(actions[0].id)
    else ChannelFor(actions[1..], recorder)
  }

  function WithDependency(a: Action, actions: seq<Action>): Action {
    if a.kind == DeleteConfigRecorder && ChannelFor(actions, a.resource).Some?
    then a.(dependsOn := [ChannelFor(actions, a.resource).value]) else a
  }

  function AddConfigDependencies(actions: seq<Action>): seq<Action> {
    seq(|actions|, i requires 0 <= i < |actions| => WithDependency(actions[i], actions))
  }

  // ----- the whole plan

  function ClassifyAll(targets: seq<Target>, scope: Scope, mode: Mode, now: int, executors: set<ActionType>,
                       digest: Identity -> string): seq<Action> {
    seq(|targets|, i requires 0 <= i < |targets| => Classify(targets[i], scope, mode, now, i, executors, digest))
  }

  function Capped(a: Action): Action {
    a.(executable := false, risk := BlockedRisk, blocked := a.blocked + [BlockedAction(a.recommended, TooManyActions)])
  }

  predicate OverCap(scope: Scope, count: nat) { count > OrElse(scope.maxActions, DEFAULT_MAX_ACTIONS) }

  function Cap(actions: seq<Action>, scope: Scope): seq<Action> {
    if OverCap(scope, |actions|) then seq(|actions|, i requires 0 <= i < |actions| => Capped(actions[i])) else actions
  }

  /** The actions of a plan under an already normalised scope. */
  function PlanActions(request: Request, scope: Scope, executors: set<ActionType>,
                       digest: Identity -> string): seq<Action>
  {
    Cap(AddConfigDependencies(Sort(ClassifyAll(request.targets, scope, request.mode, request.now, executors, digest),
                                   ActionLe)), scope)
  }

  function Count(summary: Summary, choice: Choice): Summary {
    match choice
    case DeleteCloudResource => summary.(cleanedUp := summary.cleanedUp + 1)
    case StateDelete => summary.(stateReconciled := summary.stateReconciled + 1)
    case RefreshState => summary.(stateReconciled := summary.stateReconciled + 1)
    case ImportToState => summary.(adopted := summary.adopted + 1)
    case RetainExternal => summary.(retained := summary.retained + 1)
    case NoOp => summary.(retained := summary.retained + 1)
    case _ => summary.(blocked := summary.blocked + 1)
  }

  function Summarize(actions: seq<Action>): Summary {
    if actions == [] then Summary(0, 0, 0, 0, 0)
    else Count(Summarize(actions[..|actions| - 1]), actions[|actions| - 1].recommended)
  }
}
