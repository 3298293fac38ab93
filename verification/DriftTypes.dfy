// The resource model that packages/drift/src/discovery.ts and
// packages/drift/src/reconciler.ts share.
module DriftTypes {
  import opened Wrappers
  import opened Text

  datatype ActionType =
    | DrainS3BucketVersions | AbortS3MultipartUploads | DeleteS3Bucket
    | DeleteAccessAnalyzer | DeleteCloudTrailTrail | DeleteCloudWatchLogGroup
    | DeleteConfigDeliveryChannel | DeleteConfigRecorder | DeleteEventBridgeRule
    | DeleteGuardDutyDetector | DeleteIamRole | DeleteSecurityHubHub | DeleteSnsTopic
    | ScheduleKmsKeyDeletion | DeleteCloudResourceAction | RetainUnsupportedResource
    | RetainSharedSingleton | StateDeleteAlreadyAbsentResource | ImportToStateAction | RefreshStateAction

  datatype Signal = PulumiState | Tag | NamePrefix | CloudTrail | Caller

  datatype Level = Low | Medium | High

  datatype Evidence = Evidence(signal: Signal, subject: string, confidence: Level)

  datatype Relationship = StateOwned | StateMissing | CloudOnly | SharedSingleton | UnknownRelationship

  /** The result of `Date.parse`: milliseconds, or no date at all. */
  datatype Instant = At(ms: int) | Unparsable

  /** An object of strings, in its order of keys. */
  type Tags = seq<(string, string)>

  function Lookup(tags: Tags, key: string): Option<string> {
    if tags == [] then None else if tags[0].0 == key then Some(tags[0].1) else Lookup(tags[1..], key)
  }

  datatype Identity = Identity(
    kind: string, urn: Option<string>, physicalId: Option<string>, region: Option<string>, accountId: Option<string>,
    tags: Option<Tags>, createdAt: Option<Instant>, singleton: Option<bool>)

  datatype Target = Target(
    identity: Identity, inState: bool, existsInCloud: bool, ownership: seq<Evidence>,
    relationship: Option<Relationship>, supportedActions: Option<seq<string>>)

  datatype Scope = Scope(
    stackName: Option<string>, projectName: Option<string>, resourcePrefix: Option<string>,
    regions: Option<seq<string>>, accountIds: Option<seq<string>>, minAgeMinutes: Option<int>,
    ownershipMinSignals: Option<int>, allowSingletonDelete: bool, maxActions: Option<int>)

  const DETECTOR := "aws:guardduty/detector:Detector"
  const SECURITY_HUB := "aws:securityhub/account:Account"

  predicate IsSecuritySingletonType(kind: string) { kind == DETECTOR || kind == SECURITY_HUB }

  function OrElse<T>(x: Option<T>, d: T): T { if x.Some? then x.value else d }

  function NameTag(identity: Identity): string {
    if identity.tags.None? then "" else OrElse(Lookup(identity.tags.value, "Name"), "")
  }

  predicate HasPrefix(identity: Identity, prefix: string) {
    StartsWith(OrElse(identity.physicalId, ""), prefix) || StartsWith(NameTag(identity), prefix)
  }
}
