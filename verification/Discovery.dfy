// packages/drift/src/discovery.ts: joining the Pulumi state with the cloud
// inventory into the targets of a plan.
module Discovery {
  import opened Wrappers
  import opened Json
  import opened Text
  import opened Sorting
  import opened DriftTypes

  datatype StateResource = StateResource(urn: string, kind: string, id: Option<string>, outputs: map<string, Json>)

  datatype StateExport = StateExport(resources: Option<seq<StateResource>>, deployment: Option<seq<StateResource>>)

  datatype CloudResource = CloudResource(identity: Identity, ownership: seq<Evidence>)

  datatype DiscoveryScope = DiscoveryScope(
    scope: Scope, urns: Option<seq<string>>, physicalIds: Option<seq<string>>, resourceTypes: Option<seq<string>>,
    tags: Option<Tags>)

  datatype OutReason = AccountOut | RegionOut | PrefixOut | TagOut | TypeOut

  datatype Diagnostic = Diagnostic(ref: string, reason: OutReason)

  datatype Discovered = Discovered(targets: seq<Target>, diagnostics: seq<Diagnostic>)

  // ----- selectors

  predicate NonEmpty(values: Option<seq<string>>) { values.Some? && values.value != [] }

  predicate HasSelector(scope: DiscoveryScope) {
    || scope.scope.resourcePrefix.Some? || (scope.tags.Some? && scope.tags.value != [])
    || NonEmpty(scope.urns) || NonEmpty(scope.physicalIds) || NonEmpty(scope.resourceTypes)
  }

  function StateResources(state: Option<StateExport>): seq<StateResource> {
    if state.None? then []
    else if state.value.deployment.Some? then state.value.deployment.value
    else OrElse(state.value.resources, [])
  }

  function TextOutput(r: StateResource, key: string): Option<string> {
    match StringOf(if key in r.outputs then Some(r.outputs[key]) else None)
    case Some(s) => if s != "" then Some(s) else None
    case None => None
  }

  function StatePhysicalId(r: StateResource): (id: Option<string>)
    ensures id.Some? ==> id.value != ""
  {
    if r.id.Some? && r.id.value != "" then r.id
    else if TextOutput(r, "bucket").Some? then TextOutput(r, "bucket")
    else if TextOutput(r, "name").Some? then TextOutput(r, "name")
    else if TextOutput(r, "arn").Some? then TextOutput(r, "arn")
    else TextOutput(r, "id")
  }

  predicate MatchesTags(tags: Option<Tags>, selector: Tags) {
    tags.Some? && forall e | e in selector :: Lookup(tags.value, e.0) == Some(e.1)
  }

  /** A list that is present excludes a known value it does not hold; an empty list excludes every known value. */
  predicate Excludes(allowed: Option<seq<string>>, value: Option<string>) {
    allowed.Some? && value.Some? && value.value !in allowed.value
  }

  function OutOfScope(c: Identity, s: DiscoveryScope): Option<OutReason> {
    if Excludes(s.scope.accountIds, c.accountId) then Some(AccountOut)
    else if Excludes(s.scope.regions, c.region) then Some(RegionOut)
    else if Excludes(s.resourceTypes, Some(c.kind)) then Some(TypeOut)
    else if Excludes(s.physicalIds, Some(OrElse(c.physicalId, ""))) then Some(PrefixOut)
    else if s.scope.resourcePrefix.Some? && !HasPrefix(c, s.scope.resourcePrefix.value) then Some(PrefixOut)
    else if s.tags.Some? && !MatchesTags(c.tags, s.tags.value) then Some(TagOut)
    else None
  }

  predicate StateInScope(r: StateResource, s: DiscoveryScope) {
    var id := StatePhysicalId(r);
    && !Excludes(s.urns, Some(r.urn)) && !Excludes(s.resourceTypes, Some(r.kind))
    && !Excludes(s.physicalIds, Some(OrElse(id, "")))
    && (s.scope.resourcePrefix.Some? && id.Some? ==> StartsWith(id.value, s.scope.resourcePrefix.value))
  }

  // ----- the two halves of the inventory

  function InScopeCloud(cloud: seq<CloudResource>, s: DiscoveryScope): seq<CloudResource> {
    if cloud == [] then []
    else
      var last := cloud[|cloud| - 1];
      InScopeCloud(cloud[..|cloud| - 1], s) + if OutOfScope(last.identity, s).None? then [last] else []
  }

  function ExcludedCloud(cloud: seq<CloudResource>, s: DiscoveryScope): seq<CloudResource> {
    if cloud == [] then []
    else
      var last := cloud[|cloud| - 1];
      ExcludedCloud(cloud[..|cloud| - 1], s) + if OutOfScope(last.identity, s).Some? then [last] else []
  }

  function Diagnose(excluded: seq<CloudResource>, s: DiscoveryScope, refOf: Identity -> string): seq<Diagnostic> {
    if excluded == [] then []
    else
      var last := excluded[|excluded| - 1].identity;
      Diagnose(excluded[..|excluded| - 1], s, refOf)
      + [Diagnostic(refOf(last), OrElse(OutOfScope(last, s), TagOut))]
  }

  /** Of several resources with one physical ID, the last one listed. */
  function LastWithId(cloud: seq<CloudResource>, id: string): Option<CloudResource> {
    if cloud == [] then None
    else if cloud[|cloud| - 1].identity.physicalId == Some(id) then Some(cloud[|cloud| - 1])
    else LastWithId(cloud[..|cloud| - 1], id)
  }

  // ----- targets

  function CloudOf(r: StateResource, scoped: seq<CloudResource>): Option<CloudResource> {
    var id := StatePhysicalId(r);
    if id.None? then None else LastWithId(scoped, id.value)
  }

  function StateTarget(r: StateResource, cloud: Option<CloudResource>): Target {
    var seen := if cloud.None? then Identity("", None, None, None, None, None, None, None) else cloud.value.identity;
    var identity := Identity(
      r.kind, Some(r.urn), StatePhysicalId(r), seen.region, seen.accountId, seen.tags, seen.createdAt,
      if seen.singleton == Some(true) || IsSecuritySingletonType(r.kind) then Some(true) else seen.singleton);
    Target(identity, true, cloud.Some?, [Evidence(PulumiState, r.urn, High)],
           Some(if cloud.None? then StateMissing else StateOwned), None)
  }

  function StateTargets(resources: seq<StateResource>, s: DiscoveryScope, scoped: seq<CloudResource>): seq<Target> {
    if resources == [] then []
    else
      var last := resources[|resources| - 1];
      StateTargets(resources[..|resources| - 1], s, scoped)
      + if StateInScope(last, s) then [StateTarget(last, CloudOf(last, scoped))] else []
  }

  /** The physical IDs that an in-scope state resource shares with an in-scope cloud resource. */
  function MatchedIds(resources: seq<StateResource>, s: DiscoveryScope, scoped: seq<CloudResource>): set<string> {
    set r | r in resources && StateInScope(r, s) && CloudOf(r, scoped).Some? :: OrElse(StatePhysicalId(r), "")
  }

  predicate IsMatched(c: CloudResource, matched: set<string>) {
    c.identity.physicalId.Some? && c.identity.physicalId.value in matched
  }

  const TAG_PREFIX := "hulumi:"

  function TagEvidence(tags: Tags): seq<Evidence> {
    if tags == [] then []
    else
      (if StartsWith(tags[0].0, TAG_PREFIX) then [Evidence(Tag, tags[0].0 + ['='] + tags[0].1, High)] else [])
      + TagEvidence(tags[1..])
  }

  function OwnershipEvidence(c: CloudResource, s: DiscoveryScope): seq<Evidence> {
    var prefix := s.scope.resourcePrefix;
    c.ownership
    + (if prefix.Some? && HasPrefix(c.identity, prefix.value)
       then [Evidence(NamePrefix, OrElse(c.identity.physicalId, prefix.value), High)] else [])
    + TagEvidence(OrElse(c.identity.tags, []))
  }

  function CloudTarget(c: CloudResource, s: DiscoveryScope): Target {
    var identity := if IsSecuritySingletonType(c.identity.kind) then c.identity.(singleton := Some(true))
                    else c.identity;
    var ownership := OwnershipEvidence(c, s);
    Target(identity, false, true, ownership,
           Some(if identity.singleton == Some(true) then SharedSingleton
                else if ownership == [] then UnknownRelationship else CloudOnly),
           None)
  }

  function CloudTargets(scoped: seq<CloudResource>, s: DiscoveryScope, matched: set<string>): seq<Target> {
    if scoped == [] then []
    else
      var last := scoped[|scoped| - 1];
      CloudTargets(scoped[..|scoped| - 1], s, matched) + if IsMatched(last, matched) then [] else [CloudTarget(last, s)]
  }

  function RelationshipName(r: Option<Relationship>): string {
    match r
    case None => ""
    case Some(StateOwned) => "state-owned"
    case Some(StateMissing) => "state-missing"
    case Some(CloudOnly) => "cloud-only"
    case Some(SharedSingleton) => "shared-singleton"
    case Some(UnknownRelationship) => "unknown"
  }

  function TargetKey(t: Target): string {
    RelationshipName(t.relationship) + [':'] + t.identity.kind + [':'] + OrElse(t.identity.urn, "") + [':']
      + OrElse(t.identity.physicalId, "")
  }

  predicate TargetLe(a: Target, b: Target) { LexLe(TargetKey(a), TargetKey(b)) }

  /** What discovery returns, in terms of the two lists it joins. */
  function Discover(resources: seq<StateResource>, cloud: seq<CloudResource>, s: DiscoveryScope,
                    refOf: Identity -> string): Discovered
  {
    var scoped := InScopeCloud(cloud, s);
    Discovered(Sort(StateTargets(resources, s, scoped) + CloudTargets(scoped, s, MatchedIds(resources, s, scoped)),
                    TargetLe),
               Diagnose(ExcludedCloud(cloud, s), s, refOf))
  }

  // ----- the loops

  lemma ExcludedNext(cloud: seq<CloudResource>, i: nat, s: DiscoveryScope, refOf: Identity -> string)
    requires i < |cloud|
    ensures var c := cloud[i].identity;
            Diagnose(ExcludedCloud(cloud[..i + 1], s), s, refOf) == Diagnose(ExcludedCloud(cloud[..i], s), s, refOf)
            + if OutOfScope(c, s).Some? then [Diagnostic(refOf(c), OutOfScope(c, s).value)] else []
  {
    hide OutOfScope;
    assert cloud[..i + 1][..i] == cloud[..i];
    var excluded := ExcludedCloud(cloud[..i], s);
    if OutOfScope(cloud[i].identity, s).Some? {
      assert ExcludedCloud(cloud[..i + 1], s) == excluded + [cloud[i]];
      assert (excluded + [cloud[i]])[..|excluded|] == excluded;
    } else {
      assert ExcludedCloud(cloud[..i + 1], s) == excluded;
    }
  }

  /** The scope filter, which reports what it drops. */
  method FilterCloud(cloud: seq<CloudResource>, s: DiscoveryScope, refOf: Identity -> string)
    returns (scoped: seq<CloudResource>, diagnostics: seq<Diagnostic>)
    ensures scoped == InScopeCloud(cloud, s) && diagnostics == Diagnose(ExcludedCloud(cloud, s), s, refOf)
  {
    hide OutOfScope;
    scoped, diagnostics := [], [];
    for i := 0 to |cloud|
      invariant scoped == InScopeCloud(cloud[..i], s) && diagnostics == Diagnose(ExcludedCloud(cloud[..i], s), s, refOf)
    {
      assert cloud[..i + 1][..i] == cloud[..i];
      var reason := OutOfScope(cloud[i].identity, s);
      ExcludedNext(cloud, i, s, refOf);
      if reason.Some? {
        diagnostics := diagnostics + [Diagnostic(refOf(cloud[i].identity), reason.value)];
      } else {
        scoped := scoped + [cloud[i]];
      }
    }
    assert cloud[..|cloud|] == cloud;
  }

  method IndexCloud(scoped: seq<CloudResource>) returns (byId: map<string, CloudResource>)
    ensures forall id :: LastWithId(scoped, id) == if id in byId then Some(byId[id]) else None
  {
    byId := map[];
    for i := 0 to |scoped|
      invariant forall id :: LastWithId(scoped[..i], id) == if id in byId then Some(byId[id]) else None
    {
      assert scoped[..i + 1][..i] == scoped[..i];
      if scoped[i].identity.physicalId.Some? {
        byId := byId[scoped[i].identity.physicalId.value := scoped[i]];
      }
    }
    assert scoped[..|scoped|] == scoped;
  }

  method JoinState(resources: seq<StateResource>, s: DiscoveryScope, ghost scoped: seq<CloudResource>,
                   byId: map<string, CloudResource>)
    returns (targets: seq<Target>, matched: set<string>)
    requires forall id :: LastWithId(scoped, id) == if id in byId then Some(byId[id]) else None
    ensures targets == StateTargets(resources, s, scoped) && matched == MatchedIds(resources, s, scoped)
  {
    hide LastWithId, StateInScope, StatePhysicalId, StateTarget;
    targets, matched := [], {};
    for i := 0 to |resources|
      invariant targets == StateTargets(resources[..i], s, scoped) && matched == MatchedIds(resources[..i], s, scoped)
    {
      var r := resources[i];
      assert resources[..i + 1][..i] == resources[..i];
      MatchedNext(resources[..i], r, s, scoped);
      assert resources[..i + 1] == resources[..i] + [r];
      if StateInScope(r, s) {
        var id := StatePhysicalId(r);
        var cloud := if id.None? || id.value !in byId then None else Some(byId[id.value]);
        assert cloud == CloudOf(r, scoped);
        if id.Some? && cloud.Some? {
          matched := matched + {id.value};
        }
        targets := targets + [StateTarget(r, cloud)];
      }
    }
    assert resources[..|resources|] == resources;
  }

  lemma MatchedNext(resources: seq<StateResource>, r: StateResource, s: DiscoveryScope, scoped: seq<CloudResource>)
    ensures MatchedIds(resources + [r], s, scoped) == MatchedIds(resources, s, scoped)
            + if StateInScope(r, s) && CloudOf(r, scoped).Some? then {OrElse(StatePhysicalId(r), "")} else {}
  {
    hide StateInScope, CloudOf, StatePhysicalId;
    var more := resources + [r];
    assert forall x | x in more :: x in resources || x == r;
    assert forall x | x in resources :: x in more;
    assert r in more;
  }

  method AddCloud(scoped: seq<CloudResource>, s: DiscoveryScope, matched: set<string>) returns (targets: seq<Target>)
    ensures targets == CloudTargets(scoped, s, matched)
  {
    hide CloudTarget;
    targets := [];
    for i := 0 to |scoped|
      invariant targets == CloudTargets(scoped[..i], s, matched)
    {
      assert scoped[..i + 1][..i] == scoped[..i];
      if !IsMatched(scoped[i], matched) {
        targets := targets + [CloudTarget(scoped[i], s)];
      }
    }
    assert scoped[..|scoped|] == scoped;
  }

  /** `discoverReconcileTargets`; `None` when the scope names nothing to select. */
  method DiscoverReconcileTargets(state: Option<StateExport>, cloud: seq<CloudResource>, s: DiscoveryScope,
                                  refOf: Identity -> string)
    returns (r: Option<Discovered>)
    ensures r.None? <==> !HasSelector(s)
    ensures r.Some? ==> r.value == Discover(StateResources(state), cloud, s, refOf)
  {
    if !HasSelector(s) {
      return None;
    }
    hide InScopeCloud, ExcludedCloud, LastWithId, MatchedIds, StateTargets, CloudTargets;
    var resources := StateResources(state);
    var scoped, diagnostics := FilterCloud(cloud, s, refOf);
    var byId := IndexCloud(scoped);
    var stateTargets, matched := JoinState(resources, s, scoped, byId);
    var cloudTargets := AddCloud(scoped, s, matched);
    r := Some(Discovered(Sort(stateTargets + cloudTargets, TargetLe), diagnostics));
  }
}
