// packages/drift/src/discovery.ts: selectors, scope tests and targets written out
// in terms of the fields of state, inventory and scope.
module DiscoveryRules {
  import opened Wrappers
  import opened Json
  import opened Text
  import opened Sorting
  import opened DriftTypes
  import opened Discovery
  import opened ReconcilerRules
  import opened ReconcilerActions

  // ----- what is read of the state

  /** The list of the deployment wins over the plain one; with neither there is nothing. */
  lemma StateListIs(plain: Option<seq<StateResource>>, deployed: seq<StateResource>)
    ensures StateResources(Some(StateExport(plain, Some(deployed)))) == deployed
    ensures StateResources(Some(StateExport(plain, None))) == match plain case Some(list) => list case None => []
    ensures StateResources(None) == []
  {
  }

  const ID_OUTPUTS := ["bucket", "name", "arn", "id"]

  ghost predicate HasOutput(r: StateResource, key: string, id: string) {
    key in r.outputs && r.outputs[key] == Str(id) && id != ""
  }

  ghost predicate LacksOutput(r: StateResource, key: string) { forall id :: !HasOutput(r, key, id) }

  /** The resource's own id, or else its first output that is a text other than the empty one. */
  ghost predicate IsPhysicalId(r: StateResource, id: string) {
    || (r.id == Some(id) && id != "")
    || (r.id in {None, Some("")}
        && exists k | 0 <= k < |ID_OUTPUTS| ::
             HasOutput(r, ID_OUTPUTS[k], id) && forall j | 0 <= j < k :: LacksOutput(r, ID_OUTPUTS[j]))
  }

  lemma OutputIff(r: StateResource, key: string)
    ensures forall id :: TextOutput(r, key) == Some(id) <==> HasOutput(r, key, id)
    ensures TextOutput(r, key) == None <==> LacksOutput(r, key)
  {
    if TextOutput(r, key).Some? {
      assert HasOutput(r, key, TextOutput(r, key).value);
    }
  }

  lemma IdOutputs()
    ensures |ID_OUTPUTS| == 4
    ensures ID_OUTPUTS[0] == "bucket" && ID_OUTPUTS[1] == "name" && ID_OUTPUTS[2] == "arn" && ID_OUTPUTS[3] == "id"
  {
  }

  lemma PhysicalIdIff(r: StateResource, id: string)
    ensures StatePhysicalId(r) == Some(id) <==> IsPhysicalId(r, id)
  {
    IdOutputs();
    OutputIff(r, "bucket");
    OutputIff(r, "name");
    OutputIff(r, "arn");
    OutputIff(r, "id");
    hide TextOutput, HasOutput, LacksOutput, ID_OUTPUTS;
    var k := if TextOutput(r, "bucket").Some? then 0 else if TextOutput(r, "name").Some? then 1
             else if TextOutput(r, "arn").Some? then 2 else 3;
    FirstOutput(r, k);
  }

  lemma FirstOutput(r: StateResource, k: nat)
    requires k < |ID_OUTPUTS| && forall j | 0 <= j < k :: LacksOutput(r, ID_OUTPUTS[j])
    ensures forall i, id | 0 <= i < k :: !HasOutput(r, ID_OUTPUTS[i], id)
  {
    hide ID_OUTPUTS, HasOutput;
    assert forall i, id | 0 <= i < k :: LacksOutput(r, ID_OUTPUTS[i]) ==> !HasOutput(r, ID_OUTPUTS[i], id);
  }

  // ----- the scope

  /** Some selector is given: a prefix, even the empty one, or an element of one of the four lists. */
  lemma SelectorIff(s: DiscoveryScope)
    ensures HasSelector(s) <==>
            || s.scope.resourcePrefix != None
            || (exists t :: s.tags.Some? && t in s.tags.value)
            || (exists u :: s.urns.Some? && u in s.urns.value)
            || (exists p :: s.physicalIds.Some? && p in s.physicalIds.value)
            || (exists k :: s.resourceTypes.Some? && k in s.resourceTypes.value)
  {
    assert s.tags.Some? && s.tags.value != [] ==> s.tags.value[0] in s.tags.value;
    assert NonEmpty(s.urns) ==> s.urns.value[0] in s.urns.value;
    assert NonEmpty(s.physicalIds) ==> s.physicalIds.value[0] in s.physicalIds.value;
    assert NonEmpty(s.resourceTypes) ==> s.resourceTypes.value[0] in s.resourceTypes.value;
  }

  /** A list is given and a value known, and the value is none of the list. */
  predicate Misses(list: Option<seq<string>>, value: Option<string>) {
    list.Some? && value.Some? && forall i | 0 <= i < |list.value| :: list.value[i] != value.value
  }

  lemma ExcludesIff(list: Option<seq<string>>, value: Option<string>)
    ensures Excludes(list, value) <==> Misses(list, value)
  {
  }

  /** The resource carries every tag of the selector. */
  ghost predicate Carries(c: Identity, selector: Tags) {
    c.tags.Some? && forall i | 0 <= i < |selector| :: TagIs(c, selector[i].0, selector[i].1)
  }

  lemma CarriesIff(c: Identity, selector: Tags)
    ensures MatchesTags(c.tags, selector) <==> Carries(c, selector)
  {
    if c.tags.Some? {
      forall i | 0 <= i < |selector|
        ensures Lookup(c.tags.value, selector[i].0) == Some(selector[i].1) <==> TagIs(c, selector[i].0, selector[i].1)
      {
        LookupIff(c.tags.value, selector[i].0, selector[i].1);
      }
      hide Lookup, TagIs;
      if MatchesTags(c.tags, selector) {
        assert forall i | 0 <= i < |selector| :: selector[i] in selector;
      }
    }
  }

  predicate IdMisses(s: DiscoveryScope, id: Option<string>) {
    Misses(s.physicalIds, Some(match id case Some(x) => x case None => ""))
  }

  /** Why an inventory entry is left out; the tests are made in this order. */
  ghost predicate LeftOutFor(c: Identity, s: DiscoveryScope, reason: OutReason) {
    var account, region, kind, id :=
      Misses(s.scope.accountIds, c.accountId), Misses(s.scope.regions, c.region), Misses(s.resourceTypes, Some(c.kind)),
      IdMisses(s, c.physicalId);
    var prefix := s.scope.resourcePrefix.Some? && !CarriesPrefix(c, s.scope.resourcePrefix.value);
    match reason
    case AccountOut => account
    case RegionOut => !account && region
    case TypeOut => !account && !region && kind
    case PrefixOut => !account && !region && !kind && (id || prefix)
    case TagOut =>
      !account && !region && !kind && !id && !prefix && s.tags.Some? && !Carries(c, s.tags.value)
  }

  lemma LeftOutIff(c: Identity, s: DiscoveryScope, reason: OutReason)
    ensures OutOfScope(c, s) == Some(reason) <==> LeftOutFor(c, s, reason)
  {
    if s.scope.resourcePrefix.Some? {
      CarriesPrefixIff(c, s.scope.resourcePrefix.value);
    }
    if s.tags.Some? {
      CarriesIff(c, s.tags.value);
    }
    hide MatchesTags, HasPrefix, Carries, CarriesPrefix;
  }

  /** The state's own scope test: no account, region or tag, and no `Name` tag for the prefix. */
  ghost predicate StateFits(r: StateResource, s: DiscoveryScope) {
    && !Misses(s.urns, Some(r.urn)) && !Misses(s.resourceTypes, Some(r.kind))
    && (s.physicalIds.Some? ==>
          exists id :: id in s.physicalIds.value && (IsPhysicalId(r, id) || (id == "" && IsUnnamed(r))))
    && (s.scope.resourcePrefix.Some? ==>
          forall id | IsPhysicalId(r, id) :: exists rest :: id == s.scope.resourcePrefix.value + rest)
  }

  ghost predicate IsUnnamed(r: StateResource) { forall id :: !IsPhysicalId(r, id) }

  lemma StateFitsIff(r: StateResource, s: DiscoveryScope)
    ensures StateInScope(r, s) <==> StateFits(r, s)
  {
    forall id ensures StatePhysicalId(r) == Some(id) <==> IsPhysicalId(r, id) {
      PhysicalIdIff(r, id);
    }
    hide StatePhysicalId, IsPhysicalId;
    var id := StatePhysicalId(r);
    if id.Some? && s.scope.resourcePrefix.Some? {
      var prefix := s.scope.resourcePrefix.value;
      assert StartsWith(id.value, prefix) ==> id.value == prefix + id.value[|prefix|..];
    }
    assert id.Some? ==> IsPhysicalId(r, id.value);
    assert id.None? ==> IsUnnamed(r);
  }

  /** Of several entries with one physical ID, the last one listed. */
  lemma {:induction false} LastWithIdIff(cloud: seq<CloudResource>, id: string, c: CloudResource)
    ensures LastWithId(cloud, id) == Some(c) <==>
            exists i | 0 <= i < |cloud| ::
              && cloud[i] == c && c.identity.physicalId == Some(id)
              && forall j | i < j < |cloud| :: cloud[j].identity.physicalId != Some(id)
  {
    if cloud != [] {
      var n := |cloud| - 1;
      LastWithIdIff(cloud[..n], id, c);
      if cloud[n].identity.physicalId != Some(id) && LastWithId(cloud, id) == Some(c) {
        var i :| 0 <= i < n && cloud[..n][i] == c && c.identity.physicalId == Some(id)
                 && forall j | i < j < n :: cloud[..n][j].identity.physicalId != Some(id);
        assert forall j | i < j < n :: cloud[j] == cloud[..n][j];
      }
    }
  }

  // ----- the diagnostics

  ghost predicate LeftOut(cloud: seq<CloudResource>, s: DiscoveryScope, refOf: Identity -> string, d: Diagnostic) {
    exists c :: c in cloud && LeftOutFor(c.identity, s, d.reason) && d.ref == refOf(c.identity)
  }

  lemma LeftOutNext(cloud: seq<CloudResource>, last: CloudResource, s: DiscoveryScope, refOf: Identity -> string,
                    d: Diagnostic)
    ensures LeftOut(cloud + [last], s, refOf, d) <==>
            LeftOut(cloud, s, refOf, d) || (LeftOutFor(last.identity, s, d.reason) && d.ref == refOf(last.identity))
  {
    hide LeftOutFor;
    assert forall c :: c in cloud + [last] <==> c in cloud || c == last;
  }

  /** The diagnostics are the entries left out, each with its reason. */
  lemma {:induction false} DiagnosticsIff(cloud: seq<CloudResource>, s: DiscoveryScope, refOf: Identity -> string,
                                          d: Diagnostic)
    ensures d in Diagnose(ExcludedCloud(cloud, s), s, refOf) <==> LeftOut(cloud, s, refOf, d)
  {
    hide OutOfScope, LeftOutFor, LeftOut;
    if cloud == [] {
      NothingLeftOut(s, refOf, d);
    } else {
      DiagnosticsIff(cloud[..|cloud| - 1], s, refOf, d);
      DiagnosticsNext(cloud, s, refOf, d);
    }
  }

  lemma DiagnosticsNext(cloud: seq<CloudResource>, s: DiscoveryScope, refOf: Identity -> string, d: Diagnostic)
    requires cloud != []
    requires var front := cloud[..|cloud| - 1];
             d in Diagnose(ExcludedCloud(front, s), s, refOf) <==> LeftOut(front, s, refOf, d)
    ensures d in Diagnose(ExcludedCloud(cloud, s), s, refOf) <==> LeftOut(cloud, s, refOf, d)
  {
    hide OutOfScope, LeftOutFor, LeftOut, Diagnose, ExcludedCloud;
    var n := |cloud| - 1;
    ExcludedNext(cloud, n, s, refOf);
    assert cloud[..n + 1] == cloud && cloud == cloud[..n] + [cloud[n]];
    LeftOutIff(cloud[n].identity, s, d.reason);
    LeftOutNext(cloud[..n], cloud[n], s, refOf, d);
  }

  lemma NothingLeftOut(s: DiscoveryScope, refOf: Identity -> string, d: Diagnostic)
    ensures !LeftOut([], s, refOf, d)
  {
  }

  // ----- the targets

  /** Every field of the target of a state resource. */
  lemma StateTargetIs(r: StateResource, cloud: Option<CloudResource>)
    ensures var t := StateTarget(r, cloud);
            && t.inState && t.existsInCloud == cloud.Some?
            && t.relationship == (if cloud.Some? then Some(StateOwned) else Some(StateMissing))
            && t.ownership == [Evidence(PulumiState, r.urn, High)] && t.supportedActions == None
            && t.identity.kind == r.kind && t.identity.urn == Some(r.urn)
            && (forall id :: t.identity.physicalId == Some(id) <==> IsPhysicalId(r, id))
            && (cloud.Some? ==>
                  var c := cloud.value.identity;
                  && t.identity.region == c.region && t.identity.accountId == c.accountId && t.identity.tags == c.tags
                  && t.identity.createdAt == c.createdAt)
            && (cloud.None? ==>
                  t.identity.region == None && t.identity.accountId == None && t.identity.tags == None
                  && t.identity.createdAt == None)
            && (t.identity.singleton == Some(true) <==> IsMarked(cloud) || IsGuardType(r.kind))
            && (t.identity.singleton == Some(false) ==> cloud.Some? && cloud.value.identity.singleton == Some(false))
  {
    forall id ensures StatePhysicalId(r) == Some(id) <==> IsPhysicalId(r, id) {
      PhysicalIdIff(r, id);
    }
    hide StatePhysicalId, IsPhysicalId;
  }

  predicate IsMarked(cloud: Option<CloudResource>) { cloud.Some? && cloud.value.identity.singleton == Some(true) }

  predicate IsGuardType(kind: string) {
    kind == "aws:guardduty/detector:Detector" || kind == "aws:securityhub/account:Account"
  }

  /** Tags with a `hulumi:` key are evidence, and no others are. */
  lemma {:induction false} TagEvidenceIff(tags: Tags, e: Evidence)
    ensures e in TagEvidence(tags) <==>
            exists i, rest | 0 <= i < |tags| ::
              tags[i].0 == "hulumi:" + rest && e == Evidence(Tag, "hulumi:" + rest + "=" + tags[i].1, High)
  {
    if tags != [] {
      TagEvidenceIff(tags[1..], e);
      var key := tags[0].0;
      hide TAG_PREFIX;
      OwnTag(tags[0], e, "hulumi:");
      if i, rest :| 0 <= i < |tags| && tags[i].0 == "hulumi:" + rest
                    && e == Evidence(Tag, "hulumi:" + rest + "=" + tags[i].1, High) {
        if i > 0 {
          assert tags[1..][i - 1] == tags[i];
        }
      }
    }
  }

  lemma OwnTag(tag: (string, string), e: Evidence, prefix: string)
    requires prefix == TAG_PREFIX
    ensures StartsWith(tag.0, prefix) && e == Evidence(Tag, tag.0 + ['='] + tag.1, High) <==>
            exists rest :: tag.0 == prefix + rest && e == Evidence(Tag, prefix + rest + "=" + tag.1, High)
  {
    if StartsWith(tag.0, prefix) {
      assert tag.0 == prefix + tag.0[|prefix|..];
    }
    assert "=" == ['='];
  }

  /** The evidence found for an unclaimed inventory entry. */
  ghost predicate IsEvidence(c: CloudResource, s: DiscoveryScope, e: Evidence) {
    || e in c.ownership
    || (s.scope.resourcePrefix.Some? && CarriesPrefix(c.identity, s.scope.resourcePrefix.value)
        && e == Evidence(NamePrefix, match c.identity.physicalId case Some(id) => id
                                     case None => s.scope.resourcePrefix.value, High))
    || (c.identity.tags.Some? && IsTagEvidence(c.identity.tags.value, e))
  }

  ghost predicate IsTagEvidence(tags: Tags, e: Evidence) {
    exists i, rest | 0 <= i < |tags| ::
      tags[i].0 == "hulumi:" + rest && e == Evidence(Tag, "hulumi:" + rest + "=" + tags[i].1, High)
  }

  lemma EvidenceIff(c: CloudResource, s: DiscoveryScope, e: Evidence)
    ensures e in OwnershipEvidence(c, s) <==> IsEvidence(c, s, e)
  {
    if s.scope.resourcePrefix.Some? {
      CarriesPrefixIff(c.identity, s.scope.resourcePrefix.value);
    }
    TagEvidenceIff(OrElse(c.identity.tags, []), e);
    hide TagEvidence, HasPrefix, CarriesPrefix;
  }

  /** Every field of the target of an inventory entry. */
  lemma CloudTargetIs(c: CloudResource, s: DiscoveryScope)
    ensures var t := CloudTarget(c, s);
            && !t.inState && t.existsInCloud && t.supportedActions == None
            && t.identity.(singleton := None) == c.identity.(singleton := None)
            && t.identity.singleton == (if IsGuardType(c.identity.kind) then Some(true) else c.identity.singleton)
            && (forall e :: e in t.ownership <==> IsEvidence(c, s, e))
            && (t.relationship == Some(SharedSingleton) <==>
                  IsGuardType(c.identity.kind) || c.identity.singleton == Some(true))
            && (t.relationship == Some(UnknownRelationship) <==>
                  !IsGuardType(c.identity.kind) && c.identity.singleton != Some(true)
                    && forall e :: !IsEvidence(c, s, e))
            && t.relationship in {Some(SharedSingleton), Some(UnknownRelationship), Some(CloudOnly)}
  {
    forall e ensures e in OwnershipEvidence(c, s) <==> IsEvidence(c, s, e) {
      EvidenceIff(c, s, e);
    }
    hide OwnershipEvidence, IsEvidence;
    var found := OwnershipEvidence(c, s);
    assert found != [] ==> found[0] in found;
  }

  // ----- the order of the targets

  /** The relationships in the order of their names. */
  const RELATIONSHIPS := [CloudOnly, SharedSingleton, StateMissing, StateOwned, UnknownRelationship]

  ghost predicate Leads(k: Relationship, l: Relationship) {
    forall a: Target, b: Target | a.relationship == Some(k) && b.relationship == Some(l) :: !TargetLe(b, a)
  }

  lemma LeadsBy(k: Relationship, l: Relationship, p: string, s: string, t: string)
    requires RelationshipName(Some(k)) == p + s && RelationshipName(Some(l)) == p + t && s != "" && t != ""
             && s[0] < t[0]
    ensures Leads(k, l)
  {
    forall a: Target, b: Target | a.relationship == Some(k) && b.relationship == Some(l) ensures !TargetLe(b, a) {
      var x, y := RelationshipName(Some(k)), RelationshipName(Some(l));
      var rest := AfterRelationship(a);
      var more := AfterRelationship(b);
      hide LexLe, RelationshipName, TargetKey;
      NamesBefore(x, y, p, s, t, rest, more);
    }
  }

  lemma AfterRelationship(t: Target) returns (rest: string)
    ensures TargetKey(t) == RelationshipName(t.relationship) + rest
  {
    hide RelationshipName;
    rest := [':'] + t.identity.kind + [':'] + OrElse(t.identity.urn, "") + [':'] + OrElse(t.identity.physicalId, "");
  }

  lemma CloudFirst()
    ensures Leads(CloudOnly, SharedSingleton) && Leads(SharedSingleton, StateMissing)
  {
    hide Leads;
    LeadsBy(CloudOnly, SharedSingleton, "", "cloud-only", "shared-singleton");
    LeadsBy(SharedSingleton, StateMissing, "s", "hared-singleton", "tate-missing");
  }

  lemma StateLater()
    ensures Leads(StateMissing, StateOwned) && Leads(StateOwned, UnknownRelationship)
  {
    hide Leads;
    LeadsBy(StateMissing, StateOwned, "state-", "missing", "owned");
    LeadsBy(StateOwned, UnknownRelationship, "", "state-owned", "unknown");
  }

  lemma LeadsTransitive(k: Relationship, l: Relationship, m: Relationship)
    requires Leads(k, l) && Leads(l, m)
    ensures Leads(k, m)
  {
    LexOrder();
    hide LexLe, TargetKey;
    forall a: Target, b: Target | a.relationship == Some(k) && b.relationship == Some(m) ensures !TargetLe(b, a) {
      var c := a.(relationship := Some(l));
      assert !TargetLe(c, a) && !TargetLe(b, c);
      assert LexLe(TargetKey(a), TargetKey(c));
    }
  }

  lemma {:induction false} RelationshipOrder(i: nat, j: nat)
    requires i < j < |RELATIONSHIPS|
    ensures Leads(RELATIONSHIPS[i], RELATIONSHIPS[j])
    decreases j
  {
    CloudFirst();
    StateLater();
    hide Leads;
    if i < j - 1 {
      RelationshipOrder(i, j - 1);
      LeadsTransitive(RELATIONSHIPS[i], RELATIONSHIPS[j - 1], RELATIONSHIPS[j]);
    }
  }

  /** Discovered targets stand in the order of their relationships. */
  lemma DiscoveredOrder(resources: seq<StateResource>, cloud: seq<CloudResource>, s: DiscoveryScope,
                        refOf: Identity -> string, m: nat, n: nat, i: nat, j: nat)
    requires m < n < |Discover(resources, cloud, s, refOf).targets| && i < |RELATIONSHIPS| && j < |RELATIONSHIPS|
    requires Discover(resources, cloud, s, refOf).targets[m].relationship == Some(RELATIONSHIPS[i])
    requires Discover(resources, cloud, s, refOf).targets[n].relationship == Some(RELATIONSHIPS[j])
    ensures i <= j
  {
    var scoped := InScopeCloud(cloud, s);
    var all := StateTargets(resources, s, scoped) + CloudTargets(scoped, s, MatchedIds(resources, s, scoped));
    LexOrder();
    hide LexLe, TargetKey, StateTargets, CloudTargets, MatchedIds, InScopeCloud, Sort, RELATIONSHIPS;
    assert Total(TargetLe) && Transitive(TargetLe) by {
      forall a, b ensures TargetLe(a, b) || TargetLe(b, a) {
        assert LexLe(TargetKey(a), TargetKey(b)) || LexLe(TargetKey(b), TargetKey(a));
      }
      forall a, b, c | TargetLe(a, b) && TargetLe(b, c) ensures TargetLe(a, c) {
        assert LexLe(TargetKey(a), TargetKey(b)) && LexLe(TargetKey(b), TargetKey(c));
      }
    }
    SortSorted(all, TargetLe);
    if j < i {
      RelationshipOrder(j, i);
    }
  }
}
