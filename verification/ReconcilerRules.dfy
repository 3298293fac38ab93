// packages/drift/src/reconciler.ts: the guardrails and the classification written
// out in terms of the fields of request and target.
module ReconcilerRules {
  import opened Wrappers
  import opened Text
  import opened DriftTypes
  import opened Reconciler
  import opened ReconcilerPlan
  import opened ReconcilerRun

  // ----- place, age and ownership

  /** The value of a tag: that of its first occurrence, or none. */
  ghost predicate TagIs(identity: Identity, key: string, value: string) {
    && identity.tags.Some?
    && exists i | 0 <= i < |identity.tags.value| ::
         && identity.tags.value[i] == (key, value)
         && forall j | 0 <= j < i :: identity.tags.value[j].0 != key
  }

  lemma {:induction false} LookupIff(tags: Tags, key: string, value: string)
    ensures Lookup(tags, key) == Some(value) <==>
            exists i | 0 <= i < |tags| :: tags[i] == (key, value) && forall j | 0 <= j < i :: tags[j].0 != key
  {
    if tags != [] {
      LookupIff(tags[1..], key, value);
      if i :| 0 <= i < |tags| && tags[i] == (key, value) && forall j | 0 <= j < i :: tags[j].0 != key {
        if i > 0 {
          assert tags[1..][i - 1] == tags[i];
          assert forall j | 0 <= j < i - 1 :: tags[1..][j] == tags[j + 1];
        }
      }
      if Lookup(tags, key) == Some(value) && tags[0].0 != key {
        var i :| 0 <= i < |tags| - 1 && tags[1..][i] == (key, value) && forall j | 0 <= j < i :: tags[1..][j].0 != key;
        assert tags[i + 1] == (key, value);
        assert forall j | 0 < j < i + 1 :: tags[j] == tags[1..][j - 1];
      }
    }
  }

  /** The physical ID or the `Name` tag begins with the prefix; what is absent counts as the empty text. */
  ghost predicate CarriesPrefix(identity: Identity, prefix: string) {
    || prefix == ""
    || (identity.physicalId.Some? && exists rest :: identity.physicalId.value == prefix + rest)
    || exists rest :: TagIs(identity, "Name", prefix + rest)
  }

  lemma NameTagIs(identity: Identity, value: string)
    ensures NameTag(identity) == value && value != "" ==> TagIs(identity, "Name", value)
    ensures TagIs(identity, "Name", value) ==> NameTag(identity) == value
  {
    if identity.tags.Some? {
      LookupIff(identity.tags.value, "Name", value);
    }
  }

  lemma CarriesPrefixIff(identity: Identity, prefix: string)
    ensures HasPrefix(identity, prefix) <==> CarriesPrefix(identity, prefix)
  {
    NameTagIs(identity, NameTag(identity));
    if StartsWith(NameTag(identity), prefix) && prefix != "" {
      assert NameTag(identity) == prefix + NameTag(identity)[|prefix|..];
    }
    if StartsWith(OrElse(identity.physicalId, ""), prefix) && prefix != "" {
      assert identity.physicalId.value == prefix + identity.physicalId.value[|prefix|..];
    }
    if rest :| TagIs(identity, "Name", prefix + rest) {
      NameTagIs(identity, prefix + rest);
    }
  }

  predicate ListAllows(value: Option<string>, allowed: Option<seq<string>>) {
    allowed.Some? && allowed.value != [] ==>
      value.Some? && exists i | 0 <= i < |allowed.value| :: allowed.value[i] == value.value
  }

  /**
   * With a positive minimum and a creation time, at least that many minutes have passed since; no date never
   * passes.
   */
  predicate OldEnough(createdAt: Option<Instant>, minAgeMinutes: Option<int>, now: int) {
    minAgeMinutes.Some? && minAgeMinutes.value > 0 && createdAt.Some? ==>
      createdAt.value.At? && createdAt.value.ms + 60000 * minAgeMinutes.value <= now
  }

  /** Only resources that the cloud alone knows need a prefix and enough different signals of ownership. */
  predicate SufficientlyOwned(target: Target, scope: Scope) {
    !target.inState && target.existsInCloud ==>
      && scope.resourcePrefix.Some?
      && |set e | e in target.ownership :: e.signal|
         >= match scope.ownershipMinSignals case None => 2 case Some(m) => m
  }

  predicate SingletonsAllowed(identity: Identity, scope: Scope) {
    || scope.allowSingletonDelete
    || (identity.singleton != Some(true) && identity.kind != "aws:guardduty/detector:Detector"
        && identity.kind != "aws:securityhub/account:Account")
  }

  /** What a target must be for a change, and in which modes the change is made. */
  predicate Fits(target: Target, choice: Choice, mode: Mode, executors: set<ActionType>) {
    var known, seen := target.inState, target.existsInCloud;
    match choice
    case RefreshState =>
      known && seen && "refreshState" in OrElse(target.supportedActions, []) && mode in {StateOnly, ReconcileAll}
    case StateDelete => known && !seen && mode in {StateOnly, ReconcileAll}
    case ImportToState =>
      !known && seen && "importToState" in OrElse(target.supportedActions, []) && mode in {AdoptOnly, ReconcileAll}
    case DeleteCloudResource =>
      && !known && seen && "importToState" !in OrElse(target.supportedActions, []) && mode in {SweepOnly, ReconcileAll}
      && (Mentions(target.identity.kind, "aws:s3/bucket")
          || exists family | family in executors :: DeleteFamily(target.identity.kind) == Some(family))
    case _ => false
  }

  /** Exactly when a change may be made, in terms of the fields. */
  lemma MayChangeIff(target: Target, choice: Choice, scope: Scope, mode: Mode, now: int, executors: set<ActionType>)
    ensures MayChange(target, choice, scope, mode, now, executors) <==>
            && Fits(target, choice, mode, executors)
            && (scope.resourcePrefix.Some? ==> CarriesPrefix(target.identity, scope.resourcePrefix.value))
            && ListAllows(target.identity.region, scope.regions)
            && ListAllows(target.identity.accountId, scope.accountIds)
            && OldEnough(target.identity.createdAt, scope.minAgeMinutes, now)
            && SufficientlyOwned(target, scope) && SingletonsAllowed(target.identity, scope)
  {
    if scope.resourcePrefix.Some? {
      CarriesPrefixIff(target.identity, scope.resourcePrefix.value);
    }
    assert Signals(target) == set e | e in target.ownership :: e.signal;
    hide Mentions, DeleteFamily, HasPrefix, CarriesPrefix;
  }

  /** Waiting never withdraws a permission. */
  lemma WaitingKeepsPermission(target: Target, choice: Choice, scope: Scope, mode: Mode, now: int, later: int,
                               executors: set<ActionType>)
    requires MayChange(target, choice, scope, mode, now, executors) && now <= later
    ensures MayChange(target, choice, scope, mode, later, executors)
  {
    MayChangeIff(target, choice, scope, mode, now, executors);
    MayChangeIff(target, choice, scope, mode, later, executors);
    hide MayChange, Fits, CarriesPrefix, ListAllows, SufficientlyOwned, SingletonsAllowed;
  }

  /** A target that only its age keeps back may be changed exactly from the minute it is old enough. */
  lemma AgeDecidesIff(target: Target, choice: Choice, scope: Scope, mode: Mode, now: int, executors: set<ActionType>)
    requires MayChange(target, choice, scope.(minAgeMinutes := None), mode, now, executors)
    requires scope.minAgeMinutes.Some? && scope.minAgeMinutes.value > 0
    requires target.identity.createdAt.Some?
    ensures target.identity.createdAt.value.At? ==>
              (MayChange(target, choice, scope, mode, now, executors) <==>
               now - target.identity.createdAt.value.ms >= 60000 * scope.minAgeMinutes.value)
    ensures target.identity.createdAt.value.Unparsable? ==> !MayChange(target, choice, scope, mode, now, executors)
  {
    MayChangeIff(target, choice, scope, mode, now, executors);
    MayChangeIff(target, choice, scope.(minAgeMinutes := None), mode, now, executors);
    AgeAside(target, scope);
    hide MayChange, Fits, CarriesPrefix, ListAllows, SingletonsAllowed, SufficientlyOwned;
  }

  lemma AgeAside(target: Target, scope: Scope)
    ensures SufficientlyOwned(target, scope) == SufficientlyOwned(target, scope.(minAgeMinutes := None))
    ensures SingletonsAllowed(target.identity, scope)
            == SingletonsAllowed(target.identity, scope.(minAgeMinutes := None))
  {
  }

  /** Whatever reached an executor was old enough when it was planned. */
  lemma ExecutedIsOldEnough(requests: seq<Request>, executors: set<ActionType>, a: Action) returns (r: Request)
    requires Entitled(requests, executors, a)
    ensures r in requests && OldEnough(a.resource.createdAt, r.scope.minAgeMinutes, r.now)
  {
    var q, i: nat :| q in requests && i < |q.targets| && EntitledBy(q, i, executors, a);
    r := q;
    NormalizedAge(r.scope);
    MayChangeIff(r.targets[i], a.recommended, NormalizeScope(r.scope).value, r.mode, r.now, executors);
    hide MayChange, Fits, CarriesPrefix, ListAllows, SufficientlyOwned, SingletonsAllowed, NormalizeScope;
  }

  lemma NormalizedAge(scope: Scope)
    requires NormalizeScope(scope).Some?
    ensures NormalizeScope(scope).value.minAgeMinutes == scope.minAgeMinutes
  {
    hide Trim, IsBroadPrefix;
  }
}
