// packages/k8s-baseline/src/trusted-node-label-reconciler-core.ts: the texts its
// regular expressions match, built from alphabets written out, and its bounds.
module KernelTexts {
  import opened Wrappers
  import opened Text
  import opened TextRules
  import opened TrustedNodeLabel
  import opened Attestation

  // ----- alphabets

  const HEX_DIGITS := "0123456789abcdef"

  predicate AllIn(s: string, alphabet: string) { forall c | c in s :: c in alphabet }

  lemma HexIff(c: char)
    ensures LowerHex(c) <==> c in HEX_DIGITS
  {
    if '0' <= c <= '9' {
      assert HEX_DIGITS[(c - '0') as nat] == c;
    }
    if 'a' <= c <= 'f' {
      assert HEX_DIGITS[10 + (c - 'a') as nat] == c;
    }
  }

  lemma LabelCharIff(c: char)
    ensures LabelChar(c) <==> IsLetterOrDigit(c) || c in "_.-"
    ensures LabelChar(c) || c == ':' || c == '/' <==> IsLetterOrDigit(c) || c in "_.:/-"
    ensures IsAlnum(c) <==> IsLetterOrDigit(c)
    ensures LowerAlnum(c) <==> c in LOWER_LETTERS || c in DIGITS
  {
    AlnumIff(c);
    LowerIff(c);
    DigitIff(c);
    LabelMarks(c);
    hide UPPER_LETTERS, LOWER_LETTERS, DIGITS, IsAlnum, IsLower, IsDigit;
  }

  lemma LabelMarks(c: char)
    ensures c in "_.-" <==> c == '_' || c == '.' || c == '-'
    ensures c in "_.:/-" <==> c == '_' || c == '.' || c == '-' || c == ':' || c == '/'
  {
  }

  // ----- identifiers

  /** `i-` and eight or seventeen hexadecimal digits. */
  lemma InstanceIdIff(s: string)
    ensures IsInstanceId(s) <==> exists hex :: s == "i-" + hex && (|hex| == 8 || |hex| == 17) && AllIn(hex, HEX_DIGITS)
  {
    forall c ensures LowerHex(c) <==> c in HEX_DIGITS {
      HexIff(c);
    }
    hide LowerHex, HEX_DIGITS;
    if IsInstanceId(s) {
      var hex := s[2..];
      assert s == "i-" + hex;
      forall c | c in hex ensures c in HEX_DIGITS {
        var i :| 0 <= i < |hex| && hex[i] == c;
        assert s[i + 2] == c;
      }
    }
    if hex :| s == "i-" + hex && (|hex| == 8 || |hex| == 17) && AllIn(hex, HEX_DIGITS) {
      assert forall i | 2 <= i < |s| :: s[i] == hex[i - 2] && hex[i - 2] in hex;
    }
  }

  lemma AccountIdIff(s: string)
    ensures IsAccountId(s) <==> |s| == 12 && AllIn(s, DIGITS)
  {
    forall c ensures IsDigit(c) <==> c in DIGITS {
      DigitIff(c);
    }
    hide DIGITS, IsDigit;
    assert forall i | 0 <= i < |s| :: s[i] in s;
  }

  /** One to 63 letters, digits, underscores, dots and dashes, a letter or digit at both ends. */
  ghost predicate IsName(s: string) {
    && 1 <= |s| <= 63 && IsLetterOrDigit(s[0]) && IsLetterOrDigit(s[|s| - 1])
    && forall i | 0 <= i < |s| :: IsLetterOrDigit(s[i]) || s[i] in "_.-"
  }

  lemma LabelTextIff(s: string)
    ensures IsLabelText(s) <==> IsName(s)
  {
    forall c ensures LabelChar(c) <==> IsLetterOrDigit(c) || c in "_.-" ensures IsAlnum(c) <==> IsLetterOrDigit(c) {
      LabelCharIff(c);
    }
    hide LabelChar, IsLetterOrDigit, IsAlnum;
  }

  /** One to 100 letters, digits and marks, beginning with a letter or digit. */
  ghost predicate IsIdentifier(s: string) {
    && 1 <= |s| <= 100 && IsLetterOrDigit(s[0])
    && forall i | 0 <= i < |s| :: IsLetterOrDigit(s[i]) || s[i] in "_.:/-"
  }

  lemma IdentifierIff(s: string)
    ensures IsBoundedIdentifier(s) <==> IsIdentifier(s)
  {
    forall c
      ensures LabelChar(c) || c == ':' || c == '/' <==> IsLetterOrDigit(c) || c in "_.:/-"
      ensures IsAlnum(c) <==> IsLetterOrDigit(c)
    {
      LabelCharIff(c);
    }
    hide LabelChar, IsLetterOrDigit, IsAlnum;
  }

  /** One to 63 lower-case letters, digits and dashes, no dash at either end. */
  ghost predicate IsDnsName(s: string) {
    && 1 <= |s| <= 63 && s[0] != '-' && s[|s| - 1] != '-'
    && forall i | 0 <= i < |s| :: s[i] in LOWER_LETTERS || s[i] in DIGITS || s[i] == '-'
  }

  lemma DnsLabelIff(s: string)
    ensures IsDnsLabel(s) <==> IsDnsName(s)
  {
    forall c ensures LowerAlnum(c) <==> c in LOWER_LETTERS || c in DIGITS {
      LabelCharIff(c);
    }
    assert !LowerAlnum('-');
    hide LowerAlnum, LOWER_LETTERS, DIGITS;
  }

  // ----- regions and zones

  /** Two letters, an optional `gov`, a word, and the last part, with dashes between them. */
  ghost predicate IsPlacementOf(s: string, last: string) {
    exists land, word ::
      && |land| == 2 && AllIn(land, LOWER_LETTERS) && word != "" && AllIn(word, LOWER_LETTERS)
      && (s == land + "-" + word + "-" + last || s == land + "-gov-" + word + "-" + last)
  }

  lemma AllLowerIff(s: string)
    ensures AllLower(s) <==> s != "" && AllIn(s, LOWER_LETTERS)
    ensures AllLower(s) ==> '-' !in s
  {
    forall c ensures IsLower(c) <==> c in LOWER_LETTERS {
      LowerIff(c);
    }
    assert !IsLower('-');
    hide LOWER_LETTERS, IsLower;
    assert forall i | 0 <= i < |s| :: s[i] in s;
  }

  lemma JoinThree(a: string, b: string, c: string)
    ensures Join([a, b, c], '-') == a + "-" + b + "-" + c
  {
    JoinTwo(b, c);
    assert [a, b, c][1..] == [b, c];
    assert "-" == ['-'];
    assert a + ['-'] + (b + "-" + c) == a + "-" + b + "-" + c;
  }

  lemma JoinTwo(b: string, c: string)
    ensures Join([b, c], '-') == b + "-" + c
  {
    assert [b, c][1..] == [c] && "-" == ['-'];
  }

  lemma JoinFour(a: string, g: string, b: string, c: string)
    ensures Join([a, g, b, c], '-') == a + "-" + g + "-" + b + "-" + c
  {
    JoinThree(g, b, c);
    assert [a, g, b, c][1..] == [g, b, c];
    assert "-" == ['-'];
    hide Join;
    assert a + ['-'] + (g + "-" + b + "-" + c) == a + "-" + g + "-" + b + "-" + c;
  }

  lemma GovText(a: string, b: string, c: string)
    ensures a + "-" + "gov" + "-" + b + "-" + c == a + "-gov-" + b + "-" + c
    ensures '-' !in "gov"
  {
    assert "-gov-" == "-" + "gov" + "-";
  }

  lemma PlacementParts(s: string, land: string, word: string, last: string)
    requires |land| == 2 && AllIn(land, LOWER_LETTERS) && word != "" && AllIn(word, LOWER_LETTERS) && '-' !in last
    ensures s == land + "-" + word + "-" + last ==> Split(s, '-') == [land, word, last]
    ensures s == land + "-gov-" + word + "-" + last ==> Split(s, '-') == [land, "gov", word, last]
  {
    AllLowerIff(land);
    AllLowerIff(word);
    GovText(land, word, last);
    hide AllLower, LOWER_LETTERS, AllIn;
    JoinThree(land, word, last);
    JoinFour(land, "gov", word, last);
    SplitJoin([land, word, last], '-');
    SplitJoin([land, "gov", word, last], '-');
  }

  /** What a text with an acceptable last part looks like; the last part has no dash. */
  lemma PlacementIff(s: string, last: string -> bool)
    requires forall t | last(t) :: '-' !in t
    ensures IsPlacement(s, last) <==> exists t :: last(t) && IsPlacementOf(s, t)
  {
    var parts := Split(s, '-');
    JoinSplit(s, '-');
    if IsPlacement(s, last) {
      PlacementRead(s, parts, last);
    }
    if t :| last(t) && IsPlacementOf(s, t) {
      hide IsPlacement;
      var land, word :|
        && |land| == 2 && AllIn(land, LOWER_LETTERS) && word != "" && AllIn(word, LOWER_LETTERS)
        && (s == land + "-" + word + "-" + t || s == land + "-gov-" + word + "-" + t);
      PlacementParts(s, land, word, t);
      PlacementWritten(s, land, word, t, last);
    }
  }

  lemma PlacementWritten(s: string, land: string, word: string, t: string, last: string -> bool)
    requires |land| == 2 && AllIn(land, LOWER_LETTERS) && word != "" && AllIn(word, LOWER_LETTERS) && last(t)
    requires Split(s, '-') == [land, word, t] || Split(s, '-') == [land, "gov", word, t]
    ensures IsPlacement(s, last)
  {
    AllLowerIff(land);
    AllLowerIff(word);
    hide AllLower, LOWER_LETTERS, AllIn, Split;
  }

  lemma PlacementRead(s: string, parts: seq<string>, last: string -> bool)
    requires IsPlacement(s, last) && parts == Split(s, '-') && Join(parts, '-') == s
    ensures exists t :: last(t) && IsPlacementOf(s, t)
  {
    var n := |parts| - 1;
    AllLowerIff(parts[0]);
    AllLowerIff(parts[n - 1]);
    if n == 2 {
      JoinThree(parts[0], parts[1], parts[2]);
      assert parts == [parts[0], parts[1], parts[2]];
    } else {
      JoinFour(parts[0], parts[1], parts[2], parts[3]);
      assert parts == [parts[0], parts[1], parts[2], parts[3]];
      GovText(parts[0], parts[2], parts[3]);
    }
    hide AllLower, LOWER_LETTERS, AllIn, Split, Join;
    assert last(parts[n]) && IsPlacementOf(s, parts[n]);
  }

  /** A region ends in a digit, a zone in a digit and a letter. */
  lemma RegionIff(s: string)
    ensures IsRegion(s) <==> exists d :: d in DIGITS && IsPlacementOf(s, [d])
  {
    var last := (p: string) => |p| == 1 && IsDigit(p[0]);
    forall c ensures IsDigit(c) <==> c in DIGITS {
      DigitIff(c);
    }
    assert IsRegion(s) == IsPlacement(s, last) by {
      SameTests(s, p => |p| == 1 && IsDigit(p[0]), last);
    }
    hide IsRegion, IsPlacement, IsPlacementOf, DIGITS;
    PlacementIff(s, last);
    if t :| last(t) && IsPlacementOf(s, t) {
      assert t == [t[0]];
    }
    if d :| d in DIGITS && IsPlacementOf(s, [d]) {
      assert last([d]);
    }
  }

  lemma SameTests(s: string, f: string -> bool, g: string -> bool)
    requires forall p :: f(p) == g(p)
    ensures IsPlacement(s, f) == IsPlacement(s, g)
  {
  }

  predicate IsZoneEnd(t: string) { |t| == 2 && t[0] in DIGITS && t[1] in LOWER_LETTERS }

  lemma ZoneIff(s: string)
    ensures IsZone(s) <==> exists t :: IsZoneEnd(t) && IsPlacementOf(s, t)
  {
    var last := (p: string) => |p| == 2 && IsDigit(p[0]) && IsLower(p[1]);
    forall t ensures last(t) <==> IsZoneEnd(t) {
      if |t| == 2 {
        DigitIff(t[0]);
        LowerIff(t[1]);
      }
    }
    hide IsPlacement, IsPlacementOf, IsZoneEnd;
    SameTests(s, p => |p| == 2 && IsDigit(p[0]) && IsLower(p[1]), last);
    PlacementIff(s, last);
  }

  /** A provider ID: a zone and an instance ID behind `aws:///`. */
  lemma ProviderIdIff(s: string, zone: string, instanceId: string)
    ensures ParseProviderId(s) == Some((zone, instanceId)) <==>
            && s == "aws:///" + zone + "/" + instanceId
            && (exists t :: IsZoneEnd(t) && IsPlacementOf(zone, t))
            && (exists hex :: instanceId == "i-" + hex && (|hex| == 8 || |hex| == 17) && AllIn(hex, HEX_DIGITS))
  {
    ProviderCheck(s, zone, instanceId);
    ZoneIff(zone);
    InstanceIdIff(instanceId);
    hide ParseProviderId, IsZone, IsInstanceId, IsPlacementOf, IsZoneEnd, HEX_DIGITS, AllIn;
  }

  // ----- the protected label

  /** Names for Node restriction: that of the cluster's own, or one that ends in it after a dot. */
  ghost predicate IsRestricted(prefix: string) {
    || prefix == "node-restriction.kubernetes.io"
    || exists front :: prefix == front + ".node-restriction.kubernetes.io"
  }

  lemma RestrictedIff(prefix: string)
    ensures prefix == RESTRICTED || EndsWith(prefix, "." + RESTRICTED) <==> IsRestricted(prefix)
  {
    EndsWithIff(prefix, "." + RESTRICTED);
    assert "." + RESTRICTED == ".node-restriction.kubernetes.io";
    hide EndsWith;
  }

  /** A restricted prefix of DNS names with dots between them, a slash, and a name. */
  ghost predicate IsProtectedKey(key: string) {
    exists labels: seq<string>, name ::
      && labels != [] && key == Join(labels, '.') + "/" + name && |Join(labels, '.')| <= 253
      && (forall i | 0 <= i < |labels| :: IsDnsName(labels[i]))
      && IsName(name) && IsRestricted(Join(labels, '.'))
  }

  lemma DnsNameIsWord(s: string)
    requires IsDnsName(s)
    ensures '.' !in s && '/' !in s
  {
    LowerIff('.');
    LowerIff('/');
    DigitIff('.');
    DigitIff('/');
    hide LOWER_LETTERS, DIGITS;
    forall c | c in s ensures c != '.' && c != '/' {
      var i :| 0 <= i < |s| && s[i] == c;
    }
  }

  lemma NameHasNoSlash(s: string)
    requires IsName(s)
    ensures '/' !in s
  {
    LabelTextIff(s);
    hide IsName;
  }

  lemma ProtectedKeyIff(key: string)
    ensures IsValidProtectedLabelKey(key) <==> IsProtectedKey(key)
  {
    if IsValidProtectedLabelKey(key) {
      KeyRead(key);
    }
    if IsProtectedKey(key) {
      KeyWritten(key);
    }
  }

  lemma KeyRead(key: string)
    requires IsValidProtectedLabelKey(key)
    ensures IsProtectedKey(key)
  {
    var parts := Split(key, '/');
    var labels := Split(parts[0], '.');
    JoinSplit(key, '/');
    JoinSplit(parts[0], '.');
    assert parts == [parts[0], parts[1]] && parts[1..] == [parts[1]] && "/" == ['/'];
    assert key == parts[0] + "/" + parts[1];
    LabelTextIff(parts[1]);
    RestrictedIff(parts[0]);
    forall i | 0 <= i < |labels| ensures IsDnsName(labels[i]) {
      DnsLabelIff(labels[i]);
    }
    hide Split, Join, IsDnsLabel, IsDnsName, IsLabelText, IsName, IsRestricted, RESTRICTED;
    assert labels != [] && key == Join(labels, '.') + "/" + parts[1];
  }

  lemma KeyWritten(key: string)
    requires IsProtectedKey(key)
    ensures IsValidProtectedLabelKey(key)
  {
    var labels: seq<string>, name :|
      && labels != [] && key == Join(labels, '.') + "/" + name && |Join(labels, '.')| <= 253
      && (forall i | 0 <= i < |labels| :: IsDnsName(labels[i]))
      && IsName(name) && IsRestricted(Join(labels, '.'));
    var prefix := Join(labels, '.');
    forall i | 0 <= i < |labels| ensures '.' !in labels[i] && '/' !in labels[i] && IsDnsLabel(labels[i]) {
      DnsNameIsWord(labels[i]);
      DnsLabelIff(labels[i]);
    }
    NameHasNoSlash(name);
    LabelTextIff(name);
    RestrictedIff(prefix);
    hide IsDnsName, IsDnsLabel, IsName, IsLabelText, IsRestricted, RESTRICTED, Join, Split, IsValidProtectedLabelKey;
    SplitJoin(labels, '.');
    JoinWithout(labels, '.', '/');
    KeyOf(prefix, name);
  }

  lemma KeyOf(prefix: string, name: string)
    requires '/' !in prefix && '/' !in name && |prefix| <= 253 && IsLabelText(name)
    requires forall i | 0 <= i < |Split(prefix, '.')| :: IsDnsLabel(Split(prefix, '.')[i])
    requires prefix == RESTRICTED || EndsWith(prefix, "." + RESTRICTED)
    ensures IsValidProtectedLabelKey(prefix + "/" + name)
  {
    hide IsDnsLabel, IsLabelText, RESTRICTED, Split, EndsWith;
    SplitPair(prefix, name, '/');
    SplitWord(name, '/');
    assert "/" == ['/'];
    assert Split(prefix + "/" + name, '/') == [prefix, name];
  }

  // ----- shape and bounds of an input

  predicate IsCount(x: Number) { x.Int? && 0 <= x.n <= 9007199254740991 }

  ghost predicate AreNames(values: seq<string>, maximum: nat) {
    && 1 <= |values| <= maximum && (forall v | v in values :: IsIdentifier(v))
    && forall i, j | 0 <= i < j < |values| :: values[i] != values[j]
  }

  ghost predicate TextsFit(p: Policy) {
    && IsIdentifier(p.clusterName) && IsIdentifier(p.nodeGroupName)
    && |p.awsAccountId| == 12 && AllIn(p.awsAccountId, DIGITS)
    && (exists d :: d in DIGITS && IsPlacementOf(p.region, [d]))
    && IsProtectedKey(p.protectedLabelKey) && IsName(p.protectedLabelValue)
  }

  /** Everything asked of a policy, with its numbers. */
  ghost predicate PolicyFits(p: Policy) {
    && TextsFit(p) && AreNames(p.allowedInstanceTypes, 16)
    && 1 <= |p.expectedTaints| <= 16
    && TaintsDistinct(p.expectedTaints) && AreTaints(p.expectedTaints)
    && IsCount(p.maxEvidenceAgeMs) && 1 <= p.maxEvidenceAgeMs.n <= 600000
    && IsCount(p.maxEvidenceSkewMs) && p.maxEvidenceSkewMs.n <= p.maxEvidenceAgeMs.n
  }

  ghost predicate AreTaints(taints: seq<Taint>) { forall t | t in taints :: IsName(t.key) && |t.value| <= 63 }

  ghost predicate NodeFits(n: NodeSnapshot) {
    && IsIdentifier(n.name) && 1 <= |n.uid| <= 128 && 1 <= |n.resourceVersion| <= 128
    && |n.labels| <= 256 && |n.taints| <= 64
  }

  ghost predicate AreInstances(instances: seq<AsgInstance>) {
    forall i | 0 <= i < |instances| ::
      exists hex :: instances[i].instanceId == "i-" + hex && (|hex| == 8 || |hex| == 17) && AllIn(hex, HEX_DIGITS)
  }

  lemma InstancesIff(instances: seq<AsgInstance>)
    ensures (forall m | m in instances :: IsInstanceId(m.instanceId)) <==> AreInstances(instances)
  {
    forall i | 0 <= i < |instances|
      ensures IsInstanceId(instances[i].instanceId) <==>
              exists hex ::
                instances[i].instanceId == "i-" + hex && (|hex| == 8 || |hex| == 17) && AllIn(hex, HEX_DIGITS)
    {
      InstanceIdIff(instances[i].instanceId);
    }
    hide IsInstanceId, AllIn, HEX_DIGITS;
    if forall m | m in instances :: IsInstanceId(m.instanceId) {
      assert forall i | 0 <= i < |instances| :: instances[i] in instances;
    }
  }

  ghost predicate SnapshotsFit(group: NodeGroup, groups: seq<AutoScalingGroup>) {
    && AreNames(group.autoScalingGroupNames, 8) && |groups| <= 8
    && (forall g | g in groups :: |g.instances| <= 2048 && AreInstances(g.instances))
    && IsCount(group.minSize) && IsCount(group.desiredSize) && IsCount(group.maxSize)
    && group.minSize.n <= group.desiredSize.n <= group.maxSize.n
  }

  lemma NamesIff(values: seq<string>, maximum: nat)
    ensures UniqueIdentifiers(values, maximum) <==> AreNames(values, maximum)
  {
    forall v ensures IsBoundedIdentifier(v) <==> IsIdentifier(v) {
      IdentifierIff(v);
    }
    hide IsBoundedIdentifier, IsIdentifier;
  }

  lemma TaintsIff(taints: seq<Taint>)
    ensures (forall t | t in taints :: IsLabelText(t.key) && |t.value| <= 63) <==> AreTaints(taints)
  {
    forall t: Taint ensures IsLabelText(t.key) <==> IsName(t.key) {
      LabelTextIff(t.key);
    }
    hide IsLabelText, IsName;
  }

  lemma TextsIff(p: Policy)
    ensures TextsFit(p) <==>
            && IsBoundedIdentifier(p.clusterName) && IsBoundedIdentifier(p.nodeGroupName)
            && IsAccountId(p.awsAccountId) && IsRegion(p.region)
            && IsValidProtectedLabelKey(p.protectedLabelKey) && IsLabelText(p.protectedLabelValue)
  {
    IdentifierIff(p.clusterName);
    IdentifierIff(p.nodeGroupName);
    AccountIdIff(p.awsAccountId);
    RegionIff(p.region);
    ProtectedKeyIff(p.protectedLabelKey);
    LabelTextIff(p.protectedLabelValue);
    hide IsBoundedIdentifier, IsIdentifier, IsAccountId, AllIn, IsRegion, IsPlacementOf, IsValidProtectedLabelKey,
         IsProtectedKey, IsLabelText, IsName, DIGITS;
  }

  lemma PolicyIff(p: Policy)
    ensures PolicyWellFormed(p) <==> PolicyFits(p)
  {
    TextsIff(p);
    NamesIff(p.allowedInstanceTypes, 16);
    TaintsIff(p.expectedTaints);
    hide TextsFit, IsBoundedIdentifier, IsAccountId, IsRegion, IsValidProtectedLabelKey, IsLabelText, UniqueIdentifiers,
         AreNames, TaintsDistinct, AreTaints;
  }

  lemma SnapshotsIff(input: Input)
    ensures SnapshotsWellFormed(input) <==> SnapshotsFit(input.nodeGroup, input.autoScalingGroups)
  {
    NamesIff(input.nodeGroup.autoScalingGroupNames, 8);
    forall g: AutoScalingGroup
      ensures (forall m | m in g.instances :: IsInstanceId(m.instanceId)) <==> AreInstances(g.instances)
    {
      InstancesIff(g.instances);
    }
    hide UniqueIdentifiers, AreNames, IsInstanceId, AreInstances;
  }

  /** An input passes the checks of shape and bounds exactly when policy, Node and snapshots fit. */
  lemma InputFitsIff(input: Input)
    ensures InputFailure(input).None? <==>
            PolicyFits(input.policy) && NodeFits(input.node) && SnapshotsFit(input.nodeGroup, input.autoScalingGroups)
  {
    InputCheck(input);
    PolicyIff(input.policy);
    IdentifierIff(input.node.name);
    SnapshotsIff(input);
    hide InputFailure, PolicyWellFormed, PolicyFits, IsBoundedIdentifier, IsIdentifier, SnapshotsWellFormed,
         SnapshotsFit;
  }
}
