// packages/k8s-baseline/src/trusted-node-label-controller-kubernetes.ts: exactly
// which documents the adapter reads as Nodes, and which patches its gate lets out.
module GateRules {
  import opened Wrappers
  import opened Text
  import opened TextRules
  import opened Json
  import opened JsonPatch
  import opened TrustedNodeLabel
  import opened NodeDocument
  import opened KernelTexts

  // ----- names and keys

  /** One to 253 lower-case letters, digits, dashes and dots, a letter or digit at both ends. */
  ghost predicate IsHostName(s: string) {
    && 1 <= |s| <= 253 && IsLowerOrDigit(s[0]) && IsLowerOrDigit(s[|s| - 1])
    && forall i | 0 <= i < |s| :: IsLowerOrDigit(s[i]) || s[i] == '-' || s[i] == '.'
  }

  predicate IsLowerOrDigit(c: char) { c in LOWER_LETTERS || c in DIGITS }

  lemma NodeNameIff(s: string)
    ensures IsNodeName(s) <==> IsHostName(s)
  {
    forall c ensures LowerAlnum(c) <==> IsLowerOrDigit(c) {
      LabelCharIff(c);
    }
    hide LowerAlnum, IsLowerOrDigit;
  }

  /** Letters, digits, underscores, dots and dashes, a letter or digit at both ends. */
  ghost predicate IsPart(s: string, maximum: nat) {
    && 1 <= |s| <= maximum && IsLetterOrDigit(s[0]) && IsLetterOrDigit(s[|s| - 1])
    && forall i | 0 <= i < |s| :: IsLetterOrDigit(s[i]) || s[i] in "_.-"
  }

  lemma PartIff(s: string, maximum: nat)
    ensures AlnumEnds(s, maximum) <==> IsPart(s, maximum)
    ensures IsPart(s, maximum) ==> '/' !in s
  {
    forall c ensures LabelChar(c) <==> IsLetterOrDigit(c) || c in "_.-" ensures IsAlnum(c) <==> IsLetterOrDigit(c) {
      LabelCharIff(c);
    }
    assert !LabelChar('/');
    hide LabelChar, IsLetterOrDigit, IsAlnum;
  }

  /** A prefix and a name with a slash between them. */
  ghost predicate IsPrefixedKey(key: string) {
    exists prefix, name :: key == prefix + "/" + name && IsPart(prefix, 253) && IsPart(name, 63)
  }

  lemma SelectorKeyIff(key: string)
    ensures IsSelectorKey(key) <==> IsPrefixedKey(key)
  {
    if IsSelectorKey(key) {
      SelectorKeyRead(key);
    }
    if prefix, name :| key == prefix + "/" + name && IsPart(prefix, 253) && IsPart(name, 63) {
      PartIff(prefix, 253);
      PartIff(name, 63);
      hide AlnumEnds;
      assert |prefix| <= 253 && |name| <= 63 && |prefix| > 0 && |name| > 0;
      hide IsPart;
      SplitPair(prefix, name, '/');
      SplitWord(name, '/');
      assert key == prefix + ['/'] + name;
      assert Split(key, '/') == [prefix, name];
    }
  }

  lemma SelectorKeyRead(key: string)
    requires IsSelectorKey(key)
    ensures IsPrefixedKey(key)
  {
    var parts := Split(key, '/');
    JoinSplit(key, '/');
    PartIff(parts[0], 253);
    PartIff(parts[1], 63);
    hide AlnumEnds, IsPart, Split;
    assert parts[1..] == [parts[1]];
    assert "/" == ['/'];
    assert key == parts[0] + "/" + parts[1];
  }

  // ----- the gate

  /** Tests of the three identity fields, and then either the addition or a test and the removal of the one label. */
  ghost predicate IsGuardedPatch(patch: seq<PatchOp>, key: string, value: string) {
    exists uid, version, provider ::
      && 1 <= |uid| <= 128 && 1 <= |version| <= 128 && 1 <= |provider| <= 256
      && patch[..if |patch| < 3 then |patch| else 3] ==
         [Test("/metadata/uid", uid), Test("/metadata/resourceVersion", version), Test("/spec/providerID", provider)]
      && var path := "/metadata/labels/" + Escape(key);
         patch[3..] == [Add(path, value)] || patch[3..] == [Test(path, value), Remove(path)]
  }

  /** The gate lets out exactly such patches, for keys with a prefix and values that are names. */
  lemma GateIff(patch: seq<PatchOp>, key: string, value: string)
    ensures IsExactPatch(patch, key, value) <==>
            IsPrefixedKey(key) && IsName(value) && IsGuardedPatch(patch, key, value)
  {
    SelectorKeyIff(key);
    LabelTextIff(value);
    hide IsSelectorKey, IsPrefixedKey, IsLabelText, IsName;
    if IsExactPatch(patch, key, value) {
      assert patch[..3] == [patch[0], patch[1], patch[2]];
      assert patch[3..] == if |patch| == 4 then [patch[3]] else [patch[3], patch[4]];
      assert IsGuardedPatch(patch, key, value);
    }
    if IsGuardedPatch(patch, key, value) {
      assert |patch| > 2;
      assert patch[..3][0] == patch[0] && patch[..3][1] == patch[1] && patch[..3][2] == patch[2];
      assert patch[3..][0] == patch[3];
      assert |patch| == 5 ==> patch[3..][1] == patch[4];
    }
  }

  // ----- reading a Node

  /** The labels are a map of at most 256 texts. */
  ghost predicate HoldsLabels(metadata: Json, labels: map<string, string>) {
    && metadata.Obj? && "labels" in metadata.fields && metadata.fields["labels"].Obj?
    && var fields := metadata.fields["labels"].fields;
    && fields.Keys == labels.Keys && |labels| <= 256
    && forall k | k in labels :: k in fields && fields[k] == Str(labels[k])
  }

  ghost predicate HoldsTaint(value: Json, t: Taint) {
    && HoldsText(value, "key", t.key) && HoldsText(value, "value", t.value)
    && HoldsText(value, "effect", match t.effect case NoSchedule => "NoSchedule"
                                                  case PreferNoSchedule => "PreferNoSchedule"
                                                  case NoExecute => "NoExecute")
  }

  /** The taints are a list of at most 64, or left out. */
  ghost predicate HoldsTaints(spec: Json, taints: seq<Taint>) {
    if spec.Obj? && "taints" in spec.fields then
      && spec.fields["taints"].Arr?
      && var items := spec.fields["taints"].items;
      |items| == |taints| <= 64 && forall i | 0 <= i < |taints| :: HoldsTaint(items[i], taints[i])
    else taints == []
  }

  lemma EffectIff(text: string, effect: TaintEffect)
    ensures ParseEffect(text) == Some(effect) <==>
            text == match effect case NoSchedule => "NoSchedule"
                                 case PreferNoSchedule => "PreferNoSchedule"
                                 case NoExecute => "NoExecute"
  {
    assert "NoSchedule"[0] != "PreferNoSchedule"[0];
    assert |"NoSchedule"| != |"NoExecute"| && |"PreferNoSchedule"| != |"NoExecute"|;
  }

  lemma TaintIff(value: Json, t: Taint)
    ensures ParseTaint(value) == Some(t) <==> HoldsTaint(value, t)
  {
    var effect := StringOf(Member(value, "effect"));
    if effect.Some? {
      EffectIff(effect.value, t.effect);
    }
    hide ParseEffect;
  }

  lemma {:induction false} TaintItemsIff(items: seq<Json>, taints: seq<Taint>)
    ensures ParseTaintItems(items) == Some(taints) <==>
            |items| == |taints| && forall i | 0 <= i < |taints| :: HoldsTaint(items[i], taints[i])
  {
    hide ParseTaint, HoldsTaint;
    if items != [] && taints != [] {
      TaintIff(items[0], taints[0]);
      TaintItemsIff(items[1..], taints[1..]);
      assert taints == [taints[0]] + taints[1..];
      assert forall i | 0 < i < |taints| && i < |items| ::
             items[1..][i - 1] == items[i] && taints[1..][i - 1] == taints[i];
      if |items| == |taints| && forall i | 0 <= i < |taints| :: HoldsTaint(items[i], taints[i]) {
        assert forall i | 0 <= i < |taints| - 1 :: items[1..][i] == items[i + 1] && taints[1..][i] == taints[i + 1];
      }
    }
  }

  lemma LabelsIff(metadata: Json, labels: map<string, string>)
    ensures ParseStringMap(Member(metadata, "labels")) == Some(labels) <==> HoldsLabels(metadata, labels)
  {
    var value := Member(metadata, "labels");
    if value.Some? && value.value.Obj? {
      var fields := value.value.fields;
      assert |fields| == |fields.Keys| && |labels| == |labels.Keys|;
      if HoldsLabels(metadata, labels) {
        assert IsStringMap(fields) && |fields| <= 256;
        var back := map k | k in fields :: fields[k].s;
        assert back == labels;
      }
      if ParseStringMap(value) == Some(labels) {
        assert labels.Keys == fields.Keys;
        assert forall k | k in labels :: fields[k] == Str(labels[k]);
      }
    }
  }

  lemma TaintsPartIff(spec: Json, taints: seq<Taint>)
    ensures ParseTaints(Member(spec, "taints")) == Some(taints) <==> HoldsTaints(spec, taints)
  {
    if spec.Obj? && "taints" in spec.fields && spec.fields["taints"].Arr? {
      TaintItemsIff(spec.fields["taints"].items, taints);
    }
    hide HoldsTaint, ParseTaintItems;
  }

  /** A document is read as a Node exactly when it holds each of the Node's parts, within the adapter's bounds. */
  lemma ReadIff(doc: Json, node: NodeSnapshot)
    ensures ParseNode(doc) == Some(node) <==>
            && HoldsText(doc, "apiVersion", "v1") && HoldsText(doc, "kind", "Node")
            && IsHostName(node.name)
            && HoldsText(Part(doc, "metadata"), "name", node.name) && HoldsText(Part(doc, "metadata"), "uid", node.uid)
            && HoldsText(Part(doc, "metadata"), "resourceVersion", node.resourceVersion)
            && HoldsText(Part(doc, "spec"), "providerID", node.providerId)
            && HoldsLabels(Part(doc, "metadata"), node.labels) && HoldsTaints(Part(doc, "spec"), node.taints)
  {
    NodeNameIff(node.name);
    LabelsIff(Part(doc, "metadata"), node.labels);
    TaintsPartIff(Part(doc, "spec"), node.taints);
    hide IsNodeName, IsHostName, ParseStringMap, HoldsLabels, ParseTaints, HoldsTaints;
  }
}
