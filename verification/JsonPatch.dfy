// JSON Pointer (RFC 6901) and JSON Patch (RFC 6902) as far as the label patches
// use them: object members only, string values only.
module JsonPatch {
  import opened Wrappers
  import opened Text
  import opened Json

  datatype PatchOp =
    | Test(path: string, value: string)
    | Add(path: string, value: string)
    | Remove(path: string)

  // ----- pointers: sections 3 and 4 of RFC 6901

  /** packages/k8s-baseline/src/trusted-node-label-reconciler-core.ts, jsonPointerEscape. */
  function Escape(token: string): string {
    ReplaceChar(ReplaceChar(token, '~', "~0"), '/', "~1")
  }

  /** Section 4: first `~1` becomes `/`, then `~0` becomes `~`. */
  function Unescape(token: string): string {
    ReplacePair(ReplacePair(token, '~', '1', "/"), '~', '0', "~")
  }

  /** Section 3: a tilde is always followed by `0` or `1`. */
  predicate ValidToken(token: string) {
    forall i | 0 <= i < |token| :: token[i] == '~' ==> i + 1 < |token| && (token[i + 1] == '0' || token[i + 1] == '1')
  }

  function UnescapeAll(tokens: seq<string>): Option<seq<string>> {
    if tokens == [] then Some([])
    else if !ValidToken(tokens[0]) then None
    else
      match UnescapeAll(tokens[1..])
      case None => None
      case Some(rest) => Some([Unescape(tokens[0])] + rest)
  }

  function ParsePointer(pointer: string): Option<seq<string>> {
    if pointer == "" then Some([])
    else if pointer[0] != '/' then None
    else UnescapeAll(Split(pointer[1..], '/'))
  }

  /** The pointer text that addresses the member path `tokens`. */
  function Pointer(tokens: seq<string>): string {
    if tokens == [] then "" else "/" + Escape(tokens[0]) + Pointer(tokens[1..])
  }

  function EscapeChar(c: char): string {
    if c == '~' then "~0" else if c == '/' then "~1" else [c]
  }

  function EscapeMap(token: string): string {
    if token == "" then "" else EscapeChar(token[0]) + EscapeMap(token[1..])
  }

  /** The two sequential replacements are one replacement per character. */
  lemma {:induction false} EscapeIsMap(token: string)
    ensures Escape(token) == EscapeMap(token)
  {
    if token != "" {
      EscapeIsMap(token[1..]);
      var first := if token[0] == '~' then "~0" else [token[0]];
      var rest := ReplaceChar(token[1..], '~', "~0");
      ReplaceCharAppend(first, rest, '/', "~1");
      assert ReplaceChar(first, '/', "~1") == EscapeChar(token[0]) by {
        if token[0] == '~' {
          ReplaceCharAbsent(first, '/', "~1");
        } else {
          assert first[1..] == "";
        }
      }
    }
  }

  lemma {:induction false} EscapedToken(token: string)
    ensures '/' !in EscapeMap(token) && ValidToken(EscapeMap(token))
  {
    if token != "" {
      EscapedToken(token[1..]);
      var head, rest := EscapeChar(token[0]), EscapeMap(token[1..]);
      var whole := head + rest;
      forall i | 0 <= i < |whole| && whole[i] == '~'
        ensures i + 1 < |whole| && (whole[i + 1] == '0' || whole[i + 1] == '1')
      {
        if i >= |head| {
          assert rest[i - |head|] == '~';
        }
      }
    }
  }

  /** The escaped text after the first pass of unescaping. */
  function HalfUnescaped(token: string): string {
    if token == "" then "" else (if token[0] == '~' then "~0" else [token[0]]) + HalfUnescaped(token[1..])
  }

  lemma {:induction false} FirstPass(token: string)
    ensures ReplacePair(EscapeMap(token), '~', '1', "/") == HalfUnescaped(token)
  {
    if token != "" {
      FirstPass(token[1..]);
      var rest := EscapeMap(token[1..]);
      var s := EscapeMap(token);
      if token[0] == '/' {
        assert s[2..] == rest;
      } else if token[0] == '~' {
        assert s[1..] == "0" + rest;
        assert ("0" + rest)[1..] == rest;
        assert ReplacePair("0" + rest, '~', '1', "/") == "0" + ReplacePair(rest, '~', '1', "/");
        assert "~" + ("0" + HalfUnescaped(token[1..])) == "~0" + HalfUnescaped(token[1..]);
      } else {
        assert s[1..] == rest;
      }
    }
  }

  lemma {:induction false} SecondPass(token: string)
    ensures ReplacePair(HalfUnescaped(token), '~', '0', "~") == token
  {
    if token != "" {
      SecondPass(token[1..]);
      var rest := HalfUnescaped(token[1..]);
      var s := HalfUnescaped(token);
      if token[0] == '~' {
        assert s[2..] == rest;
      } else {
        assert s[1..] == rest;
      }
      assert token == [token[0]] + token[1..];
    }
  }

  lemma EscapeRoundTrip(token: string)
    ensures Unescape(Escape(token)) == token
    ensures '/' !in Escape(token) && ValidToken(Escape(token))
  {
    EscapeIsMap(token);
    EscapedToken(token);
    FirstPass(token);
    SecondPass(token);
  }

  lemma UnescapeFirst(token: string, parts: seq<string>, rest: seq<string>)
    requires UnescapeAll(parts) == Some(rest)
    ensures UnescapeAll([Escape(token)] + parts) == Some([token] + rest)
  {
    EscapeRoundTrip(token);
    assert ([Escape(token)] + parts)[1..] == parts;
  }

  lemma PointerCons(token: string, tokens: seq<string>, rest: string)
    requires UnescapeAll(Split(rest, '/')) == Some(tokens)
    ensures UnescapeAll(Split(Escape(token) + ['/'] + rest, '/')) == Some([token] + tokens)
  {
    EscapeRoundTrip(token);
    SplitPair(Escape(token), rest, '/');
    UnescapeFirst(token, Split(rest, '/'), tokens);
  }

  lemma PointerOfOne(token: string)
    ensures UnescapeAll(Split(Escape(token), '/')) == Some([token])
  {
    EscapeRoundTrip(token);
    SplitWord(Escape(token), '/');
    UnescapeFirst(token, [], []);
    assert [Escape(token)] + [] == [Escape(token)] && [token] + [] == [token];
  }

  lemma AfterSlash(s: string)
    ensures ("/" + s)[0] == '/' && ("/" + s)[1..] == s
  {
  }

  lemma PointerText(tokens: seq<string>)
    requires tokens != []
    ensures Pointer(tokens) != "" && Pointer(tokens)[0] == '/'
    ensures tokens[1..] == [] ==> Pointer(tokens)[1..] == Escape(tokens[0])
    ensures tokens[1..] != [] ==>
            Pointer(tokens[1..]) != "" && Pointer(tokens)[1..] == Escape(tokens[0]) + ['/'] + Pointer(tokens[1..])[1..]
  {
    hide Escape;
    var later := tokens[1..];
    assert Pointer(tokens) == "/" + (Escape(tokens[0]) + Pointer(later));
    if later == [] {
      hide Pointer;
      AfterSlash(Escape(tokens[0]) + "");
    } else {
      PointerText(later);
      hide Pointer;
      AfterSlash(Escape(tokens[0]) + Pointer(later));
      assert Pointer(later) == ['/'] + Pointer(later)[1..];
    }
  }

  lemma {:induction false} PointerSplits(tokens: seq<string>)
    requires tokens != []
    ensures Pointer(tokens) != "" && Pointer(tokens)[0] == '/'
    ensures UnescapeAll(Split(Pointer(tokens)[1..], '/')) == Some(tokens)
  {
    var later := tokens[1..];
    assert [tokens[0]] + later == tokens;
    PointerText(tokens);
    hide Escape, Split, UnescapeAll, Pointer;
    if later == [] {
      PointerOfOne(tokens[0]);
    } else {
      PointerSplits(later);
      PointerCons(tokens[0], later, Pointer(later)[1..]);
    }
  }

  /** Every member path, whatever characters its names have, is read back from its pointer text. */
  lemma PointerRoundTrip(tokens: seq<string>)
    ensures ParsePointer(Pointer(tokens)) == Some(tokens)
  {
    if tokens != [] {
      PointerSplits(tokens);
    }
  }

  lemma EscapePlain(token: string)
    requires '~' !in token && '/' !in token
    ensures Escape(token) == token
  {
    ReplaceCharAbsent(token, '~', "~0");
    ReplaceCharAbsent(token, '/', "~1");
  }

  // ----- operations: section 4 of RFC 6902

  function Get(doc: Json, tokens: seq<string>): Option<Json> {
    if tokens == [] then Some(doc)
    else
      match Member(doc, tokens[0])
      case None => None
      case Some(child) => Get(child, tokens[1..])
  }

  /** Section 4.1: the object that is to hold the member must exist; an existing member is replaced. */
  function AddAt(doc: Json, tokens: seq<string>, value: Json): Option<Json> {
    if tokens == [] then Some(value)
    else if !doc.Obj? then None
    else if |tokens| == 1 then Some(WithMember(doc, tokens[0], value))
    else
      match Member(doc, tokens[0])
      case None => None
      case Some(child) =>
        match AddAt(child, tokens[1..], value)
        case None => None
        case Some(child') => Some(WithMember(doc, tokens[0], child'))
  }

  /** Section 4.2: the member to remove must exist. */
  function RemoveAt(doc: Json, tokens: seq<string>): Option<Json> {
    if tokens == [] then None
    else
      match Member(doc, tokens[0])
      case None => None
      case Some(child) =>
        if |tokens| == 1 then Some(WithoutMember(doc, tokens[0]))
        else
          match RemoveAt(child, tokens[1..])
          case None => None
          case Some(child') => Some(WithMember(doc, tokens[0], child'))
  }

  function ApplyOp(doc: Json, op: PatchOp): Option<Json> {
    match ParsePointer(op.path)
    case None => None
    case Some(tokens) =>
      match op
      case Test(_, value) => if Get(doc, tokens) == Some(Str(value)) then Some(doc) else None
      case Add(_, value) => AddAt(doc, tokens, Str(value))
      case Remove(_) => RemoveAt(doc, tokens)
  }

  /** Section 5 of RFC 6902 and section 2 of RFC 5789: all operations in order, or no change at all. */
  function ApplyPatch(doc: Json, patch: seq<PatchOp>): Option<Json>
    decreases |patch|
  {
    if patch == [] then Some(doc)
    else
      match ApplyOp(doc, patch[0])
      case None => None
      case Some(doc') => ApplyPatch(doc', patch[1..])
  }
}
