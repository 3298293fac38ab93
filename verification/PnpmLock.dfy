// scripts/osv-dependency-gate.py, expected_inventory: the package identities of
// a pnpm lockfile, read from the keys of its `packages:` block.
module PnpmLock {
  import opened Wrappers
  import opened Text
  import opened OsvGate

  // ----- one key

  function StripStart(s: string): string { if s != "" && IsPySpace(s[0]) then StripStart(s[1..]) else s }

  function StripEnd(s: string): string { if s != "" && IsPySpace(s[|s| - 1]) then StripEnd(s[..|s| - 1]) else s }

  /** `str.strip`. */
  function Strip(s: string): string { StripEnd(StripStart(s)) }

  predicate IsKeyLine(line: string) { StartsWith(line, "  ") && !StartsWith(line, "   ") && EndsWith(line, ":") }

  /** The position of the last `@`, or -1. */
  function LastAt(s: string): (i: int)
    ensures -1 <= i < |s|
  {
    if s == "" then -1 else if s[|s| - 1] == '@' then |s| - 1 else LastAt(s[..|s| - 1])
  }

  /** `rsplit("@", 1)` into exactly two parts. */
  function SplitVersion(s: string): Option<Identity> {
    if LastAt(s) < 0 then None else Some((s[..LastAt(s)], s[LastAt(s) + 1..]))
  }

  /**
   * The key without its quotes; `loads` reads a double-quoted one, and is `None` where `json.loads` does not give a
   * string.
   */
  function Unquote(key: string, loads: string -> Option<string>): Option<string> {
    if StartsWith(key, "'") && EndsWith(key, "'") then
      Some(ReplacePair(if |key| < 2 then "" else key[1..|key| - 1], '\'', '\'', "'"))
    else if StartsWith(key, "\"") then loads(key)
    else Some(key)
  }

  function ParseKey(line: string, loads: string -> Option<string>): Option<Identity> {
    var stripped := Strip(line);
    match Unquote(if stripped == "" then "" else stripped[..|stripped| - 1], loads)
    case None => None
    case Some(text) => SplitVersion(text)
  }

  // ----- the whole file, line by line

  const HEADER := "packages:"

  /** The identities found from here on; `None` when a key cannot be read. */
  function Scan(lines: seq<string>, active: bool, loads: string -> Option<string>): Option<set<Identity>> {
    if lines == [] then Some({})
    else if lines[0] == HEADER then Scan(lines[1..], true, loads)
    else if active && lines[0] != "" && !StartsWith(lines[0], " ") then Some({})
    else if active && IsKeyLine(lines[0]) then
      match ParseKey(lines[0], loads)
      case None => None
      case Some(id) => With({id}, Scan(lines[1..], active, loads))
    else Scan(lines[1..], active, loads)
  }

  function With(ids: set<Identity>, rest: Option<set<Identity>>): Option<set<Identity>> {
    match rest
    case None => None
    case Some(more) => Some(ids + more)
  }

  /** The loop of `expected_inventory`; an empty result is refused. */
  method PnpmInventory(lines: seq<string>, loads: string -> Option<string>) returns (ids: Option<set<Identity>>)
    ensures ids == if Scan(lines, false, loads) == Some({}) then None else Scan(lines, false, loads)
  {
    hide ParseKey, IsKeyLine;
    var active := false;
    var pairs: set<Identity> := {};
    var i := 0;
    WithNothing(Scan(lines, false, loads));
    assert lines[0..] == lines;
    while i < |lines|
      invariant i <= |lines| && Scan(lines, false, loads) == With(pairs, Scan(lines[i..], active, loads))
    {
      var line := lines[i];
      assert lines[i..][0] == line && lines[i..][1..] == lines[i + 1..];
      i := i + 1;
      if line == HEADER {
        active := true;
      } else if active && line != "" && !StartsWith(line, " ") {
        break;
      } else if active && IsKeyLine(line) {
        var id := ParseKey(line, loads);
        if id.None? {
          return None;
        }
        WithMore(pairs, {id.value}, Scan(lines[i..], active, loads));
        pairs := pairs + {id.value};
      }
    }
    assert Scan(lines, false, loads) == Some(pairs) by {
      assert pairs + {} == pairs;
    }
    ids := if pairs == {} then None else Some(pairs);
  }

  lemma WithNothing(rest: Option<set<Identity>>)
    ensures With({}, rest) == rest
  {
    if rest.Some? {
      assert {} + rest.value == rest.value;
    }
  }

  lemma WithMore(a: set<Identity>, b: set<Identity>, rest: Option<set<Identity>>)
    ensures With(a, With(b, rest)) == With(a + b, rest)
  {
    if rest.Some? {
      assert a + (b + rest.value) == (a + b) + rest.value;
    }
  }

  lemma {:induction false} StripStartOf(blank: string, rest: string)
    requires Blank(blank)
    ensures StripStart(blank + rest) == StripStart(rest)
  {
    if blank == "" {
      assert blank + rest == rest;
    } else {
      assert (blank + rest)[1..] == blank[1..] + rest;
      StripStartOf(blank[1..], rest);
    }
  }

  lemma {:induction false} StripEndOf(rest: string, blank: string)
    requires Blank(blank)
    ensures StripEnd(rest + blank) == StripEnd(rest)
  {
    if blank == "" {
      assert rest + blank == rest;
    } else {
      var n := |blank| - 1;
      assert (rest + blank)[..|rest| + n] == rest + blank[..n];
      StripEndOf(rest, blank[..n]);
    }
  }

  /** Stripping leaves what stands between white space. */
  lemma StripIsInner(before: string, text: string, after: string)
    requires Blank(before) && Blank(after)
    requires text != "" ==> !IsPySpace(text[0]) && !IsPySpace(text[|text| - 1])
    ensures Strip(before + (text + after)) == text
  {
    hide IsPySpace;
    StripStartOf(before, text + after);
    if text == "" {
      assert text + after == after + "";
      StripStartOf(after, "");
    } else {
      StripEndOf(text, after);
    }
  }

  // ----- which lines count

  /** Two spaces and no third, and a colon at the end. */
  lemma KeyLineIff(line: string)
    ensures IsKeyLine(line) <==>
            |line| >= 3 && line[0] == ' ' && line[1] == ' ' && line[2] != ' ' && line[|line| - 1] == ':'
  {
    KeyLineParts(line, "  ", "   ", ":");
  }

  lemma KeyLineParts(line: string, two: string, three: string, colon: string)
    requires |two| == 2 && two[0] == ' ' && two[1] == ' ' && three == two + [' '] && colon == [':']
    ensures StartsWith(line, two) && !StartsWith(line, three) && EndsWith(line, colon) <==>
            |line| >= 3 && line[0] == ' ' && line[1] == ' ' && line[2] != ' ' && line[|line| - 1] == ':'
  {
    if line != "" {
      assert line[|line| - 1..] == [line[|line| - 1]];
    }
    assert three[..2] == two && three[2] == ' ';
  }

  /** A line that ends the block: the next top-level key. */
  predicate IsClosing(line: string) { line != "" && line != "packages:" && line[0] != ' ' }

  /** A header stands before line `i`, or the block was open from the start. */
  ghost predicate Opened(lines: seq<string>, active: bool, i: nat)
    requires i <= |lines|
  {
    active || "packages:" in lines[..i]
  }

  /** Line `i` lies in the block: it is opened before and not closed up to here. */
  ghost predicate InBlock(lines: seq<string>, active: bool, i: nat) {
    && i < |lines| && Opened(lines, active, i)
    && forall j | 0 <= j <= i && Opened(lines, active, j) :: !IsClosing(lines[j])
  }

  /** Some key line of the block is read as `r`. */
  ghost predicate Reads(lines: seq<string>, active: bool, loads: string -> Option<string>, r: Option<Identity>) {
    exists i: nat :: InBlock(lines, active, i) && IsKeyLine(lines[i]) && ParseKey(lines[i], loads) == r
  }

  lemma InBlockNext(lines: seq<string>, active: bool, i: nat)
    requires lines != []
    ensures var next := active || lines[0] == HEADER;
            InBlock(lines, active, i + 1) <==> !(active && IsClosing(lines[0])) && InBlock(lines[1..], next, i)
  {
    var rest, next := lines[1..], active || lines[0] == HEADER;
    forall j: nat | j < |lines| ensures Opened(lines, active, j + 1) <==> Opened(rest, next, j) {
      assert lines[..j + 1] == [lines[0]] + rest[..j];
    }
    assert Opened(lines, active, 0) <==> active;
    if InBlock(rest, next, i) && !(active && IsClosing(lines[0])) {
      forall j | 0 <= j <= i + 1 && Opened(lines, active, j) ensures !IsClosing(lines[j]) {
        if j > 0 {
          assert Opened(rest, next, j - 1) && rest[j - 1] == lines[j];
        }
      }
    }
    if InBlock(lines, active, i + 1) {
      forall j | 0 <= j <= i && Opened(rest, next, j) ensures !IsClosing(rest[j]) {
        assert Opened(lines, active, j + 1);
      }
    }
  }

  lemma HeadLine(line: string)
    ensures line != "" ==> (StartsWith(line, " ") <==> line[0] == ' ')
    ensures IsKeyLine(line) ==> line != "" && line[0] == ' ' && line != HEADER
  {
    KeyLineIff(line);
    assert HEADER[0] == 'p';
    if line != "" {
      assert line[..1] == [line[0]];
    }
  }

  lemma ReadsNext(lines: seq<string>, active: bool, loads: string -> Option<string>, r: Option<Identity>)
    requires lines != []
    ensures var next := active || lines[0] == HEADER;
            Reads(lines, active, loads, r) <==>
              && !(active && IsClosing(lines[0]))
              && ((active && IsKeyLine(lines[0]) && ParseKey(lines[0], loads) == r)
                  || Reads(lines[1..], next, loads, r))
  {
    var rest, next := lines[1..], active || lines[0] == HEADER;
    forall i: nat
      ensures InBlock(lines, active, i + 1) <==> !(active && IsClosing(lines[0])) && InBlock(rest, next, i)
    {
      InBlockNext(lines, active, i);
    }
    assert InBlock(lines, active, 0) <==> active && !IsClosing(lines[0]) by {
      assert lines[..0] == [];
    }
    FirstClosed(lines, active);
    hide InBlock, IsKeyLine, ParseKey, IsClosing;
    if Reads(lines, active, loads, r) {
      var i: nat :| InBlock(lines, active, i) && IsKeyLine(lines[i]) && ParseKey(lines[i], loads) == r;
      if i > 0 {
        assert InBlock(lines, active, (i - 1) + 1) && InBlock(rest, next, i - 1) && rest[i - 1] == lines[i];
      }
    }
    if !(active && IsClosing(lines[0])) {
      if Reads(rest, next, loads, r) {
        var i: nat :| InBlock(rest, next, i) && IsKeyLine(rest[i]) && ParseKey(rest[i], loads) == r;
        assert InBlock(lines, active, i + 1) && lines[i + 1] == rest[i];
      }
    }
  }

  lemma NothingRead(active: bool, loads: string -> Option<string>)
    ensures forall r :: !Reads([], active, loads, r)
  {
  }

  lemma FirstClosed(lines: seq<string>, active: bool)
    requires lines != []
    ensures forall i: nat | InBlock(lines, active, i) :: i < |lines|
    ensures forall i: nat | i < |lines[1..]| :: lines[1..][i] == lines[i + 1]
    ensures active && IsClosing(lines[0]) ==> forall i: nat :: !InBlock(lines, active, i)
  {
  }

  /** What is read are the key lines of the block, wherever they stand; one that cannot be read spoils the file. */
  lemma {:induction false} ScanIff(lines: seq<string>, active: bool, loads: string -> Option<string>)
    ensures Scan(lines, active, loads).None? <==> Reads(lines, active, loads, None)
    ensures Scan(lines, active, loads).Some? ==>
              forall id :: id in Scan(lines, active, loads).value <==> Reads(lines, active, loads, Some(id))
  {
    hide IsKeyLine, ParseKey, Reads, StartsWith;
    if lines == [] {
      NothingRead(active, loads);
    } else {
      var next := active || lines[0] == HEADER;
      HeadLine(lines[0]);
      ScanIff(lines[1..], next, loads);
      ReadsNext(lines, active, loads, None);
      var found := Scan(lines, active, loads);
      if found.Some? {
        forall id ensures id in found.value <==> Reads(lines, active, loads, Some(id)) {
          ReadsNext(lines, active, loads, Some(id));
        }
      }
    }
  }

  // ----- printing a block

  datatype Style = Plain | SingleQuoted | DoubleQuoted(text: string)

  datatype BlockLine = Key(id: Identity, style: Style) | Filler(line: string)

  function IdentityText(id: Identity): string { id.0 + ['@'] + id.1 }

  /** YAML's single-quoted style: every quote doubled. */
  function Doubled(s: string): string { ReplaceChar(s, '\'', "''") }

  function KeyText(id: Identity, style: Style): string {
    match style
    case Plain => IdentityText(id)
    case SingleQuoted => "'" + (Doubled(IdentityText(id)) + "'")
    case DoubleQuoted(text) => text
  }

  function Render(b: BlockLine): string {
    match b
    case Key(id, style) => "  " + (KeyText(id, style) + ":")
    case Filler(line) => line
  }

  function RenderAll(block: seq<BlockLine>): seq<string> {
    seq(|block|, i requires 0 <= i < |block| => Render(block[i]))
  }

  /**
   * What a printer of such blocks keeps to: no `@` in versions, quotes where a plain key would not do, double quotes
   * only around what JSON reads as the identity, and other lines that are no keys.
   */
  predicate WellFormed(b: BlockLine, loads: string -> Option<string>) {
    match b
    case Key(id, style) =>
      && '@' !in id.1
      && (style == Plain ==>
          !IsPySpace(IdentityText(id)[0]) && IdentityText(id)[0] != '\'' && IdentityText(id)[0] != '"')
      && (style.DoubleQuoted? ==>
          style.text != "" && style.text[0] == '"' && loads(style.text) == Some(IdentityText(id)))
    case Filler(line) => (line == "" || StartsWith(line, " ")) && !IsKeyLine(line)
  }

  function Ids(block: seq<BlockLine>): set<Identity> { set b | b in block && b.Key? :: b.id }

  // ----- reading it back

  lemma {:induction false} LastAtOf(name: string, version: string)
    requires '@' !in version
    ensures LastAt(name + ['@'] + version) == |name|
  {
    var s := name + ['@'] + version;
    if version != "" {
      var front := version[..|version| - 1];
      assert s[..|s| - 1] == name + ['@'] + front;
      LastAtOf(name, front);
    }
  }

  lemma {:induction false} LastAtIsLast(s: string, i: nat)
    requires i < |s| && s[i] == '@'
    ensures i <= LastAt(s)
  {
    if i < |s| - 1 && s[|s| - 1] != '@' {
      LastAtIsLast(s[..|s| - 1], i);
    }
  }

  /** An identity is read back from its text exactly when its version has no `@`, whatever its name has. */
  lemma SplitsBack(id: Identity)
    ensures SplitVersion(IdentityText(id)) == Some(id) <==> '@' !in id.1
  {
    var s := IdentityText(id);
    if '@' in id.1 {
      var i :| 0 <= i < |id.1| && id.1[i] == '@';
      LastAtIsLast(s, |id.0| + 1 + i);
    } else {
      LastAtOf(id.0, id.1);
      hide LastAt;
      assert s[..|id.0|] == id.0 && s[|id.0| + 1..] == id.1;
    }
  }

  lemma {:induction false} DoubledBack(s: string)
    ensures ReplacePair(Doubled(s), '\'', '\'', "'") == s
  {
    if s != "" {
      DoubledBack(s[1..]);
      var rest := Doubled(s[1..]);
      if s[0] == '\'' {
        assert Doubled(s) == "''" + rest;
        assert ("''" + rest)[2..] == rest;
      } else {
        assert Doubled(s) == [s[0]] + rest;
        PlainCharKept(s[0], rest);
      }
      assert [s[0]] + s[1..] == s;
    }
  }

  lemma PlainCharKept(c: char, rest: string)
    requires c != '\''
    ensures ReplacePair([c] + rest, '\'', '\'', "'") == [c] + ReplacePair(rest, '\'', '\'', "'")
  {
    assert ([c] + rest)[1..] == rest;
    if rest == "" {
      assert ReplacePair(rest, '\'', '\'', "'") == "";
    }
  }

  lemma StartsWithChar(s: string, c: char)
    requires s != ""
    ensures StartsWith(s, [c]) <==> s[0] == c
  {
  }

  lemma KeyTextUnquotes(id: Identity, style: Style, loads: string -> Option<string>)
    requires WellFormed(Key(id, style), loads)
    ensures Unquote(KeyText(id, style), loads) == Some(IdentityText(id))
    ensures KeyText(id, style) != "" && !IsPySpace(KeyText(id, style)[0])
  {
    var text := IdentityText(id);
    if style == SingleQuoted {
      DoubledBack(text);
      hide Doubled, ReplacePair, IdentityText;
      var inner := Doubled(text);
      var key := "'" + (inner + "'");
      assert key[1..|key| - 1] == inner;
      assert key[0] == '\'' && key[|key| - 1..] == "'";
      assert StartsWith(key, "'");
    } else if style.DoubleQuoted? {
      StartsWithChar(style.text, '\'');
      StartsWithChar(style.text, '"');
      assert "'" == ['\''] && "\"" == ['"'];
    } else {
      assert text != "";
      hide IdentityText, ReplacePair;
      StartsWithChar(text, '\'');
      StartsWithChar(text, '"');
      assert "'" == ['\''] && "\"" == ['"'];
    }
  }

  lemma StripKey(key: string)
    requires key != "" && !IsPySpace(key[0])
    ensures Strip("  " + (key + ":")) == key + ":"
    ensures IsKeyLine("  " + (key + ":"))
  {
    var line, rest := "  " + (key + ":"), key + ":";
    assert line[0] == ' ' && line[1] == ' ' && line[2] == key[0] && line[2..] == rest;
    assert line[1..] == [' '] + rest && ([' '] + rest)[1..] == rest;
    assert rest[0] == key[0];
    assert StripStart(rest) == rest && StripStart([' '] + rest) == rest && StripStart(line) == rest;
    assert rest[|rest| - 1] == ':';
    assert StripEnd(rest) == rest;
    assert line[|line| - 1..] == ":";
    NotThreeSpaces(line);
  }

  lemma NotThreeSpaces(line: string)
    requires |line| > 2 && line[2] != ' '
    ensures !StartsWith(line, "   ")
  {
    assert "   "[2] == ' ';
  }

  lemma KeyReadsBack(id: Identity, style: Style, loads: string -> Option<string>)
    requires WellFormed(Key(id, style), loads)
    ensures IsKeyLine(Render(Key(id, style))) && ParseKey(Render(Key(id, style)), loads) == Some(id)
  {
    KeyTextUnquotes(id, style, loads);
    SplitsBack(id);
    hide KeyText, IdentityText, Unquote, SplitVersion;
    var key := KeyText(id, style);
    StripKey(key);
    hide Strip, IsKeyLine;
    assert (key + ":")[..|key + ":"| - 1] == key;
  }

  /** The text after the block: nothing, or a line that starts a new top-level key. */
  predicate Closes(after: seq<string>) {
    after == [] || (after[0] != "" && !StartsWith(after[0], " ") && after[0] != HEADER)
  }

  lemma NotHeader(line: string)
    requires line == "" || StartsWith(line, " ")
    ensures line != HEADER
  {
    assert HEADER[0] == 'p' && HEADER != "";
    if line != "" {
      assert line[0] == " "[0];
    }
  }

  lemma {:induction false} BlockReadsBack(block: seq<BlockLine>, after: seq<string>, loads: string -> Option<string>)
    requires (forall b | b in block :: WellFormed(b, loads)) && Closes(after)
    ensures Scan(RenderAll(block) + after, true, loads) == Some(Ids(block))
  {
    hide WellFormed, IsKeyLine, ParseKey, Render;
    if block == [] {
      assert RenderAll(block) + after == after;
      assert Ids(block) == {};
    } else {
      var lines := RenderAll(block) + after;
      var first := block[0];
      assert first in block;
      BlockReadsBack(block[1..], after, loads);
      assert lines[1..] == RenderAll(block[1..]) + after && lines[0] == Render(first);
      LineReadsBack(first, loads);
      IdsCons(block);
      hide Ids, RenderAll;
      assert Scan(lines[1..], true, loads) == Some(Ids(block[1..]));
    }
  }

  lemma LineReadsBack(b: BlockLine, loads: string -> Option<string>)
    requires WellFormed(b, loads)
    ensures Render(b) != HEADER && (Render(b) == "" || StartsWith(Render(b), " "))
    ensures b.Key? <==> IsKeyLine(Render(b))
    ensures b.Key? ==> ParseKey(Render(b), loads) == Some(b.id)
  {
    if b.Key? {
      KeyReadsBack(b.id, b.style, loads);
      assert Render(b)[0] == ' ';
    }
    NotHeader(Render(b));
  }

  lemma IdsCons(block: seq<BlockLine>)
    requires block != []
    ensures block[0].Key? ==> Ids(block) == {block[0].id} + Ids(block[1..])
    ensures block[0].Filler? ==> Ids(block) == Ids(block[1..])
  {
    assert block == [block[0]] + block[1..];
    assert forall b :: b in block <==> b == block[0] || b in block[1..];
  }

  /** Whatever stands before and after it, a printed block gives back exactly the identities printed into it. */
  lemma {:induction false} LockfileReadsBack(before: seq<string>, block: seq<BlockLine>, after: seq<string>,
                                             loads: string -> Option<string>)
    requires HEADER !in before && (forall b | b in block :: WellFormed(b, loads)) && Closes(after)
    ensures Scan(before + [HEADER] + RenderAll(block) + after, false, loads) == Some(Ids(block))
  {
    hide WellFormed, RenderAll, Ids;
    var lines := before + [HEADER] + RenderAll(block) + after;
    if before == [] {
      BlockReadsBack(block, after, loads);
      assert lines[1..] == RenderAll(block) + after;
    } else {
      LockfileReadsBack(before[1..], block, after, loads);
      assert lines[1..] == before[1..] + [HEADER] + RenderAll(block) + after;
      assert lines[0] == before[0];
    }
  }
}
