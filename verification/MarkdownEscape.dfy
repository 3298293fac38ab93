// packages/drift/src/live-validator.ts, escapeMarkdownCell and the rows of
// renderLiveValidationMarkdown.
module MarkdownEscape {
  import opened Text

  /** `replace(/\r?\n/g, text)`. */
  function ReplaceNewlines(s: string, text: string): string {
    if s == "" then ""
    else if s[0] == '\r' && |s| > 1 && s[1] == '\n' then text + ReplaceNewlines(s[2..], text)
    else if s[0] == '\n' then text + ReplaceNewlines(s[1..], text)
    else [s[0]] + ReplaceNewlines(s[1..], text)
  }

  function EscapeMarks(s: string): string {
    var entities := ReplaceChar(ReplaceChar(ReplaceChar(s, '\\', "\\\\"), '&', "&amp;"), '<', "&lt;");
    ReplaceChar(ReplaceChar(entities, '>', "&gt;"), '|', "\\|")
  }

  /** The six replacements, one after the other. */
  function EscapeMarkdownCell(s: string): string { ReplaceNewlines(EscapeMarks(s), "<br>") }

  // ----- the same in one pass

  function CharText(c: char): string {
    if c == '\\' then "\\\\"
    else if c == '&' then "&amp;"
    else if c == '<' then "&lt;"
    else if c == '>' then "&gt;"
    else if c == '|' then "\\|"
    else [c]
  }

  function MapMarks(s: string): string { if s == "" then "" else CharText(s[0]) + MapMarks(s[1..]) }

  /** Each character on its own, with a carriage return belonging to the line feed after it. */
  function EscapeMap(s: string): string {
    if s == "" then ""
    else if s[0] == '\r' && |s| > 1 && s[1] == '\n' then "<br>" + EscapeMap(s[2..])
    else if s[0] == '\n' then "<br>" + EscapeMap(s[1..])
    else CharText(s[0]) + EscapeMap(s[1..])
  }

  lemma ReplaceOne(c: char, x: char, text: string)
    ensures ReplaceChar([c], x, text) == if c == x then text else [c]
  {
    assert [c][1..] == "" && ReplaceChar("", x, text) == "";
  }

  lemma EscapedTexts()
    ensures '&' !in "\\\\" && '<' !in "\\\\" && '>' !in "\\\\" && '|' !in "\\\\"
    ensures '<' !in "&amp;" && '>' !in "&amp;" && '|' !in "&amp;"
    ensures '>' !in "&lt;" && '|' !in "&lt;" && '|' !in "&gt;"
  {
  }

  lemma EscapeMarksOfOne(c: char)
    ensures EscapeMarks([c]) == CharText(c)
  {
    EscapedTexts();
    hide ReplaceChar;
    ReplaceOne(c, '\\', "\\\\");
    ReplaceOne(c, '&', "&amp;");
    ReplaceOne(c, '<', "&lt;");
    ReplaceOne(c, '>', "&gt;");
    ReplaceOne(c, '|', "\\|");
    if c == '\\' {
      Escaped("\\\\");
    } else if c == '&' {
      Escaped("&amp;");
    } else if c == '<' {
      Escaped("&lt;");
    } else if c == '>' {
      Escaped("&gt;");
    }
  }

  /** Replacements of characters that do not occur change nothing. */
  lemma Escaped(t: string)
    ensures '&' !in t && '<' !in t && '>' !in t && '|' !in t ==>
            var entities := ReplaceChar(ReplaceChar(ReplaceChar(t, '&', "&amp;"), '<', "&lt;"), '>', "&gt;");
            ReplaceChar(entities, '|', "\\|") == t
    ensures '<' !in t && '>' !in t && '|' !in t ==>
            ReplaceChar(ReplaceChar(ReplaceChar(t, '<', "&lt;"), '>', "&gt;"), '|', "\\|") == t
    ensures '>' !in t && '|' !in t ==> ReplaceChar(ReplaceChar(t, '>', "&gt;"), '|', "\\|") == t
    ensures '|' !in t ==> ReplaceChar(t, '|', "\\|") == t
  {
    if '|' !in t {
      ReplaceCharAbsent(t, '|', "\\|");
    }
    if '>' !in t {
      ReplaceCharAbsent(t, '>', "&gt;");
    }
    if '<' !in t {
      ReplaceCharAbsent(t, '<', "&lt;");
    }
    if '&' !in t {
      ReplaceCharAbsent(t, '&', "&amp;");
    }
  }

  lemma EscapeMarksAppend(a: string, b: string)
    ensures EscapeMarks(a + b) == EscapeMarks(a) + EscapeMarks(b)
  {
    hide ReplaceChar;
    ReplaceCharAppend(a, b, '\\', "\\\\");
    var a1, b1 := ReplaceChar(a, '\\', "\\\\"), ReplaceChar(b, '\\', "\\\\");
    ReplaceCharAppend(a1, b1, '&', "&amp;");
    var a2, b2 := ReplaceChar(a1, '&', "&amp;"), ReplaceChar(b1, '&', "&amp;");
    ReplaceCharAppend(a2, b2, '<', "&lt;");
    var a3, b3 := ReplaceChar(a2, '<', "&lt;"), ReplaceChar(b2, '<', "&lt;");
    ReplaceCharAppend(a3, b3, '>', "&gt;");
    var a4, b4 := ReplaceChar(a3, '>', "&gt;"), ReplaceChar(b3, '>', "&gt;");
    ReplaceCharAppend(a4, b4, '|', "\\|");
  }

  lemma {:induction false} EscapeMarksIsMap(s: string)
    ensures EscapeMarks(s) == MapMarks(s)
  {
    if s != "" {
      hide EscapeMarks;
      EscapeMarksAppend([s[0]], s[1..]);
      EscapeMarksOfOne(s[0]);
      EscapeMarksIsMap(s[1..]);
      assert [s[0]] + s[1..] == s;
    }
  }

  lemma {:induction false} NewlinesAfter(a: string, b: string, text: string)
    requires '\n' !in a && '\r' !in a
    ensures ReplaceNewlines(a + b, text) == a + ReplaceNewlines(b, text)
  {
    if a == "" {
      assert a + b == b;
    } else {
      assert (a + b)[1..] == a[1..] + b;
      NewlinesAfter(a[1..], b, text);
    }
  }

  lemma MapMarksStart(s: string)
    requires s != ""
    ensures MapMarks(s) != "" && (MapMarks(s)[0] == '\n' <==> s[0] == '\n')
  {
  }

  lemma PlainChar(c: char)
    ensures c != '\n' && c != '\r' ==> '\n' !in CharText(c) && '\r' !in CharText(c)
    ensures c == '\n' || c == '\r' ==> CharText(c) == [c]
  {
  }

  lemma CarriageReturn(rest: string, text: string)
    ensures ReplaceNewlines(['\r'] + rest, text) ==
            if rest != "" && rest[0] == '\n' then text + ReplaceNewlines(rest[1..], text)
            else ['\r'] + ReplaceNewlines(rest, text)
  {
    var s := ['\r'] + rest;
    assert s[1..] == rest;
    if rest != "" {
      assert s[2..] == rest[1..];
    }
  }

  lemma LineFeed(rest: string, text: string)
    ensures ReplaceNewlines(['\n'] + rest, text) == text + ReplaceNewlines(rest, text)
  {
    assert (['\n'] + rest)[1..] == rest;
  }

  lemma {:induction false} NewlinesOfMap(s: string)
    ensures ReplaceNewlines(MapMarks(s), "<br>") == EscapeMap(s)
  {
    if s != "" {
      var rest := s[1..];
      NewlinesOfMap(rest);
      PlainChar(s[0]);
      assert MapMarks(s) == CharText(s[0]) + MapMarks(rest);
      if s[0] == '\r' {
        CarriageReturn(MapMarks(rest), "<br>");
        if rest != "" {
          MapMarksStart(rest);
          if rest[0] == '\n' {
            NewlinesOfMap(rest[1..]);
            PlainChar('\n');
            assert MapMarks(rest) == ['\n'] + MapMarks(rest[1..]);
            assert MapMarks(rest)[1..] == MapMarks(rest[1..]);
            assert s[2..] == rest[1..];
          }
        }
      } else if s[0] == '\n' {
        LineFeed(MapMarks(rest), "<br>");
      } else {
        NewlinesAfter(CharText(s[0]), MapMarks(rest), "<br>");
      }
    }
  }

  /** The six passes are one map over the characters. */
  lemma EscapeIsMap(s: string)
    ensures EscapeMarkdownCell(s) == EscapeMap(s)
  {
    EscapeMarksIsMap(s);
    NewlinesOfMap(s);
  }

  // ----- reading a cell back

  /** A reader of rendered cells: line breaks, entities and backslash escapes. */
  function Decode(t: string): string {
    if t == "" then ""
    else if StartsWith(t, "<br>") then ['\n'] + Decode(t[4..])
    else if StartsWith(t, "&amp;") then ['&'] + Decode(t[5..])
    else if StartsWith(t, "&lt;") then ['<'] + Decode(t[4..])
    else if StartsWith(t, "&gt;") then ['>'] + Decode(t[4..])
    else if t[0] == '\\' && |t| > 1 then [t[1]] + Decode(t[2..])
    else [t[0]] + Decode(t[1..])
  }

  /** Every carriage return before a line feed dropped. */
  function UnixLines(s: string): string { ReplaceNewlines(s, "\n") }

  lemma DecodeMark(mark: string, rest: string)
    requires mark in {"<br>", "&amp;", "&lt;", "&gt;", "\\\\", "\\|"}
    ensures Decode(mark + rest)
            == (if mark == "<br>" then "\n" else if mark == "&amp;" then "&" else if mark == "&lt;" then "<"
                else if mark == "&gt;" then ">" else [mark[1]]) + Decode(rest)
  {
    var t := mark + rest;
    assert t[|mark|..] == rest && StartsWith(t, mark);
    assert t[0] == mark[0] && t[1] == mark[1];
    DifferentMarks();
  }

  lemma DifferentMarks()
    ensures "<br>"[0] == '<' && "&amp;"[0] == "&lt;"[0] == "&gt;"[0] == '&' && "\\\\"[0] == "\\|"[0] == '\\'
    ensures "&amp;"[1] == 'a' && "&lt;"[1] == 'l' && "&gt;"[1] == 'g'
    ensures |"<br>"| == 4 && |"&amp;"| == 5 && |"&lt;"| == 4 && |"&gt;"| == 4 && |"\\\\"| == 2 && |"\\|"| == 2
  {
  }

  lemma DecodePlain(c: char, rest: string)
    requires c != '<' && c != '&' && c != '\\'
    ensures Decode([c] + rest) == [c] + Decode(rest)
  {
    assert ([c] + rest)[1..] == rest;
    DifferentMarks();
  }

  lemma DecodeChar(c: char, rest: string)
    requires c != '\n'
    ensures Decode(CharText(c) + rest) == [c] + Decode(rest)
  {
    hide Decode;
    if CharText(c) == [c] {
      DecodePlain(c, rest);
    } else {
      DecodeMark(CharText(c), rest);
      DifferentMarks();
    }
  }

  /** A reader gets the cell's text back, with line ends as line feeds. */
  lemma {:induction false} CellRoundTrip(s: string)
    ensures Decode(EscapeMarkdownCell(s)) == UnixLines(s)
  {
    EscapeIsMap(s);
    MapRoundTrip(s);
  }

  lemma {:induction false} MapRoundTrip(s: string)
    ensures Decode(EscapeMap(s)) == UnixLines(s)
  {
    if s != "" {
      hide Decode, CharText;
      if s[0] == '\r' && |s| > 1 && s[1] == '\n' {
        MapRoundTrip(s[2..]);
        DecodeMark("<br>", EscapeMap(s[2..]));
      } else {
        MapRoundTrip(s[1..]);
        if s[0] == '\n' {
          DecodeMark("<br>", EscapeMap(s[1..]));
        } else {
          DecodeChar(s[0], EscapeMap(s[1..]));
        }
      }
    } else {
      assert Decode("") == "";
    }
  }

  /** A rendered cell has no line feed. */
  lemma {:induction false} CellHasNoLineFeed(s: string)
    ensures '\n' !in EscapeMarkdownCell(s)
  {
    EscapeIsMap(s);
    MapHasNoLineFeed(s);
  }

  lemma {:induction false} MapHasNoLineFeed(s: string)
    ensures '\n' !in EscapeMap(s)
  {
    if s != "" {
      if s[0] == '\r' && |s| > 1 && s[1] == '\n' {
        MapHasNoLineFeed(s[2..]);
      } else {
        MapHasNoLineFeed(s[1..]);
      }
    }
  }

  // ----- rows

  /**
   * The cells of a table row: cut at each pipe that does not follow an odd run of backslashes.
   * `cell` is the cell read so far and `odd` tells whether it ends in such a run.
   */
  function Cells(t: string, cell: string, odd: bool): (cells: seq<string>)
    ensures |cells| > 0
    decreases |t|
  {
    if t == "" then [cell]
    else if t[0] == '|' && !odd then [cell] + Cells(t[1..], "", false)
    else Cells(t[1..], cell + [t[0]], t[0] == '\\' && !odd)
  }

  /** Text that a row reader passes over without cutting, ending outside an escape. */
  ghost predicate Inert(e: string) {
    forall rest, cell :: Cells(e + rest, cell, false) == Cells(rest, cell + e, false)
  }

  lemma InertPlain(c: char)
    requires c != '|' && c != '\\'
    ensures Inert([c])
  {
    forall rest, cell ensures Cells([c] + rest, cell, false) == Cells(rest, cell + [c], false) {
      assert ([c] + rest)[1..] == rest;
    }
  }

  lemma InertPair(c: char)
    ensures Inert(['\\', c])
  {
    forall rest, cell ensures Cells(['\\', c] + rest, cell, false) == Cells(rest, cell + ['\\', c], false) {
      var t := ['\\', c] + rest;
      assert t[1..] == [c] + rest && ([c] + rest)[1..] == rest;
      assert cell + ['\\'] + [c] == cell + ['\\', c];
    }
  }

  lemma InertAppend(a: string, b: string)
    requires Inert(a) && Inert(b)
    ensures Inert(a + b)
  {
    hide Cells;
    forall rest, cell ensures Cells(a + b + rest, cell, false) == Cells(rest, cell + (a + b), false) {
      assert a + b + rest == a + (b + rest);
      assert cell + (a + b) == (cell + a) + b;
      assert Cells(b + rest, cell + a, false) == Cells(rest, cell + a + b, false);
    }
  }

  lemma InertEmpty()
    ensures Inert("")
  {
    forall rest, cell ensures Cells("" + rest, cell, false) == Cells(rest, cell + "", false) {
      assert "" + rest == rest && cell + "" == cell;
    }
  }

  lemma {:induction false} InertWord(w: string)
    requires '|' !in w && '\\' !in w
    ensures Inert(w)
  {
    hide Inert;
    if w == "" {
      InertEmpty();
    } else {
      InertPlain(w[0]);
      InertWord(w[1..]);
      InertAppend([w[0]], w[1..]);
      assert [w[0]] + w[1..] == w;
    }
  }

  lemma InertChar(c: char)
    ensures Inert(CharText(c))
  {
    hide Inert;
    if c == '\\' || c == '|' {
      InertPair(c);
      assert CharText(c) == ['\\', c];
    } else {
      InertWord(CharText(c));
    }
  }

  /** Every pipe of a rendered cell follows an odd run of backslashes, and the cell ends in an even one. */
  lemma {:induction false} CellIsInert(s: string)
    ensures Inert(EscapeMarkdownCell(s))
  {
    EscapeIsMap(s);
    MapIsInert(s);
  }

  lemma {:induction false} MapIsInert(s: string)
    ensures Inert(EscapeMap(s))
  {
    hide Inert, CharText;
    if s == "" {
      InertEmpty();
    } else if s[0] == '\r' && |s| > 1 && s[1] == '\n' {
      MapIsInert(s[2..]);
      InertWord("<br>");
      InertAppend("<br>", EscapeMap(s[2..]));
    } else {
      MapIsInert(s[1..]);
      if s[0] == '\n' {
        InertWord("<br>");
        InertAppend("<br>", EscapeMap(s[1..]));
      } else {
        InertChar(s[0]);
        InertAppend(CharText(s[0]), EscapeMap(s[1..]));
      }
    }
  }

  /** The middle of a row: each cell between spaces and closed by a pipe. */
  function RowTail(cells: seq<string>): string {
    if cells == [] then "" else " " + EscapeMarkdownCell(cells[0]) + " |" + RowTail(cells[1..])
  }

  /** A rendered table row. */
  function Row(cells: seq<string>): string { "|" + RowTail(cells) }

  function Padded(cells: seq<string>): seq<string> {
    if cells == [] then [] else [" " + EscapeMarkdownCell(cells[0]) + " "] + Padded(cells[1..])
  }

  lemma {:induction false} TailCells(cells: seq<string>)
    ensures Cells(RowTail(cells), "", false) == Padded(cells) + [""]
  {
    if cells == [] {
      assert Cells("", "", false) == [""];
    } else {
      var e, rest := EscapeMarkdownCell(cells[0]), RowTail(cells[1..]);
      TailCells(cells[1..]);
      PaddedIsInert(cells[0]);
      hide EscapeMarkdownCell;
      var cell := " " + e + " ";
      assert RowTail(cells) == cell + ("|" + rest);
      assert Cells(cell + ("|" + rest), "", false) == Cells("|" + rest, "" + cell, false);
      assert "" + cell == cell && ("|" + rest)[1..] == rest;
    }
  }

  lemma PaddedIsInert(s: string)
    ensures Inert(" " + EscapeMarkdownCell(s) + " ")
  {
    CellIsInert(s);
    hide Inert, EscapeMarkdownCell;
    InertWord(" ");
    InertAppend(" ", EscapeMarkdownCell(s));
    InertAppend(" " + EscapeMarkdownCell(s), " ");
  }

  /** A rendered row is one line, and a reader finds exactly its cells in it, padded, between two empty ends. */
  lemma RowIsOneRow(cells: seq<string>)
    ensures '\n' !in Row(cells)
    ensures Cells(Row(cells), "", false) == [""] + Padded(cells) + [""]
  {
    TailHasNoLineFeed(cells);
    TailCells(cells);
    assert Row(cells)[1..] == RowTail(cells);
  }

  lemma {:induction false} TailHasNoLineFeed(cells: seq<string>)
    ensures '\n' !in RowTail(cells)
  {
    if cells != [] {
      CellHasNoLineFeed(cells[0]);
      hide EscapeMarkdownCell;
      TailHasNoLineFeed(cells[1..]);
    }
  }

  function Rows(table: seq<seq<string>>): seq<string> {
    seq(|table|, i requires 0 <= i < |table| => Row(table[i]))
  }

  /** The lines of a rendered table are exactly its rows: one line for each, whatever the cells hold. */
  lemma TableHasOneLinePerRow(table: seq<seq<string>>)
    requires table != []
    ensures Split(Join(Rows(table), '\n'), '\n') == Rows(table) && |Rows(table)| == |table|
  {
    forall i | 0 <= i < |table| ensures '\n' !in Row(table[i]) {
      RowIsOneRow(table[i]);
    }
    hide Row;
    SplitJoin(Rows(table), '\n');
  }
}
