// packages/drift/src/live-validator.ts: what redaction leaves at each place of a
// value, what is reported of one adapter, and what the numbers of a report count.
module LiveRules {
  import opened Wrappers
  import opened Text
  import opened TextRules
  import opened Sorting
  import opened Json
  import opened LiveValidator
  import opened LivePool
  import opened MarkdownEscape
  import opened LiveMarkdown

  // ----- secret keys

  /** The word occurs in the key, in any letter case. */
  ghost predicate Names(key: string, word: string) {
    exists before, part, after :: key == before + part + after && SpellsAlike(part, word)
  }

  /** The same letters but for case; `word` is in lower case. */
  predicate SpellsAlike(part: string, word: string) {
    && |part| == |word|
    && forall i | 0 <= i < |part| :: part[i] == word[i] || (IsUpper(part[i]) && 'a' + (part[i] - 'A') == word[i])
  }

  lemma SpelledIff(part: string, word: string)
    requires forall i | 0 <= i < |word| :: !IsUpper(word[i])
    ensures Lower(part) == Lower(word) <==> SpellsAlike(part, word)
  {
    assert Lower(word) == word;
    if SpellsAlike(part, word) {
      forall i | 0 <= i < |part| ensures LowerChar(part[i]) == word[i] {
        assert part[i] == word[i] || (IsUpper(part[i]) && 'a' + (part[i] - 'A') == word[i]);
      }
    }
    if Lower(part) == word {
      forall i | 0 <= i < |part| ensures part[i] == word[i] || (IsUpper(part[i]) && 'a' + (part[i] - 'A') == word[i]) {
        assert Lower(part)[i] == word[i];
      }
    }
  }

  lemma NamesIff(key: string, word: string)
    requires forall i | 0 <= i < |word| :: !IsUpper(word[i])
    ensures Mentions(key, word) <==> Names(key, word)
  {
    MentionsIff(key, word);
    forall part ensures Lower(part) == Lower(word) <==> SpellsAlike(part, word) {
      SpelledIff(part, word);
    }
    hide Mentions, SpellsAlike, Lower;
    if Mentions(key, word) {
      var before, part, after :| key == before + part + after && Lower(part) == Lower(word);
      assert SpellsAlike(part, word);
    }
    if Names(key, word) {
      var before, part, after :| key == before + part + after && SpellsAlike(part, word);
      assert Lower(part) == Lower(word);
    }
  }

  lemma SmallWords()
    ensures forall i | 0 <= i < |"secret"| :: !IsUpper("secret"[i])
    ensures forall i | 0 <= i < |"token"| :: !IsUpper("token"[i])
    ensures forall i | 0 <= i < |"password"| :: !IsUpper("password"[i])
    ensures forall i | 0 <= i < |"credential"| :: !IsUpper("credential"[i])
  {
  }

  lemma LargeWords()
    ensures forall i | 0 <= i < |"kubeconfig"| :: !IsUpper("kubeconfig"[i])
    ensures forall i | 0 <= i < |"accesskey"| :: !IsUpper("accesskey"[i])
    ensures forall i | 0 <= i < |"access_key"| :: !IsUpper("access_key"[i])
    ensures forall i | 0 <= i < |"access-key"| :: !IsUpper("access-key"[i])
  {
  }

  /** A key is secret when it has one of these words anywhere in it, in any letter case. */
  lemma SecretKeyIff(key: string)
    ensures IsSecretKey(key) <==>
            || Names(key, "secret") || Names(key, "token") || Names(key, "password") || Names(key, "credential")
            || Names(key, "kubeconfig")
            || Names(key, "accesskey") || Names(key, "access_key") || Names(key, "access-key")
  {
    SmallWords();
    LargeWords();
    NamesIff(key, "secret");
    NamesIff(key, "token");
    NamesIff(key, "password");
    NamesIff(key, "credential");
    NamesIff(key, "kubeconfig");
    NamesIff(key, "accesskey");
    NamesIff(key, "access_key");
    NamesIff(key, "access-key");
    hide Names, Mentions;
  }

  // ----- what a redacted value shows

  datatype Part = Index(i: nat) | Key(k: string)

  type Path = seq<Part>

  /** What stands at a place of a value. */
  function At(value: Json, path: Path): Option<Json>
    decreases |path|
  {
    if path == [] then Some(value)
    else
      match path[0]
      case Index(i) => if value.Arr? && i < |value.items| then At(value.items[i], path[1..]) else None
      case Key(k) => if value.Obj? && k in value.fields then At(value.fields[k], path[1..]) else None
  }

  predicate IsSecret(part: Part) { part.Key? && IsSecretKey(part.k) }

  /** The place lies nowhere below a secret key, and at most nine deep. */
  predicate IsKept(path: Path) { |path| <= 9 && forall i | 0 <= i < |path| - 1 :: !IsSecret(path[i]) }

  /** What is left of a value's own shape: its text or number, the length of a list, the keys of an object. */
  predicate SameShape(a: Json, b: Json) {
    match a
    case Arr(items) => b.Arr? && |b.items| == |items|
    case Obj(fields) => b.Obj? && b.fields.Keys == fields.Keys
    case _ => a == b
  }

  /** The same of a value at some depth, under a key that is not secret. */
  lemma {:induction false} RedactedBelow(value: Json, depth: nat, key: string, path: Path)
    requires At(value, path).Some? && depth <= 9 && !IsSecretKey(key) && (depth == 9 ==> path != [])
    ensures var left := 9 - depth;
            var r := At(RedactValue(value, depth, key), path);
            if |path| > left || exists i | 0 <= i < |path| - 1 :: IsSecret(path[i]) then r == None
            else
              && r.Some?
              && (path != [] && IsSecret(path[|path| - 1]) ==> r == Some(Str("[redacted]")))
              && ((path == [] || !IsSecret(path[|path| - 1])) && |path| == left ==>
                  r == Some(Str("[redacted-depth-limit]")))
              && ((path == [] || !IsSecret(path[|path| - 1])) && |path| < left ==>
                  SameShape(At(value, path).value, r.value))
    decreases |path|
  {
    NoWord();
    hide IsSecretKey;
    if path != [] && depth < 9 {
      var rest := path[1..];
      var inner := if path[0].Key? then path[0].k else "";
      var next := if path[0].Key? then value.fields[path[0].k] else value.items[path[0].i];
      assert forall i | 0 <= i < |rest| :: rest[i] == path[i + 1];
      if IsSecret(path[0]) {
        assert RedactValue(next, depth + 1, inner) == REDACTED;
      } else if depth + 1 == 9 && rest == [] {
        assert RedactValue(next, depth + 1, inner) == TOO_DEEP;
      } else {
        RedactedBelow(next, depth + 1, inner, rest);
      }
    }
  }

  lemma NoWord()
    ensures !IsSecretKey("")
  {
    SecretKeyIff("");
    forall word: string ensures Names("", word) ==> word == "" {
    }
  }

  /**
   * What a report shows at each place of an adapter's evidence: nothing below a secret key or deeper than nine, a mark
   * in place of a secret member's value and of what lies nine deep, and everything else as it was.
   */
  lemma RedactedAt(value: Json, path: Path)
    requires At(value, path).Some?
    ensures var r := At(RedactValue(value, 0, ""), path);
            var secret := path != [] && IsSecret(path[|path| - 1]);
            && (r.Some? <==> IsKept(path))
            && (IsKept(path) && secret ==> r == Some(Str("[redacted]")))
            && (IsKept(path) && !secret && |path| == 9 ==> r == Some(Str("[redacted-depth-limit]")))
            && (IsKept(path) && !secret && |path| < 9 ==> SameShape(At(value, path).value, r.value))
  {
    NoWord();
    RedactedBelow(value, 0, "", path);
    hide RedactValue, IsSecretKey, At;
  }

  /** A value at or below a secret key is nowhere to be seen. */
  lemma NoSecretShows(value: Json, path: Path, i: nat)
    requires At(value, path).Some? && i < |path| && IsSecret(path[i])
    ensures At(RedactValue(value, 0, ""), path) in {None, Some(Str("[redacted]"))}
  {
    RedactedAt(value, path);
    hide RedactValue, IsSecretKey, At;
  }

  // ----- what is reported of one adapter

  /** A provider's name in capitals, with underscores for its dashes. */
  predicate IsCapital(c: char, name: char) {
    if name == '-' then c == '_' else if IsLower(name) then IsUpper(c) && 'a' + (c - 'A') == name else c == name
  }

  lemma {:induction false} ReplacedAt(s: string, c: char, d: char, i: nat)
    requires i < |s|
    ensures |ReplaceChar(s, c, [d])| == |s| && ReplaceChar(s, c, [d])[i] == if s[i] == c then d else s[i]
  {
    if |s| > 1 {
      ReplacedAt(s[1..], c, d, if i > 0 then i - 1 else 0);
    } else {
      assert ReplaceChar(s[1..], c, [d]) == "";
    }
  }

  lemma CapitalName(provider: string) returns (name: string)
    ensures name == ReplaceChar(Upper(provider), '-', "_")
    ensures |name| == |provider| && forall i | 0 <= i < |provider| :: IsCapital(name[i], provider[i])
  {
    name := ReplaceChar(Upper(provider), '-', "_");
    assert "_" == ['_'];
    if provider == "" {
      assert Upper(provider) == "";
    }
    forall i | 0 <= i < |provider| ensures |name| == |provider| && IsCapital(name[i], provider[i]) {
      ReplacedAt(Upper(provider), '-', '_', i);
    }
  }

  /** The finding about an adapter that could not be evaluated. */
  ghost predicate IsDegraded(f: Finding, provider: string, now: string, evidence: Json) {
    && (exists name ::
          && f.id == "HULUMI-LIVE-" + name + "-DEGRADED" && |name| == |provider|
          && forall i | 0 <= i < |name| :: IsCapital(name[i], provider[i]))
    && f.provider == provider && f.severity == "medium" && f.status == "degraded" && f.resource == provider
    && f.message == provider + " live posture could not be fully evaluated"
    && f.evidence == evidence && f.observedAt == Some(now)
  }

  lemma DegradedIs(provider: string, now: string, evidence: Json)
    ensures IsDegraded(DegradedFinding(provider, now, evidence), provider, now, evidence)
  {
    var name := CapitalName(provider);
    hide ReplaceChar, Upper, IsCapital;
    assert DegradedFinding(provider, now, evidence).id == "HULUMI-LIVE-" + name + "-DEGRADED";
  }

  /**
   * An adapter that fails is reported by one finding with the reason. One that returns no more than the cap is
   * reported by its findings; of more, by the first ones and one finding with the two numbers.
   */
  lemma BoundedIs(adapter: Adapter, pageCap: nat, now: string)
    ensures var b := Bounded(adapter, pageCap, now);
            match adapter.outcome
            case Failed(reason) =>
              && |b| == 1 && b[0].evidence.Obj? && b[0].evidence.fields == map["reason" := Str(reason)]
              && IsDegraded(b[0], adapter.provider, now, b[0].evidence)
            case Returned(findings) =>
              if |findings| <= pageCap then b == findings
              else
                && |b| == pageCap + 1 && (forall i | 0 <= i < pageCap :: b[i] == findings[i])
                && IsDegraded(b[pageCap], adapter.provider, now, b[pageCap].evidence)
                && IsTruncation(b[pageCap].evidence, pageCap, |findings|)
  {
    var evidence := match adapter.outcome case Failed(reason) => Obj(map["reason" := Str(reason)])
                                          case Returned(findings) => Truncated(pageCap, |findings|);
    DegradedIs(adapter.provider, now, evidence);
    hide DegradedFinding, IsDegraded;
  }

  predicate IsTruncation(evidence: Json, pageCap: nat, returned: nat) {
    && evidence.Obj? && evidence.fields.Keys == {"reason", "pageCap", "returned"}
    && evidence.fields["reason"] == Str("page cap exceeded")
    && evidence.fields["pageCap"] == Num(pageCap) && evidence.fields["returned"] == Num(returned)
  }

  // ----- what is accepted, and how it is sorted

  /** A finding is accepted when its three words are among the known ones and its three texts are not empty. */
  lemma ValidFindingIff(f: Finding)
    ensures IsValid(f) <==>
            && (f.provider == "aws-org" || f.provider == "pulumi-state" || f.provider == "eks"
                || f.provider == "github")
            && (f.severity == "info" || f.severity == "low" || f.severity == "medium" || f.severity == "high"
                || f.severity == "critical")
            && (f.status == "pass" || f.status == "fail" || f.status == "degraded" || f.status == "skipped")
            && |f.id| > 0 && |f.resource| > 0 && |f.message| > 0
  {
  }

  /** Normalising keeps every field but the evidence and a missing time. */
  lemma NormalizedIs(f: Finding, now: string)
    ensures var g := Normalize(f, now);
            && g.id == f.id && g.provider == f.provider && g.severity == f.severity && g.status == f.status
            && g.resource == f.resource && g.message == f.message && g.evidence == RedactValue(f.evidence, 0, "")
            && (f.observedAt.Some? ==> g.observedAt == f.observedAt)
            && (f.observedAt.None? ==> g.observedAt == Some(now))
  {
    hide RedactValue;
  }

  ghost predicate StrictlyBefore(s: string, t: string) {
    s != t && (s <= t || exists i: nat | i < |s| && i < |t| :: s[..i] == t[..i] && s[i] < t[i])
  }

  lemma StrictIff(s: string, t: string)
    ensures LexLe(s, t) && s != t <==> StrictlyBefore(s, t)
    ensures LexLe(s, t) <==> s == t || StrictlyBefore(s, t)
  {
    LexLeIff(s, t);
    hide LexLe;
  }

  /** Findings are sorted by provider, then by id, then by resource. */
  lemma FindingLeIff(f: Finding, g: Finding)
    ensures FindingLe(f, g) <==>
            || StrictlyBefore(f.provider, g.provider)
            || (f.provider == g.provider && StrictlyBefore(f.id, g.id))
            || (f.provider == g.provider && f.id == g.id
                && (f.resource == g.resource || StrictlyBefore(f.resource, g.resource)))
  {
    StrictIff(f.provider, g.provider);
    StrictIff(f.id, g.id);
    StrictIff(f.resource, g.resource);
    hide LexLe, StrictlyBefore;
    LexOrder();
  }

  /** The adapters are the given ones, and run in the order of their providers. */
  lemma ProviderOrder(adapters: seq<Adapter>, i: nat, j: nat)
    requires i < j < |adapters|
    ensures var sorted := Sort(adapters, ProviderLe);
            && multiset(sorted) == multiset(adapters) && |sorted| == |adapters|
            && (sorted[i].provider == sorted[j].provider || StrictlyBefore(sorted[i].provider, sorted[j].provider))
  {
    LexOrder();
    hide LexLe;
    assert Total(ProviderLe) && Transitive(ProviderLe) by {
      forall a, b ensures ProviderLe(a, b) || ProviderLe(b, a) {
        assert LexLe(a.provider, b.provider) || LexLe(b.provider, a.provider);
      }
      forall a, b, c | ProviderLe(a, b) && ProviderLe(b, c) ensures ProviderLe(a, c) {
        assert LexLe(a.provider, b.provider) && LexLe(b.provider, c.provider);
      }
    }
    SortSorted(adapters, ProviderLe);
    SortMultiset(adapters, ProviderLe);
    var sorted := Sort(adapters, ProviderLe);
    hide Sort;
    assert ProviderLe(sorted[i], sorted[j]);
    StrictIff(sorted[i].provider, sorted[j].provider);
    hide StrictlyBefore;
  }

  // ----- the numbers

  /** The positions of the findings with a status. */
  function Positions(findings: seq<Finding>, status: string): set<nat> {
    set i: nat | i < |findings| && findings[i].status == status
  }

  lemma {:induction false} CountIs(findings: seq<Finding>, status: string)
    ensures CountStatus(findings, status) == |Positions(findings, status)|
  {
    if findings != [] {
      var n := |findings| - 1;
      CountIs(findings[..n], status);
      var before := Positions(findings[..n], status);
      assert Positions(findings, status) == if findings[n].status == status then before + {n} else before;
    }
  }

  lemma SummaryIs(findings: seq<Finding>)
    ensures var s := Summarize(findings);
            && s.total == |findings|
            && s.pass == |Positions(findings, "pass")| && s.fail == |Positions(findings, "fail")|
            && s.degraded == |Positions(findings, "degraded")| && s.skipped == |Positions(findings, "skipped")|
  {
    CountIs(findings, "pass");
    CountIs(findings, "fail");
    CountIs(findings, "degraded");
    CountIs(findings, "skipped");
    hide CountStatus, Positions;
  }

  /** A run is refused for a limit below one; limits left out are 30000 ms, two workers and 100 findings. */
  lemma LimitsIff(timeoutMs: Option<int>, maxConcurrency: Option<int>, pageCap: Option<int>)
    ensures LimitsOk(timeoutMs, maxConcurrency, pageCap) <==>
            forall v: int | Some(v) in {timeoutMs, maxConcurrency, pageCap} :: v >= 1
    ensures PositiveInt(None, DEFAULT_TIMEOUT_MS) == Some(30000)
    ensures PositiveInt(None, DEFAULT_MAX_CONCURRENCY) == Some(2) && PositiveInt(None, DEFAULT_PAGE_CAP) == Some(100)
    ensures forall v: nat, fallback: nat | v > 0 && fallback > 0 :: PositiveInt(Some(v), fallback) == Some(v)
  {
    var given := {timeoutMs, maxConcurrency, pageCap};
    assert timeoutMs in given && maxConcurrency in given && pageCap in given;
    if LimitsOk(timeoutMs, maxConcurrency, pageCap) {
      forall v: int | Some(v) in given ensures v >= 1 {
      }
    }
    if forall v: int | Some(v) in given :: v >= 1 {
      assert timeoutMs.Some? ==> Some(timeoutMs.value) in given;
      assert maxConcurrency.Some? ==> Some(maxConcurrency.value) in given;
      assert pageCap.Some? ==> Some(pageCap.value) in given;
    }
  }

  /** As many workers as allowed, but one at least and not more than there are adapters to run. */
  lemma WorkersAre(maxConcurrency: nat, adapters: nat)
    requires maxConcurrency > 0
    ensures var w := Workers(maxConcurrency, adapters);
            && 1 <= w <= maxConcurrency && (adapters > 0 ==> w <= adapters)
            && (w == maxConcurrency || w == adapters || (adapters == 0 && w == 1))
  {
  }

  // ----- the heading of the Markdown report

  lemma {:induction false} DigitsNeedNoEscape(s: string)
    requires AllDigits(s)
    ensures EscapeMap(s) == s && UnixLines(s) == s
  {
    if s != "" {
      DigitsNeedNoEscape(s[1..]);
      assert s == [s[0]] + s[1..];
    }
  }

  function Numbers(s: Summary): seq<string> {
    [Decimal(s.total), Decimal(s.pass), Decimal(s.fail), Decimal(s.degraded), Decimal(s.skipped)]
  }

  lemma NumberCell(n: nat)
    ensures EscapeMarkdownCell(Decimal(n)) == Decimal(n) && UnixLines(Decimal(n)) == Decimal(n)
  {
    EscapeIsMap(Decimal(n));
    DigitsNeedNoEscape(Decimal(n));
  }

  /** The line of numbers is a row of the table above it, and a reader finds the five numbers in it. */
  lemma NumbersReadBack(s: Summary)
    ensures ReadRow(SummaryLine(s)) == Numbers(s)
    ensures DecimalValue(ReadRow(SummaryLine(s))[0]) == s.total && DecimalValue(ReadRow(SummaryLine(s))[1]) == s.pass
    ensures DecimalValue(ReadRow(SummaryLine(s))[2]) == s.fail && DecimalValue(ReadRow(SummaryLine(s))[3]) == s.degraded
    ensures DecimalValue(ReadRow(SummaryLine(s))[4]) == s.skipped
  {
    forall n: nat
      ensures EscapeMarkdownCell(Decimal(n)) == Decimal(n) && UnixLines(Decimal(n)) == Decimal(n)
      ensures DecimalValue(Decimal(n)) == n
    {
      NumberCell(n);
      DecimalRoundTrip(n);
    }
    ReadsRow(Numbers(s));
    NumbersRow(s);
    NumbersUnix(s);
    hide ReadRow, Row, UnixCells, SummaryLine, Decimal, DecimalValue;
  }

  lemma NextCell(line: string, cells: seq<string>, i: nat)
    requires i < |cells| && EscapeMarkdownCell(cells[i]) == cells[i]
    ensures line + " |" + RowTail(cells[i..]) == line + " | " + cells[i] + " |" + RowTail(cells[i + 1..])
  {
    hide EscapeMarkdownCell;
    assert cells[i..][1..] == cells[i + 1..];
    var tail := RowTail(cells[i + 1..]);
    hide RowTail;
    assert " | " == " |" + " ";
    assert line + " |" + (" " + cells[i] + " |" + tail) == line + (" |" + " ") + cells[i] + " |" + tail;
  }

  lemma NumbersRow(s: Summary)
    requires forall n: nat :: EscapeMarkdownCell(Decimal(n)) == Decimal(n)
    ensures SummaryLine(s) == Row(Numbers(s))
  {
    hide EscapeMarkdownCell, Decimal;
    var n := Numbers(s);
    var a := "| " + n[0];
    var b := a + " | " + n[1];
    var c := b + " | " + n[2];
    var d := c + " | " + n[3];
    NextCell(a, n, 1);
    NextCell(b, n, 2);
    NextCell(c, n, 3);
    NextCell(d, n, 4);
    assert RowTail(n[5..]) == "";
    FirstCell(n);
    hide RowTail;
  }

  lemma FirstCell(cells: seq<string>)
    requires cells != [] && EscapeMarkdownCell(cells[0]) == cells[0]
    ensures Row(cells) == "| " + cells[0] + " |" + RowTail(cells[1..])
  {
    hide EscapeMarkdownCell;
    assert "| " == "|" + " ";
  }

  lemma NumbersUnix(s: Summary)
    requires forall n: nat :: UnixLines(Decimal(n)) == Decimal(n)
    ensures UnixCells(Numbers(s)) == Numbers(s)
  {
    hide UnixLines, Decimal;
    var n := Numbers(s);
    assert UnixCells(n[5..]) == [] && UnixCells(n[4..]) == [n[4]] && UnixCells(n[3..]) == [n[3]] + UnixCells(n[4..]);
    assert UnixCells(n[2..]) == [n[2]] + UnixCells(n[3..]) && UnixCells(n[1..]) == [n[1]] + UnixCells(n[2..]);
  }

  /** What stands in the lines of the heading and in the cells of a finding's row. */
  lemma HeadingIs(generatedAt: string, summary: Summary)
    ensures var lines := Heading(generatedAt, summary);
            && lines[0] == "# Hulumi Live Validation Report"
            && lines[2] == "Generated: " + EscapeMarkdownCell(generatedAt)
            && lines[4] == "| Total | Pass | Fail | Degraded | Skipped |" && lines[6] == SummaryLine(summary)
            && lines[1] == lines[3] == lines[7] == ""
  {
    hide SummaryLine, EscapeMarkdownCell;
  }

  lemma TableHeadingIs(generatedAt: string, summary: Summary)
    ensures var lines := Heading(generatedAt, summary);
            && lines[5] == "|---:|---:|---:|---:|---:|" && lines[9] == "|---|---|---|---|---|---|"
            && lines[8] == "| Provider | ID | Severity " + "| Status | Resource | Message |"
  {
    hide SummaryLine, EscapeMarkdownCell;
  }

  lemma RowCells(f: Finding)
    ensures var cells := UnixCells(FindingCells(f));
            && |cells| == 6
            && cells[0] == UnixLines(f.provider) && cells[1] == UnixLines(f.id) && cells[2] == UnixLines(f.severity)
            && cells[3] == UnixLines(f.status) && cells[4] == UnixLines(f.resource) && cells[5] == UnixLines(f.message)
  {
    hide UnixLines;
    var cells := FindingCells(f);
    assert UnixCells(cells[6..]) == [] && UnixCells(cells[5..]) == [UnixLines(cells[5])];
    assert UnixCells(cells[4..]) == [UnixLines(cells[4])] + UnixCells(cells[5..]);
    assert UnixCells(cells[3..]) == [UnixLines(cells[3])] + UnixCells(cells[4..]);
    assert UnixCells(cells[2..]) == [UnixLines(cells[2])] + UnixCells(cells[3..]);
    assert UnixCells(cells[1..]) == [UnixLines(cells[1])] + UnixCells(cells[2..]);
  }

  /** Reading line ends as line feeds changes nothing in a text without carriage returns. */
  lemma {:induction false} UnixLinesPlain(s: string)
    requires '\r' !in s
    ensures UnixLines(s) == s
  {
    if s != "" {
      UnixLinesPlain(s[1..]);
      assert s == [s[0]] + s[1..] && "\n" == ['\n'];
    }
  }
}
