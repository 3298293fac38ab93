// Strings as the sources use them: character classes of the regular
// expressions, splitting and joining on a separator, replacement of every
// occurrence of a character, and decimal text.
module Text {
  predicate IsDigit(c: char) { '0' <= c <= '9' }
  predicate IsLower(c: char) { 'a' <= c <= 'z' }
  predicate IsUpper(c: char) { 'A' <= c <= 'Z' }
  predicate IsAlnum(c: char) { IsDigit(c) || IsLower(c) || IsUpper(c) }

  predicate StartsWith(s: string, prefix: string) { prefix <= s }

  predicate EndsWith(s: string, suffix: string) {
    |suffix| <= |s| && s[|s| - |suffix|..] == suffix
  }

  // ----- separators

  /** `a` and `b` can be read back from `a + [sep] + b` when `sep` is not in `a`. */
  lemma {:induction false} SeparatorInjective(a: string, b: string, c: string, d: string, sep: char)
    requires sep !in a && sep !in c
    requires a + [sep] + b == c + [sep] + d
    ensures a == c && b == d
  {
    var s, t := a + [sep] + b, c + [sep] + d;
    assert s[0] == t[0];
    if a == "" {
      assert c == "";
      assert s[1..] == b && t[1..] == d;
    } else {
      assert c != "" && a[0] == c[0];
      assert s[1..] == a[1..] + [sep] + b && t[1..] == c[1..] + [sep] + d;
      SeparatorInjective(a[1..], b, c[1..], d, sep);
    }
  }

  /** JavaScript's `split` on a one-character separator. */
  function Split(s: string, sep: char): (parts: seq<string>)
    ensures |parts| > 0
  {
    if s == "" then [""]
    else
      var rest := Split(s[1..], sep);
      if s[0] == sep then [""] + rest else [[s[0]] + rest[0]] + rest[1..]
  }

  function Join(parts: seq<string>, sep: char): string {
    if |parts| == 0 then ""
    else if |parts| == 1 then parts[0]
    else parts[0] + [sep] + Join(parts[1..], sep)
  }

  lemma {:induction false} JoinSplit(s: string, sep: char)
    ensures Join(Split(s, sep), sep) == s
    ensures forall i | 0 <= i < |Split(s, sep)| :: sep !in Split(s, sep)[i]
  {
    if s != "" {
      JoinSplit(s[1..], sep);
      var rest := Split(s[1..], sep);
      if s[0] == sep {
        assert ([""] + rest)[1..] == rest;
      } else if |rest| > 1 {
        assert ([[s[0]] + rest[0]] + rest[1..])[1..] == rest[1..];
      }
    }
  }

  lemma {:induction false} SplitWord(s: string, sep: char)
    requires sep !in s
    ensures Split(s, sep) == [s]
  {
    if s != "" {
      SplitWord(s[1..], sep);
      assert [s[0]] + s[1..] == s;
    }
  }

  lemma {:induction false} SplitPair(a: string, b: string, sep: char)
    requires sep !in a
    ensures Split(a + [sep] + b, sep) == [a] + Split(b, sep)
  {
    var s := a + [sep] + b;
    if a == "" {
      assert s[1..] == b;
    } else {
      assert s[1..] == a[1..] + [sep] + b;
      SplitPair(a[1..], b, sep);
      assert s[0] == a[0] && [a[0]] + a[1..] == a;
    }
  }

  lemma {:induction false} SplitJoin(parts: seq<string>, sep: char)
    requires |parts| > 0
    requires forall i | 0 <= i < |parts| :: sep !in parts[i]
    ensures Split(Join(parts, sep), sep) == parts
  {
    if |parts| == 1 {
      SplitWord(parts[0], sep);
    } else {
      SplitPair(parts[0], Join(parts[1..], sep), sep);
      SplitJoin(parts[1..], sep);
    }
  }

  // ----- replacement

  /** `replaceAll` of a one-character pattern. */
  function ReplaceChar(s: string, c: char, text: string): string {
    if s == "" then ""
    else (if s[0] == c then text else [s[0]]) + ReplaceChar(s[1..], c, text)
  }

  lemma {:induction false} ReplaceCharAppend(a: string, b: string, c: char, text: string)
    ensures ReplaceChar(a + b, c, text) == ReplaceChar(a, c, text) + ReplaceChar(b, c, text)
  {
    if a == "" {
      assert a + b == b;
    } else {
      assert (a + b)[1..] == a[1..] + b;
      ReplaceCharAppend(a[1..], b, c, text);
    }
  }

  lemma {:induction false} ReplaceCharAbsent(s: string, c: char, text: string)
    requires c !in s
    ensures ReplaceChar(s, c, text) == s
  {
    if s != "" {
      ReplaceCharAbsent(s[1..], c, text);
    }
  }

  /** `replaceAll` of the two-character pattern `a`, `b`. */
  function ReplacePair(s: string, a: char, b: char, text: string): string {
    if |s| < 2 then s
    else if s[0] == a && s[1] == b then text + ReplacePair(s[2..], a, b, text)
    else [s[0]] + ReplacePair(s[1..], a, b, text)
  }

  // ----- decimal text

  function DigitChar(d: nat): char
    requires d < 10
  {
    '0' + d as char
  }

  function DigitValue(c: char): nat
    requires IsDigit(c)
  {
    (c - '0') as nat
  }

  predicate AllDigits(s: string) { forall i | 0 <= i < |s| :: IsDigit(s[i]) }

  /** `String(n)` of a natural number. */
  function Decimal(n: nat): (s: string)
    ensures |s| > 0 && AllDigits(s)
  {
    if n < 10 then [DigitChar(n)] else Decimal(n / 10) + [DigitChar(n % 10)]
  }

  /** `Number(s)` of a string of digits. */
  function DecimalValue(s: string): nat
    requires AllDigits(s)
  {
    if s == "" then 0 else 10 * DecimalValue(s[..|s| - 1]) + DigitValue(s[|s| - 1])
  }

  /** A nonempty string of digits without a superfluous leading zero. */
  predicate IsCanonicalDecimal(s: string) {
    |s| > 0 && AllDigits(s) && (|s| > 1 ==> s[0] != '0')
  }

  lemma {:induction false} DecimalRoundTrip(n: nat)
    ensures DecimalValue(Decimal(n)) == n
    ensures IsCanonicalDecimal(Decimal(n)) && (n > 0 ==> Decimal(n)[0] != '0')
  {
    if n >= 10 {
      DecimalRoundTrip(n / 10);
      var s := Decimal(n);
      assert s[..|s| - 1] == Decimal(n / 10);
    } else {
      assert Decimal(n)[..0] == "";
    }
  }

  lemma {:induction false} DecimalValueRoundTrip(s: string)
    requires IsCanonicalDecimal(s)
    ensures Decimal(DecimalValue(s)) == s
    ensures s[0] != '0' ==> DecimalValue(s) > 0
  {
    var front := s[..|s| - 1];
    if |s| > 1 {
      DecimalValueRoundTrip(front);
      assert front[0] == s[0];
    }
    assert s == front + [s[|s| - 1]];
  }

  /** The number of decimal digits bounds the value. */
  lemma {:induction false} DecimalLength(n: nat)
    ensures |Decimal(n)| <= 3 <==> n <= 999
    ensures |Decimal(n)| <= 2 <==> n <= 99
  {
    if n >= 10 {
      assert |Decimal(n)| == 1 + |Decimal(n / 10)|;
      if n >= 100 {
        assert |Decimal(n / 10)| == 1 + |Decimal(n / 100)|;
        assert (n / 10) / 10 == n / 100;
        if n >= 1000 {
          assert (n / 100) / 10 == n / 1000;
          assert |Decimal(n / 100)| == 1 + |Decimal(n / 1000)|;
        }
      }
    }
  }

  // ----- case and containment

  function LowerChar(c: char): char { if IsUpper(c) then 'a' + (c - 'A') else c }

  function Lower(s: string): string { seq(|s|, i requires 0 <= i < |s| => LowerChar(s[i])) }

  predicate OccursAt(s: string, part: string, i: nat) { i + |part| <= |s| && s[i..i + |part|] == part }

  predicate Contains(s: string, part: string) { exists i: nat | i <= |s| :: OccursAt(s, part, i) }

  /** A literal pattern with the `i` flag. */
  predicate Mentions(kind: string, pattern: string) { Contains(Lower(kind), Lower(pattern)) }
}
