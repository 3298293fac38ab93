// The character classes and text operations of Text, against alphabets written
// out and against what the operations leave of a text.
module TextRules {
  import opened Text
  import opened Sorting

  // ----- alphabets

  const UPPER_LETTERS := "ABCDEFGHIJKLMNOPQRSTUVWXYZ"
  const LOWER_LETTERS := "abcdefghijklmnopqrstuvwxyz"
  const DIGITS := "0123456789"

  predicate IsLetterOrDigit(c: char) { c in UPPER_LETTERS || c in LOWER_LETTERS || c in DIGITS }

  lemma UpperIff(c: char)
    ensures IsUpper(c) <==> c in UPPER_LETTERS
  {
    if IsUpper(c) {
      assert UPPER_LETTERS[(c - 'A') as nat] == c;
    }
  }

  lemma LowerIff(c: char)
    ensures IsLower(c) <==> c in LOWER_LETTERS
  {
    if IsLower(c) {
      assert LOWER_LETTERS[(c - 'a') as nat] == c;
    }
  }

  lemma DigitIff(c: char)
    ensures IsDigit(c) <==> c in DIGITS
    ensures IsDigit(c) ==> DIGITS[DigitValue(c)] == c
  {
    if IsDigit(c) {
      assert DIGITS[(c - '0') as nat] == c;
    }
  }

  lemma AlnumIff(c: char)
    ensures IsAlnum(c) <==> c in UPPER_LETTERS || c in LOWER_LETTERS || c in DIGITS
  {
    UpperIff(c);
    LowerIff(c);
    DigitIff(c);
    hide UPPER_LETTERS, LOWER_LETTERS, DIGITS, IsUpper, IsLower, IsDigit;
  }

  /** Lower case maps each capital to the letter in its place and leaves everything else. */
  lemma LowerCharIff(c: char)
    ensures c !in UPPER_LETTERS ==> LowerChar(c) == c
    ensures c in UPPER_LETTERS ==> exists i | 0 <= i < 26 :: c == UPPER_LETTERS[i] && LowerChar(c) == LOWER_LETTERS[i]
  {
    UpperIff(c);
    if IsUpper(c) {
      var i := (c - 'A') as nat;
      LetterAt(i);
    }
  }

  lemma LetterAt(i: nat)
    requires i < 26
    ensures UPPER_LETTERS[i] == 'A' + i as char && LOWER_LETTERS[i] == 'a' + i as char
  {
  }

  // ----- parts of a text

  lemma StartsWithIff(s: string, prefix: string)
    ensures StartsWith(s, prefix) <==> exists rest :: s == prefix + rest
  {
    if StartsWith(s, prefix) {
      assert s == prefix + s[|prefix|..];
    }
  }

  lemma EndsWithIff(s: string, suffix: string)
    ensures EndsWith(s, suffix) <==> exists front :: s == front + suffix
  {
    if EndsWith(s, suffix) {
      assert s == s[..|s| - |suffix|] + suffix;
    }
    if front :| s == front + suffix {
      assert s[|s| - |suffix|..] == suffix;
    }
  }

  lemma ContainsIff(s: string, part: string)
    ensures Contains(s, part) <==> exists before, after :: s == before + part + after
  {
    if i: nat :| i <= |s| && OccursAt(s, part, i) {
      assert s == s[..i] + part + s[i + |part|..];
    }
    if before, after :| s == before + part + after {
      assert s[|before|..|before| + |part|] == part;
      assert OccursAt(s, part, |before|);
    }
  }

  /** A text mentions a pattern when some part of it is the pattern up to letter case. */
  lemma MentionsIff(kind: string, pattern: string)
    ensures Mentions(kind, pattern) <==>
            exists before, part, after :: kind == before + part + after && Lower(part) == Lower(pattern)
  {
    if i: nat :| i <= |Lower(kind)| && OccursAt(Lower(kind), Lower(pattern), i) {
      var part := kind[i..i + |pattern|];
      assert kind == kind[..i] + part + kind[i + |pattern|..];
      assert Lower(part) == Lower(kind)[i..i + |pattern|];
    }
    if before, part, after :| kind == before + part + after && Lower(part) == Lower(pattern) {
      assert |part| == |Lower(part)| == |pattern|;
      assert Lower(kind)[|before|..|before| + |part|] == Lower(part);
      assert OccursAt(Lower(kind), Lower(pattern), |before|);
    }
  }

  // ----- order

  /** A text stands before another when it is its beginning, or has the smaller character where they first differ. */
  lemma {:induction false} LexLeIff(a: string, b: string)
    ensures LexLe(a, b) <==> a <= b || exists i: nat | i < |a| && i < |b| :: a[..i] == b[..i] && a[i] < b[i]
  {
    if a != "" && b != "" {
      if a[0] == b[0] {
        LexLeIff(a[1..], b[1..]);
        if i: nat :| i < |a| - 1 && i < |b| - 1 && a[1..][..i] == b[1..][..i] && a[1..][i] < b[1..][i] {
          assert a[..i + 1] == [a[0]] + a[1..][..i] && b[..i + 1] == [b[0]] + b[1..][..i];
          assert a[i + 1] < b[i + 1];
        }
        if i: nat :| i < |a| && i < |b| && a[..i] == b[..i] && a[i] < b[i] {
          assert i > 0;
          assert a[1..][..i - 1] == a[..i][1..] && b[1..][..i - 1] == b[..i][1..];
          assert a[1..][i - 1] < b[1..][i - 1];
        }
        assert a <= b <==> a[1..] <= b[1..] by {
          assert a == [a[0]] + a[1..] && b == [b[0]] + b[1..];
        }
      } else {
        if a[0] < b[0] {
          assert a[..0] == b[..0];
        }
        forall i: nat | 0 < i < |a| && i < |b| ensures a[..i] != b[..i] {
          assert a[..i][0] == a[0] && b[..i][0] == b[0];
        }
      }
    }
  }
}
