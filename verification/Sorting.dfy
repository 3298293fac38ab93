// `Array.prototype.sort`: a stable sort by a comparison, distinct elements, and
// the lexicographic order used where the sources compare strings.
module Sorting {

  ghost predicate Total<T(!new)>(le: (T, T) -> bool) {
    forall x, y :: le(x, y) || le(y, x)
  }

  ghost predicate Transitive<T(!new)>(le: (T, T) -> bool) {
    forall x, y, z :: le(x, y) && le(y, z) ==> le(x, z)
  }

  ghost predicate Sorted<T>(s: seq<T>, le: (T, T) -> bool) {
    forall i, j | 0 <= i < j < |s| :: le(s[i], s[j])
  }

  /** Puts `x` before the first element it does not exceed strictly. */
  function Insert<T>(x: T, s: seq<T>, le: (T, T) -> bool): seq<T> {
    if s == [] || le(x, s[0]) then [x] + s else [s[0]] + Insert(x, s[1..], le)
  }

  function Sort<T>(s: seq<T>, le: (T, T) -> bool): seq<T> {
    if s == [] then [] else Insert(s[0], Sort(s[1..], le), le)
  }

  lemma {:induction false} InsertMultiset<T>(x: T, s: seq<T>, le: (T, T) -> bool)
    ensures multiset(Insert(x, s, le)) == multiset(s) + multiset{x}
  {
    if s == [] || le(x, s[0]) {
    } else {
      InsertMultiset(x, s[1..], le);
      assert s == [s[0]] + s[1..];
    }
  }

  lemma {:induction false} SortMultiset<T>(s: seq<T>, le: (T, T) -> bool)
    ensures multiset(Sort(s, le)) == multiset(s)
    ensures |Sort(s, le)| == |s|
  {
    if s != [] {
      SortMultiset(s[1..], le);
      InsertMultiset(s[0], Sort(s[1..], le), le);
      assert s == [s[0]] + s[1..];
    }
    assert |multiset(Sort(s, le))| == |Sort(s, le)|;
    assert |multiset(s)| == |s|;
  }

  lemma {:induction false} InsertSorted<T(!new)>(x: T, s: seq<T>, le: (T, T) -> bool)
    requires Total(le) && Transitive(le) && Sorted(s, le)
    ensures Sorted(Insert(x, s, le), le)
  {
    if s == [] || le(x, s[0]) {
      forall j | 0 < j < |s| + 1 ensures le(x, ([x] + s)[j]) {
        assert j == 1 || le(s[0], s[j - 1]);
      }
    } else {
      var t := Insert(x, s[1..], le);
      InsertSorted(x, s[1..], le);
      InsertMultiset(x, s[1..], le);
      forall y | y in t ensures le(s[0], y) {
        assert y in multiset(t);
        assert y == x || y in s[1..];
      }
    }
  }

  lemma {:induction false} SortSorted<T(!new)>(s: seq<T>, le: (T, T) -> bool)
    requires Total(le) && Transitive(le)
    ensures Sorted(Sort(s, le), le)
  {
    if s != [] {
      SortSorted(s[1..], le);
      InsertSorted(s[0], Sort(s[1..], le), le);
    }
  }

  lemma SortMembers<T>(s: seq<T>, le: (T, T) -> bool)
    ensures forall x :: x in Sort(s, le) <==> x in s
  {
    SortMultiset(s, le);
    forall x ensures x in Sort(s, le) <==> x in s {
      assert x in multiset(Sort(s, le)) <==> x in multiset(s);
    }
  }

  /** No two positions of `s` compare equal both ways. */
  ghost predicate Strict<T>(s: seq<T>, le: (T, T) -> bool) {
    forall i, j | 0 <= i < j < |s| :: !(le(s[i], s[j]) && le(s[j], s[i]))
  }

  lemma FirstOfSorted<T>(s: seq<T>, t: seq<T>, le: (T, T) -> bool)
    requires s != [] && Sorted(s, le) && Sorted(t, le) && Strict(s, le)
    requires multiset(s) == multiset(t)
    ensures t != [] && s[0] == t[0]
  {
    assert s[0] in multiset(t);
    assert t[0] in multiset(s);
    var i :| 0 <= i < |s| && s[i] == t[0];
    var j :| 0 <= j < |t| && t[j] == s[0];
  }

  lemma TailSorted<T>(s: seq<T>, le: (T, T) -> bool)
    requires s != [] && Sorted(s, le)
    ensures Sorted(s[1..], le)
    ensures Strict(s, le) ==> Strict(s[1..], le)
  {
    var t := s[1..];
    assert forall i | 0 <= i < |t| :: t[i] == s[i + 1];
  }

  /** When no two elements tie, the multiset of elements fixes the sorted sequence. */
  lemma {:induction false} SortedUnique<T>(s: seq<T>, t: seq<T>, le: (T, T) -> bool)
    requires Sorted(s, le) && Sorted(t, le) && Strict(s, le)
    requires multiset(s) == multiset(t)
    ensures s == t
  {
    assert |s| == |multiset(s)| == |multiset(t)| == |t|;
    if s != [] {
      FirstOfSorted(s, t, le);
      var s', t' := s[1..], t[1..];
      assert s == [s[0]] + s' && t == [s[0]] + t';
      assert multiset(s') == multiset(s) - multiset{s[0]} == multiset(t');
      TailSorted(s, le);
      TailSorted(t, le);
      SortedUnique(s', t', le);
    }
  }

  /** Sorting does not depend on the order of the input when no two elements tie. */
  lemma SortPermutation<T(!new)>(s: seq<T>, t: seq<T>, le: (T, T) -> bool)
    requires Total(le) && Transitive(le)
    requires multiset(s) == multiset(t)
    requires forall x, y | x in s && y in s && x != y :: !(le(x, y) && le(y, x))
    requires Distinct(s)
    ensures Sort(s, le) == Sort(t, le)
  {
    SortSorted(s, le);
    SortSorted(t, le);
    SortMultiset(s, le);
    SortMultiset(t, le);
    SortMembers(s, le);
    DistinctByMultiset(s, Sort(s, le));
    SortedUnique(Sort(s, le), Sort(t, le), le);
  }

  // ----- stability

  predicate Tied<T>(x: T, y: T, le: (T, T) -> bool) { le(x, y) && le(y, x) }

  /** The elements that the order does not tell from `x`, as they stand in `s`. */
  function Ties<T>(s: seq<T>, x: T, le: (T, T) -> bool): seq<T> {
    if s == [] then [] else (if Tied(s[0], x, le) then [s[0]] else []) + Ties(s[1..], x, le)
  }

  lemma {:induction false} InsertTies<T(!new)>(y: T, s: seq<T>, x: T, le: (T, T) -> bool)
    requires Total(le) && Transitive(le)
    ensures Ties(Insert(y, s, le), x, le) == Ties([y] + s, x, le)
  {
    assert ([y] + s)[1..] == s;
    if s != [] && !le(y, s[0]) {
      InsertTies(y, s[1..], x, le);
      assert ([s[0]] + Insert(y, s[1..], le))[1..] == Insert(y, s[1..], le);
      assert ([y] + s[1..])[1..] == s[1..];
      assert !(Tied(y, x, le) && Tied(s[0], x, le));
    }
  }

  /** Sorting keeps the order of elements that tie. */
  lemma {:induction false} SortStable<T(!new)>(s: seq<T>, x: T, le: (T, T) -> bool)
    requires Total(le) && Transitive(le)
    ensures Ties(Sort(s, le), x, le) == Ties(s, x, le)
  {
    if s != [] {
      SortStable(s[1..], x, le);
      InsertTies(s[0], Sort(s[1..], le), x, le);
      assert ([s[0]] + Sort(s[1..], le))[1..] == Sort(s[1..], le);
    }
  }

  lemma HeadBelow<T(!new)>(s: seq<T>, x: T, le: (T, T) -> bool)
    requires Total(le) && Transitive(le) && Sorted(s, le) && Ties(s, x, le) != []
    ensures s != [] && le(s[0], x)
  {
    TiesOccur(s, x, le);
    var i :| 0 <= i < |s| && Tied(s[i], x, le);
    assert le(s[0], s[i]);
  }

  lemma OwnTies<T(!new)>(s: seq<T>, le: (T, T) -> bool)
    requires Total(le)
    ensures s != [] ==> exists x :: Ties(s, x, le) != []
  {
    if s != [] {
      assert Tied(s[0], s[0], le);
      assert Ties(s, s[0], le) != [];
    }
  }

  lemma TailTies<T>(s: seq<T>, x: T, le: (T, T) -> bool)
    requires s != []
    ensures Ties(s[1..], x, le) == if Tied(s[0], x, le) then Ties(s, x, le)[1..] else Ties(s, x, le)
    ensures Tied(s[0], x, le) ==> Ties(s, x, le)[0] == s[0]
  {
  }

  /** A sorted sequence is determined by its ties. */
  lemma {:induction false} TiesDecide<T(!new)>(s: seq<T>, t: seq<T>, le: (T, T) -> bool)
    requires Total(le) && Transitive(le) && Sorted(s, le) && Sorted(t, le)
    requires forall x :: Ties(s, x, le) == Ties(t, x, le)
    ensures s == t
  {
    if s == [] {
      OwnTies(t, le);
    } else {
      TailTies(s, s[0], le);
      assert Tied(s[0], s[0], le) && Ties(s, s[0], le) == Ties(t, s[0], le) != [];
      HeadBelow(t, s[0], le);
      TailTies(t, t[0], le);
      assert Tied(t[0], t[0], le) && Ties(t, t[0], le) == Ties(s, t[0], le) != [];
      HeadBelow(s, t[0], le);
      TailTies(t, s[0], le);
      assert s[0] == t[0];
      TailSorted(s, le);
      TailSorted(t, le);
      hide Ties;
      forall x ensures Ties(s[1..], x, le) == Ties(t[1..], x, le) {
        TailTies(s, x, le);
        TailTies(t, x, le);
        assert Ties(s, x, le) == Ties(t, x, le);
      }
      TiesDecide(s[1..], t[1..], le);
    }
  }

  lemma {:induction false} TiesOccur<T>(s: seq<T>, x: T, le: (T, T) -> bool)
    ensures Ties(s, x, le) != [] <==> exists i | 0 <= i < |s| :: Tied(s[i], x, le)
  {
    if s != [] {
      TiesOccur(s[1..], x, le);
      assert forall i | 0 < i < |s| :: s[i] == s[1..][i - 1];
    }
  }

  /** Sorting gives one result for two sequences exactly when their ties stand in one order. */
  lemma SortedAlikeIff<T(!new)>(s: seq<T>, t: seq<T>, le: (T, T) -> bool)
    requires Total(le) && Transitive(le)
    ensures Sort(s, le) == Sort(t, le) <==> forall x :: Ties(s, x, le) == Ties(t, x, le)
  {
    hide Total, Transitive, Ties, Sort, Sorted;
    if forall x :: Ties(s, x, le) == Ties(t, x, le) {
      forall x ensures Ties(Sort(s, le), x, le) == Ties(Sort(t, le), x, le) {
        SortStable(s, x, le);
        SortStable(t, x, le);
        assert Ties(s, x, le) == Ties(t, x, le);
      }
      SortSorted(s, le);
      SortSorted(t, le);
      TiesDecide(Sort(s, le), Sort(t, le), le);
    } else {
      var x :| Ties(s, x, le) != Ties(t, x, le);
      SortStable(s, x, le);
      SortStable(t, x, le);
    }
  }

  // ----- distinct elements

  ghost predicate Distinct<T(!new)>(s: seq<T>) {
    forall i, j | 0 <= i < j < |s| :: s[i] != s[j]
  }

  function Elements<T>(s: seq<T>): set<T> { set x | x in s }

  lemma {:induction false} SetSizeDistinct<T(!new)>(s: seq<T>)
    ensures |Elements(s)| <= |s|
    ensures |Elements(s)| == |s| <==> Distinct(s)
  {
    if s != [] {
      var t := s[1..];
      SetSizeDistinct(t);
      assert s == [s[0]] + t;
      assert Elements(s) == Elements(t) + {s[0]};
      assert Distinct(s) <==> Distinct(t) && s[0] !in t by {
        assert forall i | 0 <= i < |t| :: t[i] == s[i + 1];
        assert forall j | 0 < j < |s| :: s[j] == t[j - 1];
      }
    }
  }

  lemma {:induction false} DistinctCounts<T(!new)>(s: seq<T>)
    ensures Distinct(s) <==> forall x :: multiset(s)[x] <= 1
  {
    if s != [] {
      var t := s[1..];
      DistinctCounts(t);
      assert s == [s[0]] + t;
      assert multiset(s) == multiset{s[0]} + multiset(t);
      assert Distinct(s) <==> Distinct(t) && s[0] !in t by {
        assert forall i, j | 0 <= i < j < |t| :: t[i] == s[i + 1] && t[j] == s[j + 1];
        assert forall j | 0 < j < |s| :: s[j] == t[j - 1];
      }
      assert s[0] in t <==> multiset(s)[s[0]] > 1;
      assert forall x :: x != s[0] ==> multiset(s)[x] == multiset(t)[x];
    }
  }

  lemma DistinctByMultiset<T(!new)>(s: seq<T>, t: seq<T>)
    requires multiset(s) == multiset(t) && Distinct(s)
    ensures Distinct(t)
  {
    DistinctCounts(s);
    DistinctCounts(t);
  }

  // ----- strings

  /** Lexicographic order by character code. */
  predicate LexLe(a: string, b: string) {
    a == "" || (b != "" && (a[0] < b[0] || (a[0] == b[0] && LexLe(a[1..], b[1..]))))
  }

  lemma {:induction false} LexTotal(a: string, b: string)
    ensures LexLe(a, b) || LexLe(b, a)
    ensures LexLe(a, b) && LexLe(b, a) ==> a == b
  {
    if a != "" && b != "" && a[0] == b[0] {
      LexTotal(a[1..], b[1..]);
      assert a == [a[0]] + a[1..] && b == [b[0]] + b[1..];
    }
  }

  lemma {:induction false} LexTransitive(a: string, b: string, c: string)
    requires LexLe(a, b) && LexLe(b, c)
    ensures LexLe(a, c)
  {
    if a != "" && a[0] == b[0] == c[0] {
      LexTransitive(a[1..], b[1..], c[1..]);
    }
  }

  lemma LexOrder()
    ensures Total(LexLe) && Transitive(LexLe)
    ensures forall a, b :: LexLe(a, b) && LexLe(b, a) ==> a == b
  {
    forall a, b ensures (LexLe(a, b) || LexLe(b, a)) && (LexLe(a, b) && LexLe(b, a) ==> a == b) {
      LexTotal(a, b);
    }
    forall a, b, c | LexLe(a, b) && LexLe(b, c) ensures LexLe(a, c) {
      LexTransitive(a, b, c);
    }
  }
}
