// packages/k8s-baseline/src/github-app-credential.ts: the canonical text of a
// repository and permission scope, at build time and at run time.
module ScopeCanonical {
  import opened Wrappers
  import opened Text
  import opened Sorting
  import opened Json

  const MAX_REPOSITORIES := 500
  const MAX_PERMISSIONS := 100
  const MAX_SCOPE_BYTES := 16 * 1024
  const MAX_RESPONSE_BYTES := 16 * 1024

  type Permissions = map<string, string>

  datatype Scope = Scope(repos: seq<string>, permissions: Permissions, canonical: string)

  // ----- patterns

  predicate OwnerChar(c: char) { IsAlnum(c) || c == '-' }

  predicate NameChar(c: char) { IsAlnum(c) || c == '_' || c == '.' || c == '-' }

  predicate IsOwner(s: string) {
    1 <= |s| <= 39 && IsAlnum(s[0]) && IsAlnum(s[|s| - 1]) && forall i | 0 <= i < |s| :: OwnerChar(s[i])
  }

  predicate IsRepositoryName(s: string) { 1 <= |s| <= 100 && forall i | 0 <= i < |s| :: NameChar(s[i]) }

  predicate IsOwnerRepository(s: string) {
    var parts := Split(s, '/');
    |parts| == 2 && IsOwner(parts[0]) && IsRepositoryName(parts[1]) && parts[1] != "." && parts[1] != ".."
  }

  predicate IsRepo(s: string) { s == "*" || IsOwnerRepository(s) }

  predicate IsPermissionName(s: string) {
    1 <= |s| <= 64 && IsLower(s[0]) && forall i | 0 <= i < |s| :: IsLower(s[i]) || IsDigit(s[i]) || s[i] == '_'
  }

  predicate IsLevel(s: string) { s == "read" || s == "write" || s == "admin" }

  // ----- the canonical text: JSON without spaces, keys and repositories sorted

  function Quote(s: string): string { ['"'] + s + ['"'] }

  function EntryText(key: string, value: string): string { Quote(key) + ([':'] + Quote(value)) }

  function MoreEntries(keys: seq<string>, m: Permissions): string
    requires forall k | k in keys :: k in m
  {
    if keys == [] then ['}'] else [','] + (EntryText(keys[0], m[keys[0]]) + MoreEntries(keys[1..], m))
  }

  function ObjectText(keys: seq<string>, m: Permissions): string
    requires forall k | k in keys :: k in m
  {
    if keys == [] then "{}" else ['{'] + (EntryText(keys[0], m[keys[0]]) + MoreEntries(keys[1..], m))
  }

  function MoreStrings(items: seq<string>): string {
    if items == [] then [']'] else [','] + (Quote(items[0]) + MoreStrings(items[1..]))
  }

  function ArrayText(items: seq<string>): string {
    if items == [] then "[]" else ['['] + (Quote(items[0]) + MoreStrings(items[1..]))
  }

  lemma LeastKey(keys: set<string>) returns (least: string)
    requires keys != {}
    ensures least in keys && forall k | k in keys :: LexLe(least, k)
  {
    LexOrder();
    hide LexLe;
    var some :| some in keys;
    if keys == {some} {
      least := some;
      assert LexLe(least, least);
    } else {
      assert keys - {some} != {};
      var rest := LeastKey(keys - {some});
      least := if LexLe(some, rest) then some else rest;
      forall k | k in keys ensures LexLe(least, k) {
        if k != some {
          assert LexLe(rest, k);
        } else {
          assert LexLe(some, rest) || LexLe(rest, some);
          assert LexLe(some, some);
        }
      }
    }
  }

  predicate IsLeast(least: string, keys: set<string>) { least in keys && forall k | k in keys :: LexLe(least, k) }

  /** The keys of an object in ascending order. */
  function SortedKeys(keys: set<string>): (s: seq<string>)
    ensures forall k :: k in s <==> k in keys
    ensures |s| == |keys|
  {
    if keys == {} then []
    else
      assert exists least :: IsLeast(least, keys) by {
        var least := LeastKey(keys);
        assert IsLeast(least, keys);
      }
      assert forall a, b | IsLeast(a, keys) && IsLeast(b, keys) :: a == b by {
        LexOrder();
      }
      var least :| IsLeast(least, keys);
      [least] + SortedKeys(keys - {least})
  }

  function CanonicalText(repos: seq<string>, m: Permissions): string {
    "{\"permissions\":" + (ObjectText(SortedKeys(m.Keys), m) + (",\"repos\":" + (ArrayText(repos) + "}")))
  }

  // ----- the two normalisers

  predicate AllStrings(items: seq<Json>) { forall i | 0 <= i < |items| :: items[i].Str? }

  function Strings(items: seq<Json>): seq<string>
    requires AllStrings(items)
  {
    seq(|items|, i requires 0 <= i < |items| => items[i].s)
  }

  predicate AcceptableRepos(repos: seq<string>) {
    && |Elements(repos)| == |repos| && ("*" in repos ==> |repos| == 1)
    && forall i | 0 <= i < |repos| :: IsRepo(repos[i])
  }

  predicate AcceptablePermissions(fields: map<string, Json>) {
    && 0 < |fields| <= MAX_PERMISSIONS
    && forall k | k in fields :: IsPermissionName(k) && fields[k].Str? && IsLevel(fields[k].s)
  }

  function Levels(fields: map<string, Json>): Permissions
    requires forall k | k in fields :: fields[k].Str?
  {
    map k | k in fields :: fields[k].s
  }

  /** The checks after the repository list is known to be a list of strings. */
  function NormalizeNames(names: seq<string>, permissions: Json): Option<Scope> {
    if !AcceptableRepos(names) || !permissions.Obj? || !AcceptablePermissions(permissions.fields) then None
    else
      var sorted := Sort(names, LexLe);
      var canonical := CanonicalText(sorted, Levels(permissions.fields));
      if |canonical| > MAX_SCOPE_BYTES then None else Some(Scope(sorted, Levels(permissions.fields), canonical))
  }

  function NormalizeRuntimeScope(repos: Json, permissions: Json): Option<Scope> {
    if !repos.Arr? || repos.items == [] || |repos.items| > MAX_REPOSITORIES || !AllStrings(repos.items) then None
    else NormalizeNames(Strings(repos.items), permissions)
  }

  datatype BuildError =
    | NoRepos | TooManyRepos | DuplicateRepos | WildcardNotAlone | UnsafeRepo
    | NoPermissions | TooManyPermissions | UnsafePermission | ScopeTooLarge

  datatype BuildScope = BuildScope(repos: seq<string>, permissions: Permissions, digest: string)

  /** The build-time checks in their order; `digest` is SHA-256 in hexadecimal. */
  function NormalizeScope(repos: Json, permissions: Json, digest: string -> string): Result<BuildScope, BuildError> {
    if !repos.Arr? || repos.items == [] then Err(NoRepos)
    else if |repos.items| > MAX_REPOSITORIES then Err(TooManyRepos)
    else if exists i, j | 0 <= i < j < |repos.items| :: repos.items[i] == repos.items[j] then Err(DuplicateRepos)
    else if Str("*") in repos.items && |repos.items| != 1 then Err(WildcardNotAlone)
    else if exists i | 0 <= i < |repos.items| :: !(repos.items[i].Str? && IsRepo(repos.items[i].s)) then Err(UnsafeRepo)
    else if !permissions.Obj? || permissions.fields == map[] then Err(NoPermissions)
    else if |permissions.fields| > MAX_PERMISSIONS then Err(TooManyPermissions)
    else if exists k | k in permissions.fields ::
            !IsPermissionName(k) || !permissions.fields[k].Str? || !IsLevel(permissions.fields[k].s)
    then Err(UnsafePermission)
    else
      var sorted := Sort(Strings(repos.items), LexLe);
      var canonical := CanonicalText(sorted, Levels(permissions.fields));
      if |canonical| > MAX_SCOPE_BYTES then Err(ScopeTooLarge)
      else Ok(BuildScope(sorted, Levels(permissions.fields), digest(canonical)))
  }

  // ----- they agree

  lemma DistinctStrings(items: seq<Json>)
    requires AllStrings(items)
    ensures |Elements(Strings(items))| == |items| <==> forall i, j | 0 <= i < j < |items| :: items[i] != items[j]
    ensures "*" in Strings(items) <==> Str("*") in items
  {
    SetSizeDistinct(Strings(items));
    var names := Strings(items);
    assert forall i | 0 <= i < |items| :: items[i] == Str(names[i]);
    if Str("*") in items {
      var i :| 0 <= i < |items| && items[i] == Str("*");
      assert names[i] == "*";
    }
  }

  /** What is configured at build time is exactly what the broker accepts at run time, in the same normal form. */
  lemma NormalisersAgree(repos: Json, permissions: Json, digest: string -> string)
    ensures NormalizeScope(repos, permissions, digest).Ok? <==> NormalizeRuntimeScope(repos, permissions).Some?
    ensures NormalizeScope(repos, permissions, digest).Ok? ==>
              var b, r := NormalizeScope(repos, permissions, digest).value,
                          NormalizeRuntimeScope(repos, permissions).value;
              b.repos == r.repos && b.permissions == r.permissions && b.digest == digest(r.canonical)
  {
    hide IsRepo, IsPermissionName, IsLevel, CanonicalText, Sort, Elements;
    if repos.Arr? && AllStrings(repos.items) {
      DistinctStrings(repos.items);
      var names := Strings(repos.items);
      assert forall i | 0 <= i < |repos.items| :: names[i] == repos.items[i].s;
    }
  }

  // ----- the canonical text tells scopes apart

  lemma QuoteInjective(a: string, x: string, b: string, y: string)
    requires '"' !in a && '"' !in b && Quote(a) + x == Quote(b) + y
    ensures a == b && x == y
  {
    var s, t := a + ['"'] + x, b + ['"'] + y;
    assert Quote(a) + x == ['"'] + s && Quote(b) + y == ['"'] + t;
    assert (['"'] + s)[1..] == s && (['"'] + t)[1..] == t;
    SeparatorInjective(a, x, b, y, '"');
  }

  lemma EntryInjective(k: string, v: string, x: string, l: string, w: string, y: string)
    requires '"' !in k && '"' !in v && '"' !in l && '"' !in w
    requires EntryText(k, v) + x == EntryText(l, w) + y
    ensures k == l && v == w && x == y
  {
    assert EntryText(k, v) + x == Quote(k) + ([':'] + (Quote(v) + x));
    assert EntryText(l, w) + y == Quote(l) + ([':'] + (Quote(w) + y));
    QuoteInjective(k, [':'] + (Quote(v) + x), l, [':'] + (Quote(w) + y));
    assert ([':'] + (Quote(v) + x))[1..] == Quote(v) + x && ([':'] + (Quote(w) + y))[1..] == Quote(w) + y;
    QuoteInjective(v, x, w, y);
  }

  ghost predicate NoQuotes(keys: seq<string>, m: Permissions) {
    forall k | k in keys :: k in m && '"' !in k && '"' !in m[k]
  }

  lemma SameStart(c: char, s: string, d: char, t: string)
    requires [c] + s == [d] + t
    ensures c == d && s == t
  {
    assert ([c] + s)[0] == c && ([d] + t)[0] == d;
    assert ([c] + s)[1..] == s && ([d] + t)[1..] == t;
  }

  lemma MoreEntriesStart(keys: seq<string>, m: Permissions, x: string)
    requires forall k | k in keys :: k in m
    ensures keys == [] ==> MoreEntries(keys, m) + x == ['}'] + x
    ensures keys != [] ==>
            MoreEntries(keys, m) + x == [','] + (EntryText(keys[0], m[keys[0]]) + (MoreEntries(keys[1..], m) + x))
  {
    hide EntryText;
  }

  /** Equal listings of entries, whatever follows each, list the same keys with the same values. */
  lemma {:induction false} MoreEntriesInjective(keys: seq<string>, m: Permissions, x: string, others: seq<string>,
                                                n: Permissions, y: string)
    requires NoQuotes(keys, m) && NoQuotes(others, n) && MoreEntries(keys, m) + x == MoreEntries(others, n) + y
    ensures keys == others && x == y && forall k | k in keys :: m[k] == n[k]
  {
    MoreEntriesStart(keys, m, x);
    MoreEntriesStart(others, n, y);
    hide EntryText, MoreEntries;
    if keys == [] && others == [] {
      SameStart('}', x, '}', y);
    } else if keys == [] {
      SameStart('}', x, ',', EntryText(others[0], n[others[0]]) + (MoreEntries(others[1..], n) + y));
    } else if others == [] {
      SameStart(',', EntryText(keys[0], m[keys[0]]) + (MoreEntries(keys[1..], m) + x), '}', y);
    } else {
      SameStart(',', EntryText(keys[0], m[keys[0]]) + (MoreEntries(keys[1..], m) + x),
                ',', EntryText(others[0], n[others[0]]) + (MoreEntries(others[1..], n) + y));
      EntryInjective(keys[0], m[keys[0]], MoreEntries(keys[1..], m) + x, others[0], n[others[0]],
                     MoreEntries(others[1..], n) + y);
      MoreEntriesInjective(keys[1..], m, x, others[1..], n, y);
      assert keys == [keys[0]] + keys[1..] && others == [others[0]] + others[1..];
    }
  }

  lemma {:induction false} MoreStringsInjective(items: seq<string>, x: string, others: seq<string>, y: string)
    requires (forall i | i in items :: '"' !in i) && (forall i | i in others :: '"' !in i)
    requires MoreStrings(items) + x == MoreStrings(others) + y
    ensures items == others && x == y
  {
    hide Quote;
    if items == [] && others == [] {
      SameStart(']', x, ']', y);
    } else if items == [] {
      assert MoreStrings(others) + y == [','] + (Quote(others[0]) + (MoreStrings(others[1..]) + y));
      SameStart(']', x, ',', Quote(others[0]) + (MoreStrings(others[1..]) + y));
    } else if others == [] {
      assert MoreStrings(items) + x == [','] + (Quote(items[0]) + (MoreStrings(items[1..]) + x));
      SameStart(',', Quote(items[0]) + (MoreStrings(items[1..]) + x), ']', y);
    } else {
      assert MoreStrings(items) + x == [','] + (Quote(items[0]) + (MoreStrings(items[1..]) + x));
      assert MoreStrings(others) + y == [','] + (Quote(others[0]) + (MoreStrings(others[1..]) + y));
      SameStart(',', Quote(items[0]) + (MoreStrings(items[1..]) + x), ',',
                Quote(others[0]) + (MoreStrings(others[1..]) + y));
      QuoteInjective(items[0], MoreStrings(items[1..]) + x, others[0], MoreStrings(others[1..]) + y);
      MoreStringsInjective(items[1..], x, others[1..], y);
      assert items == [items[0]] + items[1..] && others == [others[0]] + others[1..];
    }
  }

  lemma DropPrefix(p: string, s: string, t: string)
    requires p + s == p + t
    ensures s == t
  {
    assert (p + s)[|p|..] == s && (p + t)[|p|..] == t;
  }

  lemma ObjectStart(keys: seq<string>, m: Permissions, x: string)
    requires keys != [] && forall k | k in keys :: k in m
    ensures ObjectText(keys, m) + x == ['{'] + (EntryText(keys[0], m[keys[0]]) + (MoreEntries(keys[1..], m) + x))
  {
    hide EntryText, MoreEntries;
  }

  lemma ObjectInjective(keys: seq<string>, m: Permissions, x: string, others: seq<string>, n: Permissions, y: string)
    requires NoQuotes(keys, m) && NoQuotes(others, n) && keys != [] && others != []
    requires ObjectText(keys, m) + x == ObjectText(others, n) + y
    ensures keys == others && x == y && forall k | k in keys :: m[k] == n[k]
  {
    hide EntryText, MoreEntries, ObjectText;
    ObjectStart(keys, m, x);
    ObjectStart(others, n, y);
    SameStart('{', EntryText(keys[0], m[keys[0]]) + (MoreEntries(keys[1..], m) + x),
              '{', EntryText(others[0], n[others[0]]) + (MoreEntries(others[1..], n) + y));
    EntryInjective(keys[0], m[keys[0]], MoreEntries(keys[1..], m) + x, others[0], n[others[0]],
                   MoreEntries(others[1..], n) + y);
    MoreEntriesInjective(keys[1..], m, x, others[1..], n, y);
    assert keys == [keys[0]] + keys[1..] && others == [others[0]] + others[1..];
  }

  lemma ArrayStart(items: seq<string>, x: string)
    requires items != []
    ensures ArrayText(items) + x == ['['] + (Quote(items[0]) + (MoreStrings(items[1..]) + x))
  {
    hide Quote, MoreStrings;
  }

  lemma ArrayInjective(items: seq<string>, x: string, others: seq<string>, y: string)
    requires (forall i | i in items :: '"' !in i) && (forall i | i in others :: '"' !in i) && items != []
             && others != []
    requires ArrayText(items) + x == ArrayText(others) + y
    ensures items == others && x == y
  {
    hide Quote, MoreStrings, ArrayText;
    ArrayStart(items, x);
    ArrayStart(others, y);
    SameStart('[', Quote(items[0]) + (MoreStrings(items[1..]) + x), '[',
              Quote(others[0]) + (MoreStrings(others[1..]) + y));
    QuoteInjective(items[0], MoreStrings(items[1..]) + x, others[0], MoreStrings(others[1..]) + y);
    MoreStringsInjective(items[1..], x, others[1..], y);
    assert items == [items[0]] + items[1..] && others == [others[0]] + others[1..];
  }

  ghost predicate Printable(repos: seq<string>, m: Permissions) {
    && repos != [] && (forall r | r in repos :: '"' !in r)
    && m != map[] && (forall k | k in m :: '"' !in k && '"' !in m[k])
  }

  lemma EmptyMap(m: Permissions)
    ensures m.Keys == {} <==> m == map[]
  {
    assert m == map[] ==> m.Keys == {};
    assert m.Keys == {} ==> m == map[];
  }

  lemma CanonicalInjective(repos: seq<string>, m: Permissions, others: seq<string>, n: Permissions)
    requires Printable(repos, m) && Printable(others, n) && CanonicalText(repos, m) == CanonicalText(others, n)
    ensures repos == others && m == n
  {
    hide ObjectText, ArrayText;
    var ks, ls := SortedKeys(m.Keys), SortedKeys(n.Keys);
    EmptyMap(m);
    EmptyMap(n);
    hide SortedKeys;
    var p, q := "{\"permissions\":", ",\"repos\":";
    var x, y := q + (ArrayText(repos) + "}"), q + (ArrayText(others) + "}");
    DropPrefix(p, ObjectText(ks, m) + x, ObjectText(ls, n) + y);
    ObjectInjective(ks, m, x, ls, n, y);
    DropPrefix(q, ArrayText(repos) + "}", ArrayText(others) + "}");
    ArrayInjective(repos, "}", others, "}");
    assert m.Keys == n.Keys;
  }

  // ----- accepted scopes

  lemma RepoHasNoQuote(r: string)
    requires IsRepo(r)
    ensures '"' !in r
  {
    if r != "*" {
      JoinSplit(r, '/');
      var parts := Split(r, '/');
      assert Join(parts[1..], '/') == parts[1];
      assert r == parts[0] + ['/'] + parts[1];
    }
  }

  lemma PermissionHasNoQuote(k: string, v: string)
    requires IsPermissionName(k) && IsLevel(v)
    ensures '"' !in k && '"' !in v
  {
  }

  /** What an accepted scope is, in terms of the lists it was given. */
  lemma Accepted(repos: Json, permissions: Json)
    requires NormalizeRuntimeScope(repos, permissions).Some?
    ensures repos.Arr? && AllStrings(repos.items) && permissions.Obj? && AcceptablePermissions(permissions.fields)
    ensures var s := NormalizeRuntimeScope(repos, permissions).value;
            && s.permissions == Levels(permissions.fields) && s.repos == Sort(Strings(repos.items), LexLe)
            && s.canonical == CanonicalText(s.repos, s.permissions) && Printable(s.repos, s.permissions)
            && Distinct(Strings(repos.items)) && |s.repos| == |repos.items|
            && (forall r :: r in s.repos <==> r in Strings(repos.items))
            && Elements(s.repos) == Elements(Strings(repos.items))
  {
    var names := Strings(repos.items);
    SortMembers(names, LexLe);
    SortMultiset(names, LexLe);
    SetSizeDistinct(names);
    hide CanonicalText, Sort, LexLe, IsRepo, IsPermissionName, IsLevel, Elements;
    var s := NormalizeRuntimeScope(repos, permissions).value;
    forall r | r in s.repos ensures '"' !in r {
      RepoHasNoQuote(r);
    }
    forall k | k in s.permissions ensures '"' !in k && '"' !in s.permissions[k] {
      PermissionHasNoQuote(k, s.permissions[k]);
    }
    assert s.permissions.Keys == permissions.fields.Keys;
  }

  lemma SameSetSameOrder(s: seq<string>, t: seq<string>)
    requires Distinct(s) && Distinct(t) && Elements(s) == Elements(t)
    ensures Sort(s, LexLe) == Sort(t, LexLe)
  {
    LexOrder();
    DistinctCounts(s);
    DistinctCounts(t);
    hide LexLe, Sort;
    forall x ensures multiset(s)[x] == multiset(t)[x] {
      assert x in multiset(s) <==> x in Elements(s);
      assert x in multiset(t) <==> x in Elements(t);
    }
    assert multiset(s) == multiset(t);
    SortPermutation(s, t, LexLe);
  }

  /**
   * Two accepted scopes have one canonical text, and so one digest, exactly when they allow the same repositories
   * and permissions.
   */
  lemma CanonicalIff(repos: Json, permissions: Json, repos': Json, permissions': Json)
    requires NormalizeRuntimeScope(repos, permissions).Some? && NormalizeRuntimeScope(repos', permissions').Some?
    ensures var s, t := NormalizeRuntimeScope(repos, permissions).value,
            NormalizeRuntimeScope(repos', permissions').value;
            s.canonical == t.canonical <==> Elements(s.repos) == Elements(t.repos) && s.permissions == t.permissions
  {
    hide NormalizeRuntimeScope, CanonicalText, Printable, Sort, Strings;
    Accepted(repos, permissions);
    Accepted(repos', permissions');
    var s, t := NormalizeRuntimeScope(repos, permissions).value, NormalizeRuntimeScope(repos', permissions').value;
    if s.canonical == t.canonical {
      CanonicalInjective(s.repos, s.permissions, t.repos, t.permissions);
    }
    if Elements(s.repos) == Elements(t.repos) && s.permissions == t.permissions {
      SameSetSameOrder(Strings(repos.items), Strings(repos'.items));
    }
  }

  function ToArray(items: seq<string>): Json { Arr(seq(|items|, i requires 0 <= i < |items| => Str(items[i]))) }

  function ToObject(m: Permissions): Json { Obj(map k | k in m :: Str(m[k])) }

  /** Normalising a normalised scope changes nothing. */
  lemma NormalisingIsIdempotent(repos: Json, permissions: Json)
    requires NormalizeRuntimeScope(repos, permissions).Some?
    ensures var s := NormalizeRuntimeScope(repos, permissions).value;
            NormalizeRuntimeScope(ToArray(s.repos), ToObject(s.permissions)) == Some(s)
  {
    Accepted(repos, permissions);
    var s := NormalizeRuntimeScope(repos, permissions).value;
    var names := Strings(repos.items);
    SortMultiset(names, LexLe);
    DistinctByMultiset(names, s.repos);
    SameSetSameOrder(s.repos, names);
    SetSizeDistinct(s.repos);
    SetSizeDistinct(names);
    StillAcceptable(names, s.repos);
    ObjectOfLevels(permissions.fields);
    hide CanonicalText, Sort, Elements, AcceptableRepos, AcceptablePermissions, Levels, ToObject;
    assert AllStrings(ToArray(s.repos).items) && Strings(ToArray(s.repos).items) == s.repos;
    assert s.repos != [];
  }

  lemma LevelsOfObject(m: Permissions)
    ensures Levels(ToObject(m).fields) == m
  {
    assert ToObject(m).fields.Keys == m.Keys;
  }

  lemma ObjectOfLevels(fields: map<string, Json>)
    requires forall k | k in fields :: fields[k].Str?
    ensures ToObject(Levels(fields)) == Obj(fields)
  {
    assert Levels(fields).Keys == fields.Keys;
    assert ToObject(Levels(fields)).fields.Keys == fields.Keys;
    assert ToObject(Levels(fields)).fields == fields;
  }

  lemma StillAcceptable(names: seq<string>, sorted: seq<string>)
    requires AcceptableRepos(names) && |sorted| == |names| && |Elements(sorted)| == |sorted|
             && forall r :: r in sorted <==> r in names
    ensures AcceptableRepos(sorted)
  {
    hide IsRepo, Elements;
    forall i | 0 <= i < |sorted| ensures IsRepo(sorted[i]) {
      assert sorted[i] in names;
    }
  }

  // ----- comparing permission maps

  const SAMPLE_REPOSITORY := "owner/repository"

  /** `expected` is the permission map of an accepted scope, whose keys are already in order. */
  predicate ExactPermissionMap(actual: Json, expected: Permissions) {
    && actual.Obj?
    && var normalized := NormalizeRuntimeScope(Arr([Str(SAMPLE_REPOSITORY)]), actual);
       normalized.Some?
       && ObjectText(SortedKeys(normalized.value.permissions.Keys), normalized.value.permissions)
          == ObjectText(SortedKeys(expected.Keys), expected)
  }

  ghost predicate ShortEntries(keys: seq<string>, m: Permissions) {
    forall k | k in keys :: k in m && |k| <= 64 && |m[k]| <= 5
  }

  lemma {:induction false} EntriesLength(keys: seq<string>, m: Permissions)
    requires ShortEntries(keys, m)
    ensures |MoreEntries(keys, m)| <= 1 + 75 * |keys|
  {
    if keys != [] {
      EntriesLength(keys[1..], m);
    }
  }

  /** A hundred permissions never come near the size limit. */
  lemma PermissionsFit(fields: map<string, Json>)
    requires AcceptablePermissions(fields)
    ensures |ObjectText(SortedKeys(fields.Keys), Levels(fields))| <= 7502
  {
    var m := Levels(fields);
    var keys := SortedKeys(fields.Keys);
    assert m.Keys == fields.Keys;
    ShortNames(fields);
    hide SortedKeys, IsPermissionName, IsLevel;
    if keys != [] {
      assert ShortEntries(keys[1..], m);
      EntriesLength(keys[1..], m);
      assert keys[0] in m && |EntryText(keys[0], m[keys[0]])| <= 74;
    }
  }

  lemma ShortNames(fields: map<string, Json>)
    requires AcceptablePermissions(fields)
    ensures forall k | k in fields :: |k| <= 64 && fields[k].Str? && |fields[k].s| <= 5
  {
  }

  lemma OwnerAndName(owner: string, name: string)
    requires IsOwner(owner) && IsRepositoryName(name) && '/' !in owner && '/' !in name && name != "." && name != ".."
    ensures IsRepo(owner + ['/'] + name)
  {
    SplitPair(owner, name, '/');
    SplitWord(name, '/');
    assert [owner] + [name] == [owner, name];
  }

  lemma SampleIsRepo()
    ensures IsRepo(SAMPLE_REPOSITORY) && |SAMPLE_REPOSITORY| == 16 && SAMPLE_REPOSITORY != "*"
  {
    OwnerAndName("owner", "repository");
    assert SAMPLE_REPOSITORY == "owner" + ['/'] + "repository";
  }

  lemma ListOfOne(repo: string)
    ensures Sort([repo], LexLe) == [repo] && |ArrayText([repo])| == |repo| + 4
  {
    assert [repo][1..] == [] && MoreStrings([]) == [']'];
  }

  lemma OneIsAcceptable(repo: string)
    requires IsRepo(repo) && repo != "*"
    ensures AcceptableRepos([repo])
  {
    SetSizeDistinct([repo]);
    hide Elements, IsRepo;
  }

  lemma NamesOfOne(repo: string, actual: Json)
    requires AcceptableRepos([repo]) && Sort([repo], LexLe) == [repo] && |ArrayText([repo])| <= 144 && actual.Obj?
    ensures var normalized := NormalizeNames([repo], actual);
            && (normalized.Some? <==> AcceptablePermissions(actual.fields))
            && (normalized.Some? ==> normalized.value.permissions == Levels(actual.fields))
  {
    hide AcceptableRepos, Sort, LexLe, SortedKeys, ObjectText, ArrayText, CanonicalText, IsPermissionName, IsLevel;
    if AcceptablePermissions(actual.fields) {
      PermissionsFit(actual.fields);
      assert Levels(actual.fields).Keys == actual.fields.Keys;
      CanonicalLength([repo], Levels(actual.fields));
    }
  }

  lemma RuntimeScopeOfOne(repo: string, actual: Json)
    requires IsRepo(repo) && repo != "*" && |repo| <= 140 && actual.Obj?
    ensures var normalized := NormalizeRuntimeScope(Arr([Str(repo)]), actual);
            && (normalized.Some? <==> AcceptablePermissions(actual.fields))
            && (normalized.Some? ==> normalized.value.permissions == Levels(actual.fields))
  {
    ListOfOne(repo);
    OneIsAcceptable(repo);
    NamesOfOne(repo, actual);
    hide NormalizeNames, AcceptableRepos, AcceptablePermissions, Sort, LexLe, ArrayText;
    var items := [Str(repo)];
    assert AllStrings(items) && Strings(items) == [repo] && |items| == 1;
    assert NormalizeRuntimeScope(Arr(items), actual) == NormalizeNames([repo], actual);
  }

  lemma CanonicalLength(repos: seq<string>, m: Permissions)
    ensures |CanonicalText(repos, m)| == |ObjectText(SortedKeys(m.Keys), m)| + |ArrayText(repos)| + 25
  {
    hide ObjectText, ArrayText, SortedKeys;
    assert |"{\"permissions\":"| == 15 && |",\"repos\":"| == 9;
  }

  /** What the comparison comes to for any valid map: equality of the printed maps. */
  lemma ExactMeansPrintedAlike(actual: Json, expected: Permissions)
    ensures ExactPermissionMap(actual, expected) <==>
            actual.Obj? && AcceptablePermissions(actual.fields)
            && ObjectText(SortedKeys(Levels(actual.fields).Keys), Levels(actual.fields))
               == ObjectText(SortedKeys(expected.Keys), expected)
  {
    SampleIsRepo();
    hide IsRepo, NormalizeRuntimeScope, AcceptablePermissions, ObjectText, SortedKeys;
    if actual.Obj? {
      RuntimeScopeOfOne(SAMPLE_REPOSITORY, actual);
    }
  }

  /** Comparing the printed maps is comparing the maps. */
  lemma ExactPermissionMapIff(actual: Json, repos: Json, permissions: Json)
    requires NormalizeRuntimeScope(repos, permissions).Some?
    ensures var expected := NormalizeRuntimeScope(repos, permissions).value.permissions;
            ExactPermissionMap(actual, expected) <==> actual == ToObject(expected)
  {
    Accepted(repos, permissions);
    var expected := NormalizeRuntimeScope(repos, permissions).value.permissions;
    ExactMeansPrintedAlike(actual, expected);
    ObjectOfLevels(permissions.fields);
    LevelsOfObject(expected);
    hide NormalizeRuntimeScope, ExactPermissionMap, ObjectText, SortedKeys, IsPermissionName, IsLevel, Levels, ToObject;
    if ExactPermissionMap(actual, expected) {
      SamePermissions(actual.fields, expected);
      ObjectOfLevels(actual.fields);
    }
  }

  lemma LevelsPrintable(fields: map<string, Json>)
    requires AcceptablePermissions(fields)
    ensures Levels(fields) != map[] && forall k | k in Levels(fields) :: '"' !in k && '"' !in Levels(fields)[k]
  {
    var m := Levels(fields);
    assert m.Keys == fields.Keys && |m.Keys| == |fields|;
    hide IsPermissionName, IsLevel;
    forall k | k in m ensures '"' !in k && '"' !in m[k] {
      PermissionHasNoQuote(k, m[k]);
    }
  }

  lemma KeysOf(m: Permissions)
    requires m != map[] && forall k | k in m :: '"' !in k && '"' !in m[k]
    ensures SortedKeys(m.Keys) != [] && NoQuotes(SortedKeys(m.Keys), m)
  {
    EmptyMap(m);
  }

  lemma SamePermissions(fields: map<string, Json>, expected: Permissions)
    requires AcceptablePermissions(fields) && expected != map[]
             && forall k | k in expected :: '"' !in k && '"' !in expected[k]
    requires ObjectText(SortedKeys(Levels(fields).Keys), Levels(fields))
             == ObjectText(SortedKeys(expected.Keys), expected)
    ensures Levels(fields) == expected
  {
    LevelsPrintable(fields);
    hide ObjectText, AcceptablePermissions, Levels;
    var m := Levels(fields);
    KeysOf(m);
    KeysOf(expected);
    var ks, ls := SortedKeys(m.Keys), SortedKeys(expected.Keys);
    assert ObjectText(ks, m) + "" == ObjectText(ls, expected) + "";
    ObjectInjective(ks, m, "", ls, expected, "");
    assert m.Keys == expected.Keys;
  }

  // ----- reading a bounded response

  function Flatten(chunks: seq<seq<bv8>>): seq<bv8> {
    if chunks == [] then [] else Flatten(chunks[..|chunks| - 1]) + chunks[|chunks| - 1]
  }

  lemma {:induction false} FlattenPrefix(chunks: seq<seq<bv8>>, n: nat)
    requires n <= |chunks|
    ensures |Flatten(chunks[..n])| <= |Flatten(chunks)|
  {
    if n < |chunks| {
      FlattenPrefix(chunks[..|chunks| - 1], n);
      assert chunks[..|chunks| - 1][..n] == chunks[..n];
    } else {
      assert chunks[..n] == chunks;
    }
  }

  /** `readBoundedResponseBody`: the whole body when it fits the limit, and otherwise a failure with the rest unread. */
  method ReadBoundedResponseBody(stream: Option<seq<seq<bv8>>>) returns (body: Option<seq<bv8>>, taken: nat)
    ensures body.Some? <==> stream.None? || |Flatten(stream.value)| <= 16384
    ensures body.Some? ==> body.value == if stream.None? then [] else Flatten(stream.value)
    ensures body.Some? ==> taken == if stream.None? then 0 else |stream.value|
    ensures body.None? ==> 0 < taken <= |stream.value| && |Flatten(stream.value[..taken])| > 16384
                           && |Flatten(stream.value[..taken - 1])| <= 16384
  {
    if stream.None? {
      return Some([]), 0;
    }
    var chunks := stream.value;
    var read: seq<bv8>, total := [], 0;
    taken := 0;
    while taken < |chunks|
      invariant taken <= |chunks| && read == Flatten(chunks[..taken]) && total == |read| <= MAX_RESPONSE_BYTES
    {
      assert chunks[..taken + 1][..taken] == chunks[..taken];
      total := total + |chunks[taken]|;
      taken := taken + 1;
      if total > MAX_RESPONSE_BYTES {
        FlattenPrefix(chunks, taken);
        return None, taken;
      }
      read := read + chunks[taken - 1];
    }
    assert chunks[..taken] == chunks;
    body := Some(read);
  }
}
