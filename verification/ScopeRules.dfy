// packages/k8s-baseline/src/github-app-credential.ts: which scopes are accepted,
// in terms of their texts and numbers, and how the canonical text is put together.
module ScopeRules {
  import opened Wrappers
  import opened Text
  import opened TextRules
  import opened Sorting
  import opened Json
  import opened ScopeCanonical

  // ----- names

  lemma CharIff(c: char)
    ensures IsAlnum(c) <==> IsLetterOrDigit(c)
    ensures OwnerChar(c) <==> IsLetterOrDigit(c) || c == '-'
    ensures NameChar(c) <==> IsLetterOrDigit(c) || c in "_.-"
    ensures IsLower(c) <==> c in LOWER_LETTERS
    ensures IsDigit(c) <==> c in DIGITS
  {
    AlnumIff(c);
    LowerIff(c);
    DigitIff(c);
    NameMarks(c);
    hide UPPER_LETTERS, LOWER_LETTERS, DIGITS, IsAlnum, IsLower, IsDigit;
  }

  lemma NameMarks(c: char)
    ensures c in "_.-" <==> c == '_' || c == '.' || c == '-'
  {
  }

  /** One to 39 letters, digits and dashes, no dash at either end. */
  ghost predicate IsAccount(s: string) {
    && 1 <= |s| <= 39 && s[0] != '-' && s[|s| - 1] != '-'
    && forall i | 0 <= i < |s| :: IsLetterOrDigit(s[i]) || s[i] == '-'
  }

  /** One to 100 letters, digits and marks, and neither of the two names for directories. */
  ghost predicate IsProject(s: string) {
    1 <= |s| <= 100 && s != "." && s != ".." && forall i | 0 <= i < |s| :: IsLetterOrDigit(s[i]) || s[i] in "_.-"
  }

  ghost predicate IsRepositoryOf(s: string) {
    exists account, project :: s == account + "/" + project && IsAccount(account) && IsProject(project)
  }

  lemma AccountIff(s: string)
    ensures IsOwner(s) <==> IsAccount(s)
    ensures IsAccount(s) ==> '/' !in s
  {
    forall c ensures OwnerChar(c) <==> IsLetterOrDigit(c) || c == '-' ensures IsAlnum(c) <==> IsLetterOrDigit(c) {
      CharIff(c);
    }
    assert !OwnerChar('/') && !IsAlnum('-');
    hide OwnerChar, IsLetterOrDigit, IsAlnum;
  }

  lemma ProjectIff(s: string)
    ensures IsRepositoryName(s) && s != "." && s != ".." <==> IsProject(s)
    ensures IsProject(s) ==> '/' !in s
  {
    forall c ensures NameChar(c) <==> IsLetterOrDigit(c) || c in "_.-" {
      CharIff(c);
    }
    assert !NameChar('/');
    hide NameChar, IsLetterOrDigit;
  }

  lemma RepositoryIff(s: string)
    ensures IsOwnerRepository(s) <==> IsRepositoryOf(s)
  {
    if IsOwnerRepository(s) {
      RepositoryRead(s);
    }
    if account, project :| s == account + "/" + project && IsAccount(account) && IsProject(project) {
      AccountIff(account);
      ProjectIff(project);
      hide IsAccount, IsProject, IsOwner, IsRepositoryName;
      SplitPair(account, project, '/');
      SplitWord(project, '/');
      assert s == account + ['/'] + project;
      assert Split(s, '/') == [account, project];
    }
  }

  lemma RepositoryRead(s: string)
    requires IsOwnerRepository(s)
    ensures IsRepositoryOf(s)
  {
    var parts := Split(s, '/');
    JoinSplit(s, '/');
    AccountIff(parts[0]);
    ProjectIff(parts[1]);
    hide IsAccount, IsProject, IsOwner, IsRepositoryName, Split;
    assert parts[1..] == [parts[1]] && "/" == ['/'];
    assert s == parts[0] + "/" + parts[1];
  }

  /** A lower-case letter, and up to 63 lower-case letters, digits and underscores. */
  ghost predicate IsPermission(s: string) {
    && 1 <= |s| <= 64 && s[0] in LOWER_LETTERS
    && forall i | 0 <= i < |s| :: s[i] in LOWER_LETTERS || s[i] in DIGITS || s[i] == '_'
  }

  lemma PermissionIff(s: string)
    ensures IsPermissionName(s) <==> IsPermission(s)
  {
    forall c ensures IsLower(c) <==> c in LOWER_LETTERS ensures IsDigit(c) <==> c in DIGITS {
      CharIff(c);
    }
    hide LOWER_LETTERS, DIGITS, IsLower, IsDigit;
  }

  // ----- whole scopes

  /** One to 500 different texts, each naming a repository; or the wildcard alone. */
  ghost predicate AreRepositories(repos: Json) {
    && repos.Arr? && 1 <= |repos.items| <= 500
    && (forall i | 0 <= i < |repos.items| :: repos.items[i].Str?)
    && (forall i, j | 0 <= i < j < |repos.items| :: repos.items[i] != repos.items[j])
    && (repos.items == [Str("*")] || forall i | 0 <= i < |repos.items| :: IsRepositoryOf(repos.items[i].s))
  }

  /** One to a hundred permissions, each with one of the three levels. */
  ghost predicate ArePermissions(permissions: Json) {
    && permissions.Obj? && 1 <= |permissions.fields| <= 100
    && forall k | k in permissions.fields ::
         IsPermission(k) && permissions.fields[k] in {Str("read"), Str("write"), Str("admin")}
  }

  lemma StarIsNoRepository()
    ensures !IsRepositoryOf("*")
  {
    RepositoryIff("*");
    SplitWord("*", '/');
  }

  lemma RepositoriesIff(repos: Json)
    requires repos.Arr? && AllStrings(repos.items)
    ensures AcceptableRepos(Strings(repos.items)) && 1 <= |repos.items| <= 500 <==> AreRepositories(repos)
  {
    var items := repos.items;
    var names := Strings(items);
    DistinctStrings(items);
    StarIsNoRepository();
    forall s ensures IsRepo(s) <==> s == "*" || IsRepositoryOf(s) {
      RepositoryIff(s);
    }
    hide IsRepo, IsRepositoryOf, IsOwnerRepository;
    assert forall i | 0 <= i < |items| :: items[i] == Str(names[i]);
    if AcceptableRepos(names) && "*" in names {
      assert names == [names[0]] && names[0] == "*";
      assert items == [Str("*")];
    }
    if items == [Str("*")] {
      assert names == ["*"];
    }
  }

  lemma PermissionsIff(permissions: Json)
    ensures permissions.Obj? && AcceptablePermissions(permissions.fields) <==> ArePermissions(permissions)
  {
    forall s ensures IsPermissionName(s) <==> IsPermission(s) {
      PermissionIff(s);
    }
    hide IsPermissionName, IsPermission;
  }

  /**
   * A scope is accepted when its repositories and permissions are and its canonical text has at most 16384
   * characters; what comes of it are the repositories in order, the permissions, and that text.
   */
  lemma ScopeIff(repos: Json, permissions: Json, scope: Scope)
    ensures NormalizeRuntimeScope(repos, permissions) == Some(scope) <==>
            && AreRepositories(repos) && ArePermissions(permissions)
            && scope.repos == Sort(Strings(repos.items), LexLe)
            && scope.permissions.Keys == permissions.fields.Keys
            && (forall k | k in scope.permissions :: Str(scope.permissions[k]) == permissions.fields[k])
            && scope.canonical == CanonicalText(scope.repos, scope.permissions) && |scope.canonical| <= 16384
  {
    if repos.Arr? && AllStrings(repos.items) {
      RepositoriesIff(repos);
    }
    PermissionsIff(permissions);
    if ArePermissions(permissions) {
      LevelsAre(permissions.fields, scope.permissions);
    }
    hide AcceptableRepos, AcceptablePermissions, CanonicalText, Sort, Levels, IsRepositoryOf, IsPermission;
  }

  lemma LevelsAre(fields: map<string, Json>, m: Permissions)
    requires forall k | k in fields :: fields[k].Str?
    ensures Levels(fields) == m <==> m.Keys == fields.Keys && forall k | k in m :: Str(m[k]) == fields[k]
  {
    if m.Keys == fields.Keys && forall k | k in m :: Str(m[k]) == fields[k] {
      assert Levels(fields).Keys == m.Keys;
    }
  }

  // ----- which error the build reports

  ghost predicate BuildFailsFor(repos: Json, permissions: Json, error: BuildError) {
    var listed := repos.Arr? && repos.items != [];
    var few := listed && |repos.items| <= 500;
    var distinct := few && forall i, j | 0 <= i < j < |repos.items| :: repos.items[i] != repos.items[j];
    var alone := distinct && (Str("*") in repos.items ==> |repos.items| == 1);
    var safe := AreRepositories(repos);
    match error
    case NoRepos => !listed
    case TooManyRepos => listed && !few
    case DuplicateRepos => few && !distinct
    case WildcardNotAlone => distinct && !alone
    case UnsafeRepo => alone && !safe
    case NoPermissions => safe && (!permissions.Obj? || |permissions.fields| == 0)
    case TooManyPermissions => safe && permissions.Obj? && |permissions.fields| > 100
    case UnsafePermission =>
      safe && permissions.Obj? && 1 <= |permissions.fields| <= 100 && !ArePermissions(permissions)
    case ScopeTooLarge =>
      && safe && ArePermissions(permissions)
      && |CanonicalText(Sort(Strings(repos.items), LexLe), Levels(permissions.fields))| > 16384
  }

  lemma SafeIff(repos: Json)
    requires repos.Arr? && 1 <= |repos.items| <= 500
    requires forall i, j | 0 <= i < j < |repos.items| :: repos.items[i] != repos.items[j]
    requires Str("*") in repos.items ==> |repos.items| == 1
    ensures (forall i | 0 <= i < |repos.items| :: repos.items[i].Str? && IsRepo(repos.items[i].s)) <==>
            AreRepositories(repos)
  {
    forall s ensures IsRepo(s) <==> s == "*" || IsRepositoryOf(s) {
      RepositoryIff(s);
    }
    hide IsRepo, IsRepositoryOf, IsOwnerRepository;
    if forall i | 0 <= i < |repos.items| :: repos.items[i].Str? && IsRepo(repos.items[i].s) {
      if i :| 0 <= i < |repos.items| && repos.items[i].s == "*" {
        assert Str("*") in repos.items;
        assert repos.items == [repos.items[0]];
      }
    }
  }

  lemma EmptyFields(fields: map<string, Json>)
    ensures |fields| == 0 <==> fields == map[]
  {
  }

  lemma SafePasses(repos: Json)
    requires AreRepositories(repos)
    ensures repos.Arr? && 1 <= |repos.items| <= 500
    ensures !exists i, j | 0 <= i < j < |repos.items| :: repos.items[i] == repos.items[j]
    ensures Str("*") in repos.items ==> |repos.items| == 1
    ensures !exists i | 0 <= i < |repos.items| :: !(repos.items[i].Str? && IsRepo(repos.items[i].s))
  {
    if Str("*") in repos.items && repos.items != [Str("*")] {
      StarIsNoRepository();
      assert false;
    }
    hide IsRepo, IsRepositoryOf;
    SafeIff(repos);
  }

  lemma PermissionsStage(repos: Json, permissions: Json, digest: string -> string, error: BuildError)
    requires AreRepositories(repos)
    ensures NormalizeScope(repos, permissions, digest) == Err(error) <==> BuildFailsFor(repos, permissions, error)
  {
    SafePasses(repos);
    PermissionsIff(permissions);
    if permissions.Obj? {
      EmptyFields(permissions.fields);
    }
    hide CanonicalText, Sort, Levels, IsRepo, IsPermissionName, IsLevel, ArePermissions, AreRepositories;
  }

  lemma RepositoriesStage(repos: Json, permissions: Json, digest: string -> string, error: BuildError)
    requires !AreRepositories(repos)
    ensures NormalizeScope(repos, permissions, digest) == Err(error) <==> BuildFailsFor(repos, permissions, error)
  {
    hide CanonicalText, Sort, Levels, IsRepo, IsPermissionName, IsLevel, ArePermissions, AreRepositories;
    if repos.Arr? && 1 <= |repos.items| <= 500
       && (forall i, j | 0 <= i < j < |repos.items| :: repos.items[i] != repos.items[j])
       && (Str("*") in repos.items ==> |repos.items| == 1) {
      SafeIff(repos);
    }
  }

  /** The error is told by the first of the checks that fails. */
  lemma BuildErrorIff(repos: Json, permissions: Json, digest: string -> string, error: BuildError)
    ensures NormalizeScope(repos, permissions, digest) == Err(error) <==> BuildFailsFor(repos, permissions, error)
  {
    hide *;
    if AreRepositories(repos) {
      PermissionsStage(repos, permissions, digest, error);
    } else {
      RepositoriesStage(repos, permissions, digest, error);
    }
  }

  // ----- the canonical text

  /** The texts in quotes. */
  function Quoted(items: seq<string>): seq<string> {
    seq(|items|, i requires 0 <= i < |items| => "\"" + items[i] + "\"")
  }

  /** `"key":"level"`, for each key. */
  function Entries(keys: seq<string>, m: Permissions): seq<string>
    requires forall k | k in keys :: k in m
  {
    seq(|keys|, i requires 0 <= i < |keys| => assert keys[i] in keys; "\"" + keys[i] + "\":\"" + m[keys[i]] + "\"")
  }

  lemma QuoteIs(s: string)
    ensures Quote(s) == "\"" + s + "\""
  {
    assert "\"" == ['"'];
  }

  lemma EntryIs(key: string, level: string)
    ensures EntryText(key, level) == "\"" + key + "\":\"" + level + "\""
  {
    QuoteIs(key);
    QuoteIs(level);
    hide Quote;
    assert "\":\"" == "\"" + ":" + "\"" && ":" == [':'];
  }

  lemma JoinFirst(first: string, rest: seq<string>)
    ensures Join([first] + rest, ',') == first + if rest == [] then "" else "," + Join(rest, ',')
  {
    assert ([first] + rest)[1..] == rest && "," == [','];
    if rest == [] {
      assert first + "" == first;
    }
  }

  lemma QuotedFirst(items: seq<string>)
    requires items != []
    ensures Quoted(items) == [Quote(items[0])] + Quoted(items[1..])
  {
    QuoteIs(items[0]);
  }

  lemma EntriesFirst(keys: seq<string>, m: Permissions)
    requires keys != [] && forall k | k in keys :: k in m
    ensures Entries(keys, m) == [EntryText(keys[0], m[keys[0]])] + Entries(keys[1..], m)
  {
    EntryIs(keys[0], m[keys[0]]);
    hide EntryText;
  }

  /** A comma and the rest, if there is any. */
  function Tail(parts: seq<string>): string { if parts == [] then "" else "," + Join(parts, ',') }

  lemma {:induction false} MoreStringsIs(items: seq<string>)
    ensures MoreStrings(items) == Tail(Quoted(items)) + "]"
  {
    hide Quote, Join, Quoted;
    if items == [] {
      assert Quoted(items) == [] by {
        NoneQuoted();
      }
      assert "" + "]" == [']'];
    } else {
      QuotedFirst(items);
      MoreStringsIs(items[1..]);
      JoinFirst(Quote(items[0]), Quoted(items[1..]));
      Commas(Quote(items[0]), Tail(Quoted(items[1..])), "]");
    }
  }

  lemma NoneQuoted()
    ensures Quoted([]) == []
  {
  }

  lemma Commas(first: string, tail: string, last: string)
    ensures [','] + (first + (tail + last)) == "," + (first + tail) + last
  {
    assert "," == [','];
  }

  lemma ArrayIs(items: seq<string>)
    ensures ArrayText(items) == "[" + Join(Quoted(items), ',') + "]"
  {
    hide Quote, Join, Quoted;
    if items == [] {
      NothingJoined();
      NoneQuoted();
      assert "[]" == "[" + "" + "]";
    } else {
      QuotedFirst(items);
      MoreStringsIs(items[1..]);
      JoinFirst(Quote(items[0]), Quoted(items[1..]));
      assert "[" == ['['];
      hide Tail;
      assert ['['] + (Quote(items[0]) + (Tail(Quoted(items[1..])) + "]"))
             == "[" + (Quote(items[0]) + Tail(Quoted(items[1..]))) + "]";
    }
  }

  lemma NothingJoined()
    ensures Join([], ',') == ""
  {
  }

  lemma {:induction false} MoreEntriesIs(keys: seq<string>, m: Permissions)
    requires forall k | k in keys :: k in m
    ensures MoreEntries(keys, m) == Tail(Entries(keys, m)) + "}"
  {
    hide EntryText, Join, Entries;
    if keys == [] {
      NoEntries(m);
      assert "" + "}" == ['}'];
    } else {
      EntriesFirst(keys, m);
      MoreEntriesIs(keys[1..], m);
      JoinFirst(EntryText(keys[0], m[keys[0]]), Entries(keys[1..], m));
      Commas(EntryText(keys[0], m[keys[0]]), Tail(Entries(keys[1..], m)), "}");
    }
  }

  lemma NoEntries(m: Permissions)
    ensures Entries([], m) == []
  {
  }

  lemma ObjectIs(keys: seq<string>, m: Permissions)
    requires forall k | k in keys :: k in m
    ensures ObjectText(keys, m) == "{" + Join(Entries(keys, m), ',') + "}"
  {
    hide EntryText, Join, Entries;
    if keys == [] {
      NoEntries(m);
      NothingJoined();
      assert "{}" == "{" + "" + "}";
    } else {
      EntriesFirst(keys, m);
      MoreEntriesIs(keys[1..], m);
      JoinFirst(EntryText(keys[0], m[keys[0]]), Entries(keys[1..], m));
      assert "{" == ['{'];
      hide Tail;
      assert ['{'] + (EntryText(keys[0], m[keys[0]]) + (Tail(Entries(keys[1..], m)) + "}"))
             == "{" + (EntryText(keys[0], m[keys[0]]) + Tail(Entries(keys[1..], m))) + "}";
    }
  }

  /** The canonical text is JSON without spaces: the permissions by their sorted keys, then the repositories. */
  lemma CanonicalIs(repos: seq<string>, m: Permissions)
    ensures CanonicalText(repos, m) ==
            "{\"permissions\":{" + Join(Entries(SortedKeys(m.Keys), m), ',') + "},\"repos\":["
              + Join(Quoted(repos), ',') + "]}"
  {
    var keys := SortedKeys(m.Keys);
    ObjectIs(keys, m);
    ArrayIs(repos);
    var entries, quoted := Join(Entries(keys, m), ','), Join(Quoted(repos), ',');
    hide ObjectText, ArrayText, Join, Quoted, Entries, SortedKeys;
    CanonicalPieces(entries, quoted);
  }

  lemma CanonicalPieces(entries: string, quoted: string)
    ensures "{\"permissions\":" + (("{" + entries + "}") + (",\"repos\":" + (("[" + quoted + "]") + "}")))
            == "{\"permissions\":{" + entries + "},\"repos\":[" + quoted + "]}"
  {
    assert "{\"permissions\":{" == "{\"permissions\":" + "{";
    assert "},\"repos\":[" == "}" + ",\"repos\":" + "[";
    assert "]}" == "]" + "}";
  }

  /** The keys are sorted: each comes before the next. */
  lemma {:induction false} KeysAreSorted(keys: set<string>)
    ensures Sorted(SortedKeys(keys), LexLe)
  {
    if keys != {} {
      KeysAreSorted(keys - {SortedKeys(keys)[0]});
      var s := SortedKeys(keys);
      LeastFirst(keys);
      hide SortedKeys;
      assert s == [s[0]] + s[1..];
    }
  }

  lemma LeastFirst(keys: set<string>)
    requires keys != {}
    ensures var s := SortedKeys(keys);
            s[1..] == SortedKeys(keys - {s[0]}) && forall k | k in keys :: LexLe(s[0], k)
  {
    hide LexLe;
  }
}
