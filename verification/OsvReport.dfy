// scripts/osv-dependency-gate.py: reports printed from what was scanned, and
// exactly which of them are admitted.
module OsvReport {
  import opened Wrappers
  import opened Text
  import opened TextRules
  import opened Json
  import opened OsvGate

  // ----- texts

  /** An advisory identity: letters, digits and a few marks, beginning with a letter or digit. */
  ghost predicate IsAdvisoryName(s: string) {
    && s != "" && IsLetterOrDigit(s[0])
    && forall i | 0 <= i < |s| :: IsLetterOrDigit(s[i]) || s[i] in "._:-"
  }

  lemma AdvisoryNameIff(s: string)
    ensures IsIdentity(s) <==> IsAdvisoryName(s)
    ensures IsIdentity(s) ==> !Blank(s)
  {
    forall c ensures IdentityChar(c) <==> IsLetterOrDigit(c) || c in "._:-" {
      AlnumIff(c);
      Marks(c);
    }
    if s != "" {
      AlnumIff(s[0]);
      if IsAlnum(s[0]) {
        assert !IsPySpace(s[0]);
      }
    }
    hide IdentityChar, IsLetterOrDigit;
  }

  lemma Marks(c: char)
    ensures c in "._:-" <==> c == '.' || c == '_' || c == ':' || c == '-'
  {
  }

  /** The identity is that of a malicious package. */
  predicate IsMalwareName(s: string) {
    |s| >= 4 && (s[0] == 'M' || s[0] == 'm') && (s[1] == 'A' || s[1] == 'a') && (s[2] == 'L' || s[2] == 'l')
      && s[3] == '-'
  }

  lemma MarksMalwareIff(s: string)
    ensures MarksMalware(s) <==> IsMalwareName(s)
  {
    var mark := Lower("MAL-");
    assert |mark| == 4 && mark[0] == 'm' && mark[1] == 'a' && mark[2] == 'l' && mark[3] == '-';
    LowerLetter('m');
    LowerLetter('a');
    LowerLetter('l');
    if |s| >= 4 {
      assert Lower(s)[0] == LowerChar(s[0]) && Lower(s)[1] == LowerChar(s[1]);
      assert Lower(s)[2] == LowerChar(s[2]) && Lower(s)[3] == LowerChar(s[3]);
      assert mark <= Lower(s) <==> forall i | 0 <= i < 4 :: mark[i] == Lower(s)[i];
    }
  }

  lemma LowerLetter(l: char)
    requires IsLower(l)
    ensures forall c :: LowerChar(c) == l <==> c == l || c == 'A' + (l - 'a')
    ensures forall c :: LowerChar(c) == '-' <==> c == '-'
  {
  }

  /** The file of a path, whatever its directory. */
  lemma {:induction false} BaseNameIff(path: string, name: string)
    requires name != ""
    ensures BaseName(path) == name <==> '/' !in name && (path == name || EndsWith(path, ['/'] + name))
  {
    if path != "" {
      var n := |path| - 1;
      var front, last := path[..n], path[n];
      var shorter := name[..|name| - 1];
      if last != '/' {
        assert BaseName(path) == BaseName(front) + [last];
        if |name| > 1 {
          BaseNameIff(front, shorter);
          BaseNameSnoc(front, shorter, last);
          assert name == shorter + [name[|name| - 1]];
        } else {
          NoBaseName(front);
        }
      }
    }
  }

  lemma NoBaseName(path: string)
    ensures BaseName(path) == "" <==> path == "" || path[|path| - 1] == '/'
  {
  }

  lemma BaseNameSnoc(front: string, shorter: string, last: char)
    ensures (front == shorter <==> front + [last] == shorter + [last])
    ensures EndsWith(front + [last], ['/'] + (shorter + [last])) <==> EndsWith(front, ['/'] + shorter)
  {
    var path, tail := front + [last], ['/'] + (shorter + [last]);
    assert tail == (['/'] + shorter) + [last];
    assert front == path[..|front|] && shorter == (shorter + [last])[..|shorter|];
    if |tail| <= |path| {
      assert path[|path| - |tail|..] == front[|path| - |tail|..] + [last];
      assert front[|path| - |tail|..] == path[|path| - |tail|..][..|tail| - 1];
      assert ['/'] + shorter == tail[..|tail| - 1];
    }
  }

  // ----- printed reports

  datatype Advisory = Advisory(id: string, aliases: seq<string>)

  datatype Scanned = Scanned(name: string, version: string, advisories: seq<Advisory>)

  datatype Lockfile = Lockfile(path: string, ecosystem: string, packages: seq<Scanned>)

  function PrintAdvisory(a: Advisory): Json {
    Obj(map["id" := Str(a.id),
            "aliases" := Arr(seq(|a.aliases|, i requires 0 <= i < |a.aliases| => Str(a.aliases[i])))])
  }

  function PrintAdvisories(s: seq<Advisory>): seq<Json> {
    seq(|s|, i requires 0 <= i < |s| => PrintAdvisory(s[i]))
  }

  function PrintName(p: Scanned, ecosystem: string): Json {
    Obj(map["name" := Str(p.name), "version" := Str(p.version), "ecosystem" := Str(ecosystem)])
  }

  function PrintPackage(p: Scanned, ecosystem: string): Json {
    Obj(map["package" := PrintName(p, ecosystem), "vulnerabilities" := Arr(PrintAdvisories(p.advisories))])
  }

  function PrintPackages(s: seq<Scanned>, ecosystem: string): seq<Json> {
    seq(|s|, i requires 0 <= i < |s| => PrintPackage(s[i], ecosystem))
  }

  function PrintEntry(l: Lockfile): Json {
    Obj(map["source" := Obj(map["path" := Str(l.path)]), "packages" := Arr(PrintPackages(l.packages, l.ecosystem))])
  }

  function PrintEntries(ls: seq<Lockfile>): seq<Json> {
    seq(|ls|, i requires 0 <= i < |ls| => PrintEntry(ls[i]))
  }

  function PrintReport(ls: seq<Lockfile>): Json { Obj(map["results" := Arr(PrintEntries(ls))]) }

  // ----- what is demanded of a printed report

  predicate FileIs(path: string, name: string) { path == name || EndsWith(path, ['/'] + name) }

  /** The ecosystem the file name stands for. */
  predicate EcosystemFits(path: string, ecosystem: string) {
    || (FileIs(path, "Cargo.lock") && ecosystem == "crates.io")
    || (FileIs(path, "requirements.txt") && ecosystem == "PyPI")
    || ((FileIs(path, "pnpm-lock.yaml") || FileIs(path, "package-lock.json") || FileIs(path, "npm-shrinkwrap.json"))
        && ecosystem == "npm")
  }

  predicate LockfileOk(l: Lockfile, paths: seq<string>) {
    && l.path in paths && l.packages != [] && EcosystemFits(l.path, l.ecosystem)
    && forall p | p in l.packages :: p.name != "" && p.version != ""
  }

  function NameIn(ecosystem: string, name: string): string {
    if ecosystem == "PyPI" then NormalName(name, false) else name
  }

  function IdentitiesOf(l: Lockfile): set<Identity> {
    set p | p in l.packages :: (NameIn(l.ecosystem, p.name), p.version)
  }

  ghost predicate HasPath(ls: seq<Lockfile>, path: string) { exists l | l in ls :: l.path == path }

  /** The lockfiles are the requested ones, each once. */
  ghost predicate Requested(ls: seq<Lockfile>, paths: seq<string>) {
    && (forall l | l in ls :: LockfileOk(l, paths))
    && (forall i, j | 0 <= i < j < |ls| :: ls[i].path != ls[j].path)
    && (forall p | p in paths :: HasPath(ls, p))
  }

  ghost predicate Reports(ls: seq<Lockfile>, a: Advisory) {
    exists l, p :: l in ls && p in l.packages && a in p.advisories
  }

  ghost predicate AdvisoryOk(a: Advisory) { IsAdvisoryName(a.id) && forall x | x in a.aliases :: IsAdvisoryName(x) }

  predicate NamesMalwareIn(a: Advisory) { IsMalwareName(a.id) || exists x | x in a.aliases :: IsMalwareName(x) }

  // ----- what is demanded of any report

  /** A package with a name, a version and the ecosystem of its lockfile, none of them empty. */
  ghost predicate IsNamedPackage(value: Json, path: string) {
    && (exists name :: name != "" && HoldsText(value, "name", name))
    && (exists version :: version != "" && HoldsText(value, "version", version))
    && (exists ecosystem :: HoldsText(value, "ecosystem", ecosystem) && EcosystemFits(path, ecosystem))
  }

  predicate HoldsListOrNothing(value: Json, key: string) {
    value.Obj? && (key in value.fields ==> value.fields[key].Arr?)
  }

  lemma TextFieldIff(item: Json, key: string, text: string)
    requires item.Obj? && text != ""
    ensures TextField(item, key) == text <==>
            "package" in item.fields && HoldsText(item.fields["package"], key, text)
  {
  }

  lemma ItemIff(item: Json, path: string)
    ensures ItemOk(item, path) <==>
            && item.Obj? && "package" in item.fields && IsNamedPackage(item.fields["package"], path)
            && HoldsListOrNothing(item, "vulnerabilities")
  {
    if item.Obj? {
      forall key, text | text != ""
        ensures TextField(item, key) == text <==>
                "package" in item.fields && HoldsText(item.fields["package"], key, text)
      {
        TextFieldIff(item, key, text);
      }
      forall ecosystem
        ensures ExpectedEcosystem(path) == Some(ecosystem) <==> EcosystemFits(path, ecosystem)
        ensures EcosystemFits(path, ecosystem) ==> ecosystem != ""
      {
        EcosystemIff(path, ecosystem);
        NamedEcosystem(path, ecosystem);
      }
      hide TextField, ExpectedEcosystem, EcosystemFits;
      var name, version, ecosystem :=
        TextField(item, "name"), TextField(item, "version"), TextField(item, "ecosystem");
      if "package" in item.fields && name != "" && version != "" && ecosystem != "" {
        assert HoldsText(item.fields["package"], "name", name) && HoldsText(item.fields["package"], "version", version);
        assert HoldsText(item.fields["package"], "ecosystem", ecosystem);
      }
    }
  }

  /** A result for a requested lockfile, with a list of packages that is not empty. */
  lemma EntryIff(entry: Json, paths: seq<string>)
    ensures EntryOk(entry, paths) <==>
            && entry.Obj? && "source" in entry.fields && "packages" in entry.fields && entry.fields["packages"].Arr?
            && entry.fields["packages"].items != []
            && exists path :: path in paths && HoldsText(entry.fields["source"], "path", path)
                 && forall x | x in entry.fields["packages"].items :: ItemOk(x, path)
  {
    hide ItemOk;
    if EntryOk(entry, paths) {
      assert HoldsText(entry.fields["source"], "path", SourceOf(entry).value);
    }
  }

  /** An advisory with a well-formed name, and well-formed other names if it has a list of them. */
  lemma VulnOkIff(v: Json)
    ensures VulnOk(v) <==>
            && HoldsListOrNothing(v, "aliases") && (exists id :: HoldsText(v, "id", id) && IsAdvisoryName(id))
            && ("aliases" in v.fields ==>
                  forall a | a in v.fields["aliases"].items :: a.Str? && IsAdvisoryName(a.s))
  {
    forall x ensures IsIdentity(x) <==> IsAdvisoryName(x) ensures IsIdentity(x) ==> !Blank(x) {
      AdvisoryNameIff(x);
    }
    hide IsIdentity, IsAdvisoryName, Blank;
    if VulnOk(v) {
      assert HoldsText(v, "id", IdOf(v));
    }
  }

  // ----- reading it

  lemma FileIsIff(path: string, name: string)
    requires name != "" && '/' !in name
    ensures BaseName(path) == name <==> FileIs(path, name)
  {
    BaseNameIff(path, name);
  }

  lemma FileNames()
    ensures '/' !in "Cargo.lock" && '/' !in "requirements.txt" && '/' !in "pnpm-lock.yaml"
    ensures '/' !in "package-lock.json" && '/' !in "npm-shrinkwrap.json"
  {
  }

  lemma DifferentFiles()
    ensures |"Cargo.lock"| == 10 && |"requirements.txt"| == 16 && |"pnpm-lock.yaml"| == 14
    ensures |"package-lock.json"| == 17 && |"npm-shrinkwrap.json"| == 19
    ensures |"crates.io"| == 9 && |"PyPI"| == 4 && |"npm"| == 3
  {
  }

  lemma EcosystemIff(path: string, ecosystem: string)
    ensures ExpectedEcosystem(path) == Some(ecosystem) <==> EcosystemFits(path, ecosystem)
  {
    FileNames();
    DifferentFiles();
    FileIsIff(path, "Cargo.lock");
    FileIsIff(path, "requirements.txt");
    FileIsIff(path, "pnpm-lock.yaml");
    FileIsIff(path, "package-lock.json");
    FileIsIff(path, "npm-shrinkwrap.json");
    hide FileIs, BaseName;
  }

  lemma PrintedEntry(l: Lockfile)
    ensures var e := PrintEntry(l);
            && e.Obj? && IsDict(Member(e, "source")) && SourceOf(e) == Some(l.path)
            && ListOf(Member(e, "packages")) == Some(PrintPackages(l.packages, l.ecosystem))
            && ItemsOf(e) == PrintPackages(l.packages, l.ecosystem)
  {
    hide PrintPackages;
  }

  lemma PrintedPackage(p: Scanned, ecosystem: string, path: string)
    ensures var x := PrintPackage(p, ecosystem);
            && (ItemOk(x, path) <==> p.name != "" && p.version != "" && EcosystemFits(path, ecosystem))
            && IdentityOf(x) == (NameIn(ecosystem, p.name), p.version)
            && VulnsOf(Package(path, x)) == PrintAdvisories(p.advisories)
  {
    EcosystemIff(path, ecosystem);
    NamedEcosystem(path, ecosystem);
    hide PrintAdvisories, NormalName, EcosystemFits, ExpectedEcosystem;
  }

  lemma NamedEcosystem(path: string, ecosystem: string)
    ensures EcosystemFits(path, ecosystem) ==> ecosystem != ""
  {
    hide FileIs;
  }

  lemma PrintedAdvisory(a: Advisory)
    ensures VulnOk(PrintAdvisory(a)) <==> AdvisoryOk(a)
    ensures VulnOk(PrintAdvisory(a)) ==> (NamesMalware(PrintAdvisory(a)) <==> NamesMalwareIn(a))
  {
    var v := PrintAdvisory(a);
    var items := GetList(v, "aliases").items;
    assert StringOf(Member(v, "id")) == Some(a.id) && GetList(v, "aliases") == Arr(items) && |items| == |a.aliases|;
    forall x ensures IsIdentity(x) <==> IsAdvisoryName(x) {
      AdvisoryNameIff(x);
    }
    forall x ensures IsIdentity(x) ==> !Blank(x) {
      AdvisoryNameIff(x);
    }
    forall x ensures MarksMalware(x) <==> IsMalwareName(x) {
      MarksMalwareIff(x);
    }
    hide IsIdentity, Blank, IsAdvisoryName, MarksMalware, IsMalwareName, PrintAdvisory;
    forall x ensures Str(x) in items <==> x in a.aliases {
      if x in a.aliases {
        var i :| 0 <= i < |a.aliases| && a.aliases[i] == x;
        assert items[i] == Str(x);
      }
    }
    forall x | x in items ensures x.Str? {
      var i :| 0 <= i < |items| && items[i] == x;
    }
    if VulnOk(v) {
      AliasesRead(v, a);
    }
  }

  lemma AliasesRead(v: Json, a: Advisory)
    requires v == PrintAdvisory(a) && VulnOk(v)
    ensures IdOf(v) == a.id && AliasesOf(v) == a.aliases
  {
    hide IsIdentity, Blank;
    var items := GetList(v, "aliases").items;
    assert forall i | 0 <= i < |items| :: items[i] == Str(a.aliases[i]);
  }

  lemma PrintedItems(s: seq<Scanned>, ecosystem: string)
    ensures forall p | p in s :: PrintPackage(p, ecosystem) in PrintPackages(s, ecosystem)
    ensures forall x | x in PrintPackages(s, ecosystem) :: exists p :: p in s && x == PrintPackage(p, ecosystem)
  {
    hide PrintPackage;
    var items := PrintPackages(s, ecosystem);
    forall p | p in s ensures PrintPackage(p, ecosystem) in items {
      var i :| 0 <= i < |s| && s[i] == p;
      assert items[i] == PrintPackage(p, ecosystem);
    }
    forall x | x in items ensures exists p :: p in s && x == PrintPackage(p, ecosystem) {
      var i :| 0 <= i < |items| && items[i] == x;
      assert s[i] in s;
    }
  }

  lemma PrintedVulns(s: seq<Advisory>)
    ensures forall a | a in s :: PrintAdvisory(a) in PrintAdvisories(s)
    ensures forall v | v in PrintAdvisories(s) :: exists a :: a in s && v == PrintAdvisory(a)
  {
    hide PrintAdvisory;
    var items := PrintAdvisories(s);
    forall a | a in s ensures PrintAdvisory(a) in items {
      var i :| 0 <= i < |s| && s[i] == a;
      assert items[i] == PrintAdvisory(a);
    }
    forall v | v in items ensures exists a :: a in s && v == PrintAdvisory(a) {
      var i :| 0 <= i < |items| && items[i] == v;
      assert s[i] in s;
    }
  }

  lemma EntryOkIff(l: Lockfile, paths: seq<string>)
    ensures EntryOk(PrintEntry(l), paths) <==> LockfileOk(l, paths)
  {
    PrintedEntry(l);
    PrintedItems(l.packages, l.ecosystem);
    forall p ensures ItemOk(PrintPackage(p, l.ecosystem), l.path) <==>
                     p.name != "" && p.version != "" && EcosystemFits(l.path, l.ecosystem) {
      PrintedPackage(p, l.ecosystem, l.path);
    }
    assert |PrintPackages(l.packages, l.ecosystem)| == |l.packages|;
    hide PrintEntry, PrintPackage, PrintPackages, ItemOk, EcosystemFits, SourceOf, ItemsOf, IsDict, ListOf;
    if EntryOk(PrintEntry(l), paths) {
      forall p | p in l.packages ensures p.name != "" && p.version != "" && EcosystemFits(l.path, l.ecosystem) {
        assert ItemOk(PrintPackage(p, l.ecosystem), l.path);
      }
      assert l.packages[0] in l.packages;
    }
  }

  lemma InventoryIff(ls: seq<Lockfile>, paths: seq<string>)
    ensures InventoryOk(PrintEntries(ls), paths) <==> Requested(ls, paths)
  {
    var entries := PrintEntries(ls);
    forall i | 0 <= i < |ls|
      ensures EntryOk(entries[i], paths) <==> LockfileOk(ls[i], paths)
      ensures SourceOf(entries[i]) == Some(ls[i].path)
    {
      EntryOkIff(ls[i], paths);
      PrintedEntry(ls[i]);
    }
    assert |entries| == |ls|;
    hide EntryOk, LockfileOk, SourceOf, PrintEntries, PrintEntry, HasPath;
    AllOkIff(ls, entries, paths);
    forall p | p in paths
      ensures (exists i | 0 <= i < |entries| :: SourceOf(entries[i]) == Some(p)) <==> HasPath(ls, p)
    {
      PathIff(ls, entries, p);
    }
  }

  lemma AllOkIff(ls: seq<Lockfile>, entries: seq<Json>, paths: seq<string>)
    requires |entries| == |ls| && forall i | 0 <= i < |ls| :: EntryOk(entries[i], paths) <==> LockfileOk(ls[i], paths)
    ensures (forall i | 0 <= i < |entries| :: EntryOk(entries[i], paths)) <==> forall l | l in ls ::
            LockfileOk(l, paths)
  {
    hide EntryOk, LockfileOk;
    assert forall i | 0 <= i < |ls| :: ls[i] in ls;
  }

  lemma PathIff(ls: seq<Lockfile>, entries: seq<Json>, path: string)
    requires |entries| == |ls| && forall i | 0 <= i < |ls| :: SourceOf(entries[i]) == Some(ls[i].path)
    ensures (exists i | 0 <= i < |entries| :: SourceOf(entries[i]) == Some(path)) <==> HasPath(ls, path)
  {
    hide SourceOf;
    if i :| 0 <= i < |entries| && SourceOf(entries[i]) == Some(path) {
      assert ls[i] in ls;
    }
    if l :| l in ls && l.path == path {
      var i :| 0 <= i < |ls| && ls[i] == l;
      assert SourceOf(entries[i]) == Some(path);
    }
  }

  lemma PackageIff(ls: seq<Lockfile>, x: Package)
    ensures x in AllPackages(PrintEntries(ls)) <==>
            exists l, p :: l in ls && p in l.packages && x == Package(l.path, PrintPackage(p, l.ecosystem))
  {
    var entries := PrintEntries(ls);
    PackagesMembers(entries, x);
    forall i | 0 <= i < |ls|
      ensures SourceOf(entries[i]) == Some(ls[i].path)
              && ItemsOf(entries[i]) == PrintPackages(ls[i].packages, ls[i].ecosystem)
    {
      PrintedEntry(ls[i]);
    }
    assert |entries| == |ls|;
    hide SourceOf, ItemsOf, PrintEntries, PrintEntry, PrintPackage, PrintPackages, AllPackages;
    if i :| 0 <= i < |entries| && SourceOf(entries[i]) == Some(x.source) && x.item in ItemsOf(entries[i]) {
      PrintedItems(ls[i].packages, ls[i].ecosystem);
      var p :| p in ls[i].packages && x.item == PrintPackage(p, ls[i].ecosystem);
      assert ls[i] in ls;
    }
    if l, p :| l in ls && p in l.packages && x == Package(l.path, PrintPackage(p, l.ecosystem)) {
      var i :| 0 <= i < |ls| && ls[i] == l;
      PrintedItems(l.packages, l.ecosystem);
      assert x.item in ItemsOf(entries[i]);
    }
  }

  ghost predicate FoundIn(packages: seq<Package>, v: Json) { exists x :: x in packages && v in VulnsOf(x) }

  ghost predicate PrintedFrom(ls: seq<Lockfile>, v: Json) { exists a :: Reports(ls, a) && v == PrintAdvisory(a) }

  /** The advisories found in the packages are the printed ones. */
  lemma FoundIff(ls: seq<Lockfile>, v: Json)
    ensures FoundIn(AllPackages(PrintEntries(ls)), v) <==> PrintedFrom(ls, v)
  {
    hide AllPackages, PrintEntries, PrintPackage, PrintAdvisory, PrintAdvisories, VulnsOf;
    var packages := AllPackages(PrintEntries(ls));
    if FoundIn(packages, v) {
      var x :| x in packages && v in VulnsOf(x);
      PackageIff(ls, x);
      var l, p :| l in ls && p in l.packages && x == Package(l.path, PrintPackage(p, l.ecosystem));
      PrintedPackage(p, l.ecosystem, l.path);
      PrintedVulns(p.advisories);
      var a :| a in p.advisories && v == PrintAdvisory(a);
      assert Reports(ls, a);
    }
    if PrintedFrom(ls, v) {
      var a :| Reports(ls, a) && v == PrintAdvisory(a);
      var l, p :| l in ls && p in l.packages && a in p.advisories;
      var x := Package(l.path, PrintPackage(p, l.ecosystem));
      PackageIff(ls, x);
      PrintedPackage(p, l.ecosystem, l.path);
      PrintedVulns(p.advisories);
      assert x in packages && v in VulnsOf(x);
    }
  }

  lemma ByAdvisory(packages: seq<Package>)
    ensures AllVulnsOk(packages) <==> forall v | FoundIn(packages, v) :: VulnOk(v)
    ensures AllVulnsOk(packages) ==>
              && (FreeOfMalware(packages) <==> forall v | FoundIn(packages, v) :: VulnOk(v) && !NamesMalware(v))
              && (AllFindings(packages) != [] <==> exists v :: FoundIn(packages, v))
  {
    hide VulnOk, VulnsOf, NamesMalware, AllFindings, FindingOf;
    assert AllVulnsOk(packages) <==> forall x, v | x in packages && v in VulnsOf(x) :: VulnOk(v);
    if AllVulnsOk(packages) {
      FindingsMembers(packages);
      if AllFindings(packages) != [] {
        var f := AllFindings(packages)[0];
        assert f in AllFindings(packages);
        var i, v :| 0 <= i < |packages| && v in VulnsOf(packages[i]) && f == FindingOf(packages[i], v);
        assert packages[i] in packages;
        assert FoundIn(packages, v);
      }
      if v :| FoundIn(packages, v) {
        var x :| x in packages && v in VulnsOf(x);
        var i :| 0 <= i < |packages| && packages[i] == x;
        assert FindingOf(packages[i], v) in AllFindings(packages);
      }
    }
  }

  lemma ReportedIff(ls: seq<Lockfile>)
    ensures var packages := AllPackages(PrintEntries(ls));
            && (AllVulnsOk(packages) <==> forall a | Reports(ls, a) :: AdvisoryOk(a))
            && (AllVulnsOk(packages) ==>
                && (FreeOfMalware(packages) <==> forall a | Reports(ls, a) :: !NamesMalwareIn(a))
                && (AllFindings(packages) != [] <==> exists a :: Reports(ls, a)))
  {
    var packages := AllPackages(PrintEntries(ls));
    forall v ensures FoundIn(packages, v) <==> PrintedFrom(ls, v) {
      FoundIff(ls, v);
    }
    forall a ensures VulnOk(PrintAdvisory(a)) <==> AdvisoryOk(a)
             ensures VulnOk(PrintAdvisory(a)) ==> (NamesMalware(PrintAdvisory(a)) <==> NamesMalwareIn(a)) {
      PrintedAdvisory(a);
    }
    ByAdvisory(packages);
    AdvisoriesOf(ls, packages);
  }

  lemma AdvisoriesOf(ls: seq<Lockfile>, packages: seq<Package>)
    requires forall v :: FoundIn(packages, v) <==> PrintedFrom(ls, v)
    requires forall a :: VulnOk(PrintAdvisory(a)) <==> AdvisoryOk(a)
    requires forall a :: VulnOk(PrintAdvisory(a)) ==> (NamesMalware(PrintAdvisory(a)) <==> NamesMalwareIn(a))
    ensures (forall v | FoundIn(packages, v) :: VulnOk(v)) <==> forall a | Reports(ls, a) :: AdvisoryOk(a)
    ensures (forall v | FoundIn(packages, v) :: VulnOk(v)) ==>
              ((forall v | FoundIn(packages, v) :: VulnOk(v) && !NamesMalware(v))
               <==> forall a | Reports(ls, a) :: !NamesMalwareIn(a))
    ensures (exists v :: FoundIn(packages, v)) <==> exists a :: Reports(ls, a)
  {
    hide FoundIn, VulnOk, PrintAdvisory, AdvisoryOk, Reports, NamesMalwareIn, NamesMalware;
    forall a | Reports(ls, a) ensures FoundIn(packages, PrintAdvisory(a)) {
      assert PrintedFrom(ls, PrintAdvisory(a));
    }
  }

  // ----- the admission

  /** The identities compared with those of a lockfile are the printed ones. */
  lemma IdentitiesAre(ls: seq<Lockfile>, paths: seq<string>, l: Lockfile)
    requires Requested(ls, paths) && l in ls
    ensures IdentitiesAt(AllPackages(PrintEntries(ls)), l.path) == IdentitiesOf(l)
  {
    var entries := PrintEntries(ls);
    InventoryIff(ls, paths);
    var i :| 0 <= i < |ls| && ls[i] == l;
    PrintedEntry(l);
    IdentitiesOfEntry(entries, paths, i, l.path);
    PrintedItems(l.packages, l.ecosystem);
    forall p ensures IdentityOf(PrintPackage(p, l.ecosystem)) == (NameIn(l.ecosystem, p.name), p.version) {
      PrintedPackage(p, l.ecosystem, l.path);
    }
    assert ItemsOf(entries[i]) == PrintPackages(l.packages, l.ecosystem);
    ItemsPrinted(l);
  }

  lemma ItemsPrinted(l: Lockfile)
    requires forall p :: IdentityOf(PrintPackage(p, l.ecosystem)) == (NameIn(l.ecosystem, p.name), p.version)
    ensures ItemIdentities(PrintPackages(l.packages, l.ecosystem)) == IdentitiesOf(l)
  {
    PrintedItems(l.packages, l.ecosystem);
    hide PrintPackage, PrintPackages, IdentityOf, NameIn;
    var items := PrintPackages(l.packages, l.ecosystem);
    forall id ensures id in ItemIdentities(items) <==> id in IdentitiesOf(l) {
      if id in ItemIdentities(items) {
        var x :| x in items && IdentityOf(x) == id;
        var p :| p in l.packages && x == PrintPackage(p, l.ecosystem);
      }
      if id in IdentitiesOf(l) {
        var p :| p in l.packages && id == (NameIn(l.ecosystem, p.name), p.version);
        assert PrintPackage(p, l.ecosystem) in items && IdentityOf(PrintPackage(p, l.ecosystem)) == id;
      }
    }
  }

  /** What was scanned is what the lockfiles say. */
  ghost predicate Agrees(ls: seq<Lockfile>, expected: string -> Option<set<Identity>>) {
    forall l | l in ls :: expected(l.path) == Some(IdentitiesOf(l))
  }

  lemma AgreesIff(ls: seq<Lockfile>, paths: seq<string>, expected: string -> Option<set<Identity>>)
    requires Requested(ls, paths)
    ensures (forall p | p in paths :: expected(p) == Some(IdentitiesAt(AllPackages(PrintEntries(ls)), p))) <==>
            Agrees(ls, expected)
  {
    hide IdentitiesAt, AllPackages, PrintEntries, IdentitiesOf;
    forall l | l in ls ensures IdentitiesAt(AllPackages(PrintEntries(ls)), l.path) == IdentitiesOf(l) {
      IdentitiesAre(ls, paths, l);
    }
    if Agrees(ls, expected) {
      forall p | p in paths ensures expected(p) == Some(IdentitiesAt(AllPackages(PrintEntries(ls)), p)) {
        var l :| l in ls && l.path == p;
      }
    }
    forall l | l in ls ensures l.path in paths {
      assert LockfileOk(l, paths);
    }
  }

  /**
   * A printed report is admitted exactly when its lockfiles are the requested ones, each scanned once and with the
   * packages the lockfile itself lists, every advisory has well-formed names of which none is that of malware, and
   * the scanner ended with 0, or with 1 and some advisory.
   */
  lemma PrintedReportIff(ls: seq<Lockfile>, paths: seq<string>, expected: string -> Option<set<Identity>>, code: int)
    ensures Admissible(PrintReport(ls), paths, expected, code) <==>
            && Requested(ls, paths) && Agrees(ls, expected)
            && (forall a | Reports(ls, a) :: AdvisoryOk(a) && !NamesMalwareIn(a))
            && (code == 0 || (code == 1 && exists a :: Reports(ls, a)))
  {
    InventoryIff(ls, paths);
    ReportedIff(ls);
    if Requested(ls, paths) {
      AgreesIff(ls, paths, expected);
    }
    assert ListOf(Member(PrintReport(ls), "results")) == Some(PrintEntries(ls));
    hide InventoryOk, AllPackages, AllVulnsOk, FreeOfMalware, AllFindings, Requested, Agrees, AdvisoryOk,
         NamesMalwareIn,
         Reports, PrintEntries;
  }

  /** An admitted report, printed or not, has no advisory under a name of malware. */
  lemma NoMalwareIsAdmitted(report: Json, paths: seq<string>, expected: string -> Option<set<Identity>>, code: int,
                            x: Package, v: Json)
    requires Admissible(report, paths, expected, code)
    requires x in AllPackages(ListOf(Member(report, "results")).value) && v in VulnsOf(x)
    ensures VulnOk(v) && !IsMalwareName(IdOf(v))
    ensures forall a | a in AliasesOf(v) :: !IsMalwareName(a)
  {
    var packages := AllPackages(ListOf(Member(report, "results")).value);
    ByAdvisory(packages);
    assert FoundIn(packages, v);
    MarksMalwareIff(IdOf(v));
    hide IsMalwareName, MarksMalware, AllPackages, VulnsOf;
    forall a | a in AliasesOf(v) ensures !IsMalwareName(a) {
      MarksMalwareIff(a);
    }
  }

  // ----- names of Python packages

  predicate IsMark(c: char) { c in "-_." }

  ghost predicate IsWord(s: string) { forall c | c in s :: !IsMark(c) }

  ghost predicate IsMarks(s: string) { s != "" && forall c | c in s :: IsMark(c) }

  /** The words with the marks between them. */
  function Spelled(words: seq<string>, marks: seq<string>): string
    requires |words| == |marks| + 1
  {
    if marks == [] then words[0] else words[0] + (marks[0] + Spelled(words[1..], marks[1..]))
  }

  function LowerAll(words: seq<string>): seq<string> {
    seq(|words|, i requires 0 <= i < |words| => Lower(words[i]))
  }

  lemma MarkChars(c: char)
    ensures IsMark(c) <==> c == '-' || c == '_' || c == '.'
  {
  }

  lemma {:induction false} NormalWord(word: string, rest: string)
    requires IsWord(word)
    ensures NormalName(word + rest, false) == Lower(word) + NormalName(rest, false)
    ensures word != "" ==> NormalName(word + rest, true) == NormalName(word + rest, false)
  {
    if word == "" {
      assert word + rest == rest;
    } else {
      MarkChars(word[0]);
      assert (word + rest)[1..] == word[1..] + rest;
      NormalWord(word[1..], rest);
      assert Lower(word) == [LowerChar(word[0])] + Lower(word[1..]);
    }
  }

  lemma {:induction false} NormalMarks(marks: string, rest: string)
    requires forall c | c in marks :: IsMark(c)
    ensures NormalName(marks + rest, true) == NormalName(rest, true)
    ensures marks != "" ==> NormalName(marks + rest, false) == "-" + NormalName(rest, true)
  {
    if marks == "" {
      assert marks + rest == rest;
    } else {
      MarkChars(marks[0]);
      assert (marks + rest)[1..] == marks[1..] + rest;
      NormalMarks(marks[1..], rest);
    }
  }

  /** A name is compared by its words in lower case, whatever marks stand between them. */
  lemma {:induction false} NameByWords(words: seq<string>, marks: seq<string>)
    requires |words| == |marks| + 1
    requires (forall w | w in words :: IsWord(w)) && (forall m | m in marks :: IsMarks(m))
    requires forall i | 0 < i < |words| - 1 :: words[i] != ""
    ensures NormalName(Spelled(words, marks), false) == Join(LowerAll(words), '-')
    ensures words[0] != "" || marks == [] ==>
              NormalName(Spelled(words, marks), true) == NormalName(Spelled(words, marks), false)
  {
    if marks == [] {
      NormalWord(words[0], "");
      assert words[0] + "" == words[0] && Lower(words[0]) + "" == Lower(words[0]);
    } else {
      var rest := Spelled(words[1..], marks[1..]);
      assert words[0] in words && marks[0] in marks;
      assert forall w | w in words[1..] :: w in words;
      assert forall m | m in marks[1..] :: m in marks;
      NameByWords(words[1..], marks[1..]);
      NormalMarks(marks[0], rest);
      NormalWord(words[0], marks[0] + rest);
      assert LowerAll(words) == [Lower(words[0])] + LowerAll(words[1..]);
      assert LowerAll(words)[1..] == LowerAll(words[1..]);
      assert "-" == ['-'];
    }
  }

  /** White space, code point by code point. */
  lemma SpaceIff(c: char)
    ensures IsPySpace(c) <==>
            c as int in {0x9, 0xa, 0xb, 0xc, 0xd, 0x1c, 0x1d, 0x1e, 0x1f, 0x20, 0x85, 0xa0, 0x1680, 0x2000, 0x2001,
                         0x2002, 0x2003, 0x2004, 0x2005, 0x2006, 0x2007, 0x2008, 0x2009, 0x200a, 0x2028, 0x2029,
                         0x202f, 0x205f, 0x3000}
  {
  }
}
