// scripts/osv-dependency-gate.py: admission of a scan report against the
// requested lockfiles.
module OsvGate {
  import opened Wrappers
  import opened Text
  import opened Json

  datatype Package = Package(source: string, item: Json)

  datatype Finding = Finding(malicious: bool, source: string, package: Json, id: string, aliases: seq<string>)

  datatype Summary = Summary(malicious: nat, vulnerabilities: nat, findings: seq<Finding>)

  // ----- reading JSON values

  function ListOf(value: Option<Json>): Option<seq<Json>> {
    if value.Some? && value.value.Arr? then Some(value.value.items) else None
  }

  predicate IsDict(value: Option<Json>) { value.Some? && value.value.Obj? }

  /** `item.get(key, [])`. */
  function GetList(item: Json, key: string): Json {
    match Member(item, key)
    case Some(v) => v
    case None => Arr([])
  }

  /** The file name of a path. */
  function BaseName(path: string): string {
    if path == "" || path[|path| - 1] == '/' then "" else BaseName(path[..|path| - 1]) + [path[|path| - 1]]
  }

  function ExpectedEcosystem(path: string): Option<string> {
    var name := BaseName(path);
    if name == "Cargo.lock" then Some("crates.io")
    else if name == "requirements.txt" then Some("PyPI")
    else if name in {"pnpm-lock.yaml", "package-lock.json", "npm-shrinkwrap.json"} then Some("npm")
    else None
  }

  // ----- validate_inventory

  function SourceOf(entry: Json): Option<string> {
    match Member(entry, "source")
    case Some(source) => StringOf(Member(source, "path"))
    case None => None
  }

  function ItemsOf(entry: Json): seq<Json> {
    match ListOf(Member(entry, "packages"))
    case Some(items) => items
    case None => []
  }

  function PackageOf(item: Json): Json {
    match Member(item, "package")
    case Some(p) => p
    case None => Null
  }

  function TextField(item: Json, key: string): string {
    match StringOf(Member(PackageOf(item), key))
    case Some(s) => s
    case None => ""
  }

  predicate ItemOk(item: Json, path: string) {
    && item.Obj? && PackageOf(item).Obj?
    && TextField(item, "name") != "" && TextField(item, "version") != "" && TextField(item, "ecosystem") != ""
    && ExpectedEcosystem(path) == Some(TextField(item, "ecosystem"))
    && GetList(item, "vulnerabilities").Arr?
  }

  /** The entry names a requested lockfile and lists well-formed packages of its ecosystem, at least one. */
  predicate EntryOk(entry: Json, paths: seq<string>) {
    && entry.Obj? && IsDict(Member(entry, "source")) && SourceOf(entry).Some? && SourceOf(entry).value in paths
    && ListOf(Member(entry, "packages")).Some? && ItemsOf(entry) != []
    && forall x | x in ItemsOf(entry) :: ItemOk(x, SourceOf(entry).value)
  }

  /** Every entry is in order, no lockfile is reported twice, and none of the requested ones is missing. */
  predicate InventoryOk(entries: seq<Json>, paths: seq<string>) {
    && (forall i | 0 <= i < |entries| :: EntryOk(entries[i], paths))
    && (forall i, j | 0 <= i < j < |entries| :: SourceOf(entries[i]) != SourceOf(entries[j]))
    && (forall p | p in paths :: exists i | 0 <= i < |entries| :: SourceOf(entries[i]) == Some(p))
  }

  function Tagged(items: seq<Json>, path: string): seq<Package> {
    seq(|items|, i requires 0 <= i < |items| => Package(path, items[i]))
  }

  function AllPackages(entries: seq<Json>): seq<Package> {
    if entries == [] then []
    else
      var last := entries[|entries| - 1];
      AllPackages(entries[..|entries| - 1])
      + match SourceOf(last) case Some(path) => Tagged(ItemsOf(last), path) case None => []
  }

  method CheckItems(items: seq<Json>, path: string) returns (ok: bool)
    ensures ok <==> forall x | x in items :: ItemOk(x, path)
  {
    hide ItemOk;
    for i := 0 to |items|
      invariant forall j | 0 <= j < i :: ItemOk(items[j], path)
    {
      if !ItemOk(items[i], path) {
        return false;
      }
    }
    return true;
  }

  /** The shape of one result, before its packages are looked at. */
  predicate ShapeOk(entry: Json, paths: seq<string>) {
    && entry.Obj? && IsDict(Member(entry, "source")) && SourceOf(entry).Some? && SourceOf(entry).value in paths
    && ListOf(Member(entry, "packages")).Some? && ItemsOf(entry) != []
  }

  method CheckEntry(entry: Json, paths: seq<string>) returns (ok: bool)
    ensures ok <==> EntryOk(entry, paths)
  {
    hide ItemOk, SourceOf, ItemsOf, ListOf, IsDict, Member;
    if !ShapeOk(entry, paths) {
      return false;
    }
    ok := CheckItems(ItemsOf(entry), SourceOf(entry).value);
  }

  /** The first `n` entries are in order, and `inventory` holds their lockfiles, which differ. */
  ghost predicate Seen(entries: seq<Json>, n: nat, paths: seq<string>, inventory: set<string>)
    requires n <= |entries|
  {
    && (forall j | 0 <= j < n :: EntryOk(entries[j], paths))
    && (forall j, k | 0 <= j < k < n :: SourceOf(entries[j]) != SourceOf(entries[k]))
    && (forall p :: p in inventory <==> exists j | 0 <= j < n :: SourceOf(entries[j]) == Some(p))
  }

  lemma SeenNext(entries: seq<Json>, n: nat, paths: seq<string>, inventory: set<string>, path: string)
    requires n < |entries| && Seen(entries, n, paths, inventory) && EntryOk(entries[n], paths)
             && SourceOf(entries[n]) == Some(path)
    ensures path !in inventory ==> Seen(entries, n + 1, paths, inventory + {path})
    ensures path in inventory ==> !InventoryOk(entries, paths)
  {
    hide EntryOk, SourceOf;
    if path in inventory {
      var j :| 0 <= j < n && SourceOf(entries[j]) == Some(path);
      assert SourceOf(entries[j]) == SourceOf(entries[n]);
    } else {
      var more := inventory + {path};
      forall p ensures p in more <==> exists j | 0 <= j < n + 1 :: SourceOf(entries[j]) == Some(p) {
        if p == path {
          assert SourceOf(entries[n]) == Some(p);
        }
      }
    }
  }

  lemma SeenAll(entries: seq<Json>, paths: seq<string>, inventory: set<string>)
    requires Seen(entries, |entries|, paths, inventory)
    ensures InventoryOk(entries, paths) <==> forall p | p in paths :: p in inventory
  {
    hide EntryOk, SourceOf;
  }

  lemma PackagesNext(entries: seq<Json>, n: nat, path: string)
    requires n < |entries| && SourceOf(entries[n]) == Some(path)
    ensures AllPackages(entries[..n + 1]) == AllPackages(entries[..n]) + Tagged(ItemsOf(entries[n]), path)
  {
    hide SourceOf, ItemsOf;
    assert entries[..n + 1][..n] == entries[..n];
  }

  method ValidateInventory(report: Json, paths: seq<string>) returns (packages: Option<seq<Package>>)
    ensures packages.Some? <==>
            ListOf(Member(report, "results")).Some? && InventoryOk(ListOf(Member(report, "results")).value, paths)
    ensures packages.Some? ==> packages.value == AllPackages(ListOf(Member(report, "results")).value)
  {
    hide InventoryOk, Seen, AllPackages;
    if ListOf(Member(report, "results")).None? {
      return None;
    }
    var entries := ListOf(Member(report, "results")).value;
    var inventory: set<string> := {};
    var all: seq<Package> := [];
    SeenNothing(entries, paths);
    for i := 0 to |entries|
      invariant all == AllPackages(entries[..i]) && Seen(entries, i, paths, inventory)
    {
      var ok := CheckEntry(entries[i], paths);
      if !ok {
        BadEntry(entries, paths, i);
        return None;
      }
      var path := SourceOf(entries[i]).value;
      SeenNext(entries, i, paths, inventory, path);
      if path in inventory {
        return None;
      }
      PackagesNext(entries, i, path);
      inventory := inventory + {path};
      all := all + Tagged(ItemsOf(entries[i]), path);
    }
    assert entries[..|entries|] == entries;
    SeenAll(entries, paths, inventory);
    packages := if forall p | p in paths :: p in inventory then Some(all) else None;
  }

  lemma SeenNothing(entries: seq<Json>, paths: seq<string>)
    ensures Seen(entries, 0, paths, {}) && AllPackages(entries[..0]) == []
  {
  }

  lemma BadEntry(entries: seq<Json>, paths: seq<string>, i: nat)
    requires i < |entries| && !EntryOk(entries[i], paths)
    ensures !InventoryOk(entries, paths)
  {
    hide EntryOk, SourceOf;
  }

  // ----- findings_summary

  predicate Blank(s: string) { forall i | 0 <= i < |s| :: IsPySpace(s[i]) }

  /** White space as Python's `str.strip` and `str.isspace` see it. */
  predicate IsPySpace(c: char) {
    || '\t' <= c <= '\r' || '\U{1C}' <= c <= ' ' || c == '\U{85}' || c == '\U{A0}' || c == '\U{1680}'
    || '\U{2000}' <= c <= '\U{200A}' || c == '\U{2028}' || c == '\U{2029}' || c == '\U{202F}' || c == '\U{205F}'
    || c == '\U{3000}'
  }

  predicate IdentityChar(c: char) { IsAlnum(c) || c == '.' || c == '_' || c == ':' || c == '-' }

  predicate IsIdentity(s: string) { s != "" && IsAlnum(s[0]) && forall i | 0 <= i < |s| :: IdentityChar(s[i]) }

  predicate MarksMalware(identity: string) { Lower("MAL-") <= Lower(identity) }

  predicate AliasesOk(vuln: Json) {
    && GetList(vuln, "aliases").Arr?
    && forall a | a in GetList(vuln, "aliases").items :: a.Str? && !Blank(a.s) && IsIdentity(a.s)
  }

  predicate VulnOk(vuln: Json) {
    && vuln.Obj? && StringOf(Member(vuln, "id")).Some?
    && !Blank(StringOf(Member(vuln, "id")).value) && IsIdentity(StringOf(Member(vuln, "id")).value)
    && AliasesOk(vuln)
  }

  function AliasesOf(vuln: Json): seq<string>
    requires VulnOk(vuln)
  {
    var items := GetList(vuln, "aliases").items;
    seq(|items|, i requires 0 <= i < |items| => assert items[i] in items; items[i].s)
  }

  function IdOf(vuln: Json): string
    requires VulnOk(vuln)
  {
    StringOf(Member(vuln, "id")).value
  }

  function FindingOf(p: Package, vuln: Json): Finding
    requires VulnOk(vuln)
  {
    Finding(MarksMalware(IdOf(vuln)) || exists a | a in AliasesOf(vuln) :: MarksMalware(a),
            p.source, PackageOf(p.item), IdOf(vuln), AliasesOf(vuln))
  }

  function VulnsOf(p: Package): seq<Json> {
    match GetList(p.item, "vulnerabilities")
    case Arr(items) => items
    case _ => []
  }

  predicate AllVulnsOk(packages: seq<Package>) {
    forall i | 0 <= i < |packages| :: forall v | v in VulnsOf(packages[i]) :: VulnOk(v)
  }

  function FindingsOfOne(p: Package, vulns: seq<Json>): seq<Finding>
    requires forall v | v in vulns :: VulnOk(v)
  {
    seq(|vulns|, i requires 0 <= i < |vulns| => assert vulns[i] in vulns; FindingOf(p, vulns[i]))
  }

  function AllFindings(packages: seq<Package>): seq<Finding>
    requires AllVulnsOk(packages)
  {
    if packages == [] then []
    else
      var n := |packages| - 1;
      AllFindings(packages[..n]) + FindingsOfOne(packages[n], VulnsOf(packages[n]))
  }

  function CountMalicious(findings: seq<Finding>, malicious: bool): nat {
    if findings == [] then 0
    else
      var n := |findings| - 1;
      CountMalicious(findings[..n], malicious) + if findings[n].malicious == malicious then 1 else 0
  }

  function SummaryOf(findings: seq<Finding>): Summary {
    Summary(CountMalicious(findings, true), CountMalicious(findings, false), findings)
  }

  method CollectFindings(p: Package) returns (findings: Option<seq<Finding>>)
    ensures findings.Some? <==> forall v | v in VulnsOf(p) :: VulnOk(v)
    ensures findings.Some? ==> findings.value == FindingsOfOne(p, VulnsOf(p))
  {
    hide VulnOk, FindingOf, VulnsOf;
    var vulns := VulnsOf(p);
    var found: seq<Finding> := [];
    for i := 0 to |vulns|
      invariant forall j | 0 <= j < i :: VulnOk(vulns[j])
      invariant |found| == i && forall j | 0 <= j < i :: found[j] == FindingOf(p, vulns[j])
    {
      if !VulnOk(vulns[i]) {
        return None;
      }
      found := found + [FindingOf(p, vulns[i])];
    }
    findings := Some(found);
  }

  /** `findings_summary`; `None` when an advisory is malformed. */
  method FindingsSummary(packages: seq<Package>) returns (summary: Option<Summary>)
    ensures summary.Some? <==> AllVulnsOk(packages)
    ensures summary.Some? ==> summary.value == SummaryOf(AllFindings(packages))
  {
    hide VulnOk, VulnsOf, FindingsOfOne;
    var findings: seq<Finding> := [];
    for i := 0 to |packages|
      invariant AllVulnsOk(packages[..i]) && findings == AllFindings(packages[..i])
    {
      assert packages[..i + 1][..i] == packages[..i];
      var found := CollectFindings(packages[i]);
      if found.None? {
        return None;
      }
      findings := findings + found.value;
    }
    assert packages[..|packages|] == packages;
    summary := Some(SummaryOf(findings));
  }

  /** Malicious and ordinary findings are all findings. */
  lemma {:induction false} CountsAddUp(findings: seq<Finding>)
    ensures SummaryOf(findings).malicious + SummaryOf(findings).vulnerabilities == |findings|
    ensures SummaryOf(findings).malicious == 0 <==> forall f | f in findings :: !f.malicious
  {
    if findings != [] {
      var n := |findings| - 1;
      CountsAddUp(findings[..n]);
      assert findings == findings[..n] + [findings[n]];
    }
  }

  lemma {:induction false} FindingsMembers(packages: seq<Package>)
    requires AllVulnsOk(packages)
    ensures forall f :: f in AllFindings(packages) <==>
              exists i, v | 0 <= i < |packages| && v in VulnsOf(packages[i]) :: f == FindingOf(packages[i], v)
  {
    hide VulnOk, VulnsOf, FindingOf;
    if packages != [] {
      var n := |packages| - 1;
      FindingsMembers(packages[..n]);
      var last := FindingsOfOne(packages[n], VulnsOf(packages[n]));
      forall f
        ensures f in AllFindings(packages) <==>
                exists i, v | 0 <= i < |packages| && v in VulnsOf(packages[i]) :: f == FindingOf(packages[i], v)
      {
        if f in AllFindings(packages[..n]) {
          var i, v :| 0 <= i < n && v in VulnsOf(packages[..n][i]) && f == FindingOf(packages[..n][i], v);
          assert v in VulnsOf(packages[i]) && f == FindingOf(packages[i], v);
        }
        if i, v :| 0 <= i < |packages| && v in VulnsOf(packages[i]) && f == FindingOf(packages[i], v) {
          if i < n {
            assert v in VulnsOf(packages[..n][i]) && f == FindingOf(packages[..n][i], v);
          } else {
            var k :| 0 <= k < |VulnsOf(packages[n])| && VulnsOf(packages[n])[k] == v;
            assert last[k] == f;
          }
        }
      }
    }
  }

  // ----- scan_exit_status and the admission

  datatype Exit = Error | Code(code: int)

  function ScanExitStatus(returnCode: int, summary: Summary): Exit {
    if returnCode == 1 && summary.findings == [] then Error
    else if returnCode != 0 && returnCode != 1 then Code(returnCode)
    else if summary.malicious > 0 then Code(1) else Code(0)
  }

  /** The advisories of a package that name malware, under their own id or an alias, in any letter case. */
  ghost predicate NamesMalware(vuln: Json)
    requires VulnOk(vuln)
  {
    MarksMalware(IdOf(vuln)) || exists a | a in AliasesOf(vuln) :: MarksMalware(a)
  }

  ghost predicate FreeOfMalware(packages: seq<Package>)
    requires AllVulnsOk(packages)
  {
    forall i, v | 0 <= i < |packages| && v in VulnsOf(packages[i]) :: !NamesMalware(v)
  }

  lemma NoMalwareIff(packages: seq<Package>)
    requires AllVulnsOk(packages)
    ensures SummaryOf(AllFindings(packages)).malicious == 0 <==> FreeOfMalware(packages)
  {
    var findings := AllFindings(packages);
    CountsAddUp(findings);
    FindingsMembers(packages);
    hide VulnOk, VulnsOf, AllFindings, AliasesOf, IdOf, MarksMalware;
    if FreeOfMalware(packages) {
      forall f | f in findings ensures !f.malicious {
        var i, v :| 0 <= i < |packages| && v in VulnsOf(packages[i]) && f == FindingOf(packages[i], v);
        assert !NamesMalware(v);
      }
    }
    if forall f | f in findings :: !f.malicious {
      forall i, v | 0 <= i < |packages| && v in VulnsOf(packages[i]) ensures !NamesMalware(v) {
        assert FindingOf(packages[i], v) in findings;
      }
    }
  }

  /** Runs of `-`, `_` and `.` as one `-`, in lower case: how Python package names are compared. */
  function NormalName(s: string, afterSeparator: bool): string {
    if s == "" then ""
    else if s[0] == '-' || s[0] == '_' || s[0] == '.' then
      (if afterSeparator then "" else "-") + NormalName(s[1..], true)
    else [LowerChar(s[0])] + NormalName(s[1..], false)
  }

  type Identity = (string, string)

  function IdentityOf(item: Json): Identity {
    var name := TextField(item, "name");
    (if TextField(item, "ecosystem") == "PyPI" then NormalName(name, false) else name, TextField(item, "version"))
  }

  function ItemIdentities(items: seq<Json>): set<Identity> { set x | x in items :: IdentityOf(x) }

  /** The identities the scanner reports for one lockfile. */
  function IdentitiesAt(packages: seq<Package>, path: string): set<Identity> {
    set p | p in packages && p.source == path :: IdentityOf(p.item)
  }

  /** The inventory is that of the lockfiles and every advisory can be read. */
  ghost predicate Presentable(report: Json, paths: seq<string>, expected: string -> Option<set<Identity>>) {
    && ListOf(Member(report, "results")).Some?
    && var entries := ListOf(Member(report, "results")).value;
    && InventoryOk(entries, paths)
    && (forall p | p in paths :: expected(p) == Some(IdentitiesAt(AllPackages(entries), p)))
    && AllVulnsOk(AllPackages(entries))
  }

  /** Everything the admission demands of one run. */
  ghost predicate Admissible(report: Json, paths: seq<string>, expected: string -> Option<set<Identity>>,
                             returnCode: int)
  {
    && ListOf(Member(report, "results")).Some?
    && var entries := ListOf(Member(report, "results")).value;
    && InventoryOk(entries, paths)
    && var packages := AllPackages(entries);
    && (forall p | p in paths :: expected(p) == Some(IdentitiesAt(packages, p)))
    && AllVulnsOk(packages) && FreeOfMalware(packages)
    && (returnCode == 0 || (returnCode == 1 && AllFindings(packages) != []))
  }

  lemma ExitZeroIff(returnCode: int, packages: seq<Package>)
    requires AllVulnsOk(packages)
    ensures ScanExitStatus(returnCode, SummaryOf(AllFindings(packages))) == Code(0) <==>
            FreeOfMalware(packages) && (returnCode == 0 || (returnCode == 1 && AllFindings(packages) != []))
    ensures ScanExitStatus(returnCode, SummaryOf(AllFindings(packages))) ==
            if returnCode !in {0, 1} then Code(returnCode)
            else if FreeOfMalware(packages)
                    then (if returnCode == 1 && AllFindings(packages) == [] then Error else Code(0))
            else Code(1)
    ensures AllFindings(packages) == [] ==> FreeOfMalware(packages)
  {
    NoMalwareIff(packages);
    CountsAddUp(AllFindings(packages));
    hide FreeOfMalware, AllFindings, AllVulnsOk;
  }

  /**
   * The checks of `main` after the scan, in their order. The exit code is 0 exactly for what is admissible, the
   * scanner's own code when that is neither 0 nor 1, and 1 when there is malware.
   */
  method Admit(report: Json, paths: seq<string>, expected: string -> Option<set<Identity>>, returnCode: int)
    returns (exit: Exit)
    ensures exit == Code(0) <==> Admissible(report, paths, expected, returnCode)
    ensures !Presentable(report, paths, expected) ==> exit == Error
    ensures Presentable(report, paths, expected) && returnCode !in {0, 1} ==> exit == Code(returnCode)
    ensures Presentable(report, paths, expected) && returnCode in {0, 1} ==>
              var packages := AllPackages(ListOf(Member(report, "results")).value);
              && (exit == Code(1) <==> !FreeOfMalware(packages))
              && (exit == Error <==> returnCode == 1 && AllFindings(packages) == [])
  {
    hide InventoryOk, AllPackages, AllVulnsOk, FreeOfMalware, AllFindings, IdentitiesAt, SummaryOf, ScanExitStatus;
    var packages := ValidateInventory(report, paths);
    if packages.None? {
      return Error;
    }
    for i := 0 to |paths|
      invariant forall j | 0 <= j < i :: expected(paths[j]) == Some(IdentitiesAt(packages.value, paths[j]))
    {
      var known := expected(paths[i]);
      if known.None? || known.value != IdentitiesAt(packages.value, paths[i]) {
        return Error;
      }
    }
    var summary := FindingsSummary(packages.value);
    if summary.None? {
      return Error;
    }
    ExitZeroIff(returnCode, packages.value);
    exit := ScanExitStatus(returnCode, summary.value);
  }

  lemma {:induction false} PackagesMembers(entries: seq<Json>, p: Package)
    ensures p in AllPackages(entries) <==>
            exists i | 0 <= i < |entries| :: SourceOf(entries[i]) == Some(p.source) && p.item in ItemsOf(entries[i])
  {
    hide SourceOf, ItemsOf;
    if entries != [] {
      var n := |entries| - 1;
      PackagesMembers(entries[..n], p);
      if p in AllPackages(entries[..n]) {
        var i :| 0 <= i < n && SourceOf(entries[..n][i]) == Some(p.source) && p.item in ItemsOf(entries[..n][i]);
        assert SourceOf(entries[i]) == Some(p.source) && p.item in ItemsOf(entries[i]);
      }
      if i :| 0 <= i < |entries| && SourceOf(entries[i]) == Some(p.source) && p.item in ItemsOf(entries[i]) {
        if i < n {
          assert SourceOf(entries[..n][i]) == Some(p.source) && p.item in ItemsOf(entries[..n][i]);
        } else {
          var items := ItemsOf(entries[n]);
          var k :| 0 <= k < |items| && items[k] == p.item;
          assert Tagged(items, p.source)[k] == p;
        }
      }
    }
  }

  lemma DistinctSources(entries: seq<Json>, paths: seq<string>, i: nat, j: nat)
    requires InventoryOk(entries, paths) && i < |entries| && j < |entries| && i != j
    ensures SourceOf(entries[i]) != SourceOf(entries[j])
  {
    hide SourceOf, EntryOk;
    assert if i < j then SourceOf(entries[i]) != SourceOf(entries[j]) else SourceOf(entries[j]) != SourceOf(entries[i]);
  }

  lemma IdentitiesOfEntry(entries: seq<Json>, paths: seq<string>, i: nat, path: string)
    requires InventoryOk(entries, paths) && i < |entries| && SourceOf(entries[i]) == Some(path)
    ensures IdentitiesAt(AllPackages(entries), path) == ItemIdentities(ItemsOf(entries[i]))
  {
    hide SourceOf, ItemsOf, EntryOk, IdentityOf, AllPackages;
    var packages := AllPackages(entries);
    forall p | p in packages && p.source == path ensures p.item in ItemsOf(entries[i]) {
      PackagesMembers(entries, p);
      var j :| 0 <= j < |entries| && SourceOf(entries[j]) == Some(p.source) && p.item in ItemsOf(entries[j]);
      if j != i {
        DistinctSources(entries, paths, i, j);
      }
    }
    forall x | x in ItemsOf(entries[i]) ensures Package(path, x) in packages {
      PackagesMembers(entries, Package(path, x));
    }
    forall id ensures id in IdentitiesAt(packages, path) <==> id in ItemIdentities(ItemsOf(entries[i])) {
      if id in ItemIdentities(ItemsOf(entries[i])) {
        var x :| x in ItemsOf(entries[i]) && IdentityOf(x) == id;
        assert Package(path, x) in packages;
      }
    }
  }

  /**
   * What exit code 0 means: every requested lockfile is exactly one scanned source, whose packages have exactly
   * the identities parsed independently, and no advisory of any package names malware.
   */
  lemma AdmissionMeans(report: Json, paths: seq<string>, expected: string -> Option<set<Identity>>, returnCode: int,
                       path: string)
    returns (entries: seq<Json>, i: nat)
    requires Admissible(report, paths, expected, returnCode) && path in paths
    ensures Member(report, "results") == Some(Arr(entries)) && i < |entries|
    ensures forall j | 0 <= j < |entries| :: SourceOf(entries[j]) == Some(path) <==> j == i
    ensures ItemsOf(entries[i]) != [] && expected(path) == Some(ItemIdentities(ItemsOf(entries[i])))
    ensures forall x, v | x in ItemsOf(entries[i]) && v in VulnsOf(Package(path, x)) :: VulnOk(v) && !NamesMalware(v)
  {
    entries := ListOf(Member(report, "results")).value;
    hide SourceOf, ItemsOf, VulnsOf, VulnOk, NamesMalware, AllPackages, IdentitiesAt, ItemIdentities, ItemOk, IsDict,
         ListOf;
    i :| 0 <= i < |entries| && SourceOf(entries[i]) == Some(path);
    assert EntryOk(entries[i], paths);
    IdentitiesOfEntry(entries, paths, i, path);
    forall j | 0 <= j < |entries| ensures SourceOf(entries[j]) == Some(path) <==> j == i {
      if j != i {
        DistinctSources(entries, paths, i, j);
      }
    }
    var packages := AllPackages(entries);
    forall x, v | x in ItemsOf(entries[i]) && v in VulnsOf(Package(path, x)) ensures VulnOk(v) && !NamesMalware(v) {
      PackagesMembers(entries, Package(path, x));
      var k :| 0 <= k < |packages| && packages[k] == Package(path, x);
      assert VulnOk(v);
    }
  }
}
