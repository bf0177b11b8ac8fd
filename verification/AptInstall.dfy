/**
 Installing native prerequisites (tools/native_apt_prerequisites.py) against an arbitrary package
 manager: everything apt and dpkg answer, and every cached byte, is part of a `World` of which
 nothing is assumed.
 */
module AptInstall {
  import opened AptSyntax
  import opened Wrappers
  import opened Decimals
  import opened Sequences
  import opened Strings

  /** A package database key: name and architecture. */
  datatype Key = Key(name: string, architecture: string)

  /** A database row; rows that are not installed are removed packages with configuration left. */
  datatype Row = Row(version: string, installed: bool, source: string, sourceVersion: string)

  type Database = map<Key, Row>

  datatype Selection = Selection(name: string, version: string, architecture: string)

  datatype Package = Package(selection: Selection, sha: string, size: int)

  datatype Refused = Refused

  function KeyOf(s: Selection): Key {
    Key(s.name, s.architecture)
  }

  // ----- the simulated transaction

  /** A line of the simulation; `Unrecognized` is an Inst or Conf line that does not parse. */
  datatype Line =
    | Inst(name: string, previous: Option<string>, version: string, architecture: string)
    | Conf(name: string, version: string, architecture: string)
    | Removes
    | Unrecognized
    | Chatter

  predicate Less(a: Selection, b: Selection) {
    || StringLess(a.name, b.name)
    || (a.name == b.name && StringLess(a.version, b.version))
    || (a.name == b.name && a.version == b.version && StringLess(a.architecture, b.architecture))
  }

  lemma LessOrder(a: Selection, b: Selection)
    ensures a != b ==> Less(a, b) || Less(b, a)
    ensures !Less(a, a)
  {
    StringOrder(a.name, b.name);
    StringOrder(a.version, b.version);
    StringOrder(a.architecture, b.architecture);
    StringOrder(a.name, a.name);
    StringOrder(a.version, a.version);
    StringOrder(a.architecture, a.architecture);
  }

  /** By name, then by version, then by architecture. */
  lemma LessMeans(a: Selection, b: Selection)
    ensures a.name != b.name ==> (Less(a, b) <==> StringLess(a.name, b.name))
    ensures a.name == b.name && a.version != b.version ==> (Less(a, b) <==> StringLess(a.version, b.version))
    ensures a.name == b.name && a.version == b.version ==> (Less(a, b) <==> StringLess(a.architecture, b.architecture))
  {
    StringOrder(a.name, a.name);
    StringOrder(a.version, a.version);
  }

  lemma LessTransitive(a: Selection, b: Selection, c: Selection)
    requires Less(a, b) && Less(b, c)
    ensures Less(a, c)
  {
    if StringLess(a.name, b.name) && StringLess(b.name, c.name) {
      StringTransitive(a.name, b.name, c.name);
    }
    if StringLess(a.version, b.version) && StringLess(b.version, c.version) {
      StringTransitive(a.version, b.version, c.version);
    }
    if StringLess(a.architecture, b.architecture) && StringLess(b.architecture, c.architecture) {
      StringTransitive(a.architecture, b.architecture, c.architecture);
    }
  }

  /** In strictly ascending order, compared neighbour by neighbour. */
  predicate Ascending(s: seq<Selection>) {
    |s| <= 1 || (Less(s[0], s[1]) && Ascending(s[1..]))
  }

  function Insert(s: seq<Selection>, x: Selection): seq<Selection> {
    if s == [] || Less(x, s[0]) then [x] + s else [s[0]] + Insert(s[1..], x)
  }

  lemma {:induction false} InsertAscends(s: seq<Selection>, x: Selection)
    requires Ascending(s) && x !in s
    ensures Ascending(Insert(s, x))
    ensures forall y :: y in Insert(s, x) <==> y in s || y == x
    decreases |s|
  {
    if s == [] || Less(x, s[0]) {
      assert ([x] + s)[1..] == s;
    } else {
      LessOrder(x, s[0]);
      assert s[0] in s && s == [s[0]] + s[1..];
      InsertAscends(s[1..], x);
      assert ([s[0]] + Insert(s[1..], x))[1..] == Insert(s[1..], x);
    }
  }

  lemma {:induction false} AscendingDistinct(s: seq<Selection>)
    requires Ascending(s)
    ensures Distinct(s)
    ensures s != [] ==> forall y :: y in s[1..] ==> Less(s[0], y)
    decreases |s|
  {
    if |s| > 1 {
      var t := s[1..];
      AscendingDistinct(t);
      forall y | y in t ensures Less(s[0], y) {
        if y != t[0] {
          assert t == [t[0]] + t[1..];
          LessTransitive(s[0], t[0], y);
        }
      }
      forall j | 0 < j < |s| ensures s[0] != s[j] {
        assert s[j] == t[j - 1] && t[j - 1] in t;
        LessOrder(s[0], s[0]);
      }
      forall i, j | 0 < i < j < |s| ensures s[i] != s[j] {
        assert s[i] == t[i - 1] && s[j] == t[j - 1];
      }
    }
  }

  predicate InstalledIn(db: Database, k: Key) {
    k in db && db[k].installed
  }

  /** An addition of a native or architecture-independent package that is not installed yet. */
  predicate Admissible(l: Line, before: Database, native: string)
    requires l.Inst?
  {
    && l.previous.None? && !InstalledIn(before, Key(l.name, l.architecture))
    && l.architecture in [native, "all"] && ValidName(l.name) && ValidVersion(l.version)
  }

  function SelectionOf(l: Line): Selection
    requires l.Inst? || l.Conf?
  {
    Selection(l.name, l.version, l.architecture)
  }

  /**
   Every line is readable and removes nothing; an installation is of a package with no previous version
   that is not installed yet, native or independent of the architecture, and none is named twice.
   */
  ghost predicate LinesOk(lines: seq<Line>, before: Database, native: string) {
    && (forall l :: l in lines ==> !l.Removes? && !l.Unrecognized?)
    && (forall l :: l in lines && l.Inst? ==> ValidName(l.name) && ValidVersion(l.version))
    && (forall l :: l in lines && l.Inst? ==>
          && l.previous == None && (l.architecture == native || l.architecture == "all")
          && (Key(l.name, l.architecture) in before ==> !before[Key(l.name, l.architecture)].installed))
    && (forall i, j :: 0 <= i < j < |lines| && lines[i].Inst? && lines[j].Inst? ==>
          || lines[i].name != lines[j].name || lines[i].version != lines[j].version
          || lines[i].architecture != lines[j].architecture)
  }

  ghost predicate SelectedBy(lines: seq<Line>, s: Selection) {
    exists i :: 0 <= i < |lines| && lines[i].Inst? && SelectionOf(lines[i]) == s
  }

  ghost predicate ConfiguredBy(lines: seq<Line>, s: Selection) {
    exists i :: 0 <= i < |lines| && lines[i].Conf? && SelectionOf(lines[i]) == s
  }

  /** `plan`: accepts exactly pure additions whose configured set is the installed set, and returns that set in order. */
  method Plan(lines: seq<Line>, before: Database, native: string)
    returns (r: Result<seq<Selection>, Refused>)
    ensures r.Success? <==>
      && LinesOk(lines, before, native)
      && (forall s :: SelectedBy(lines, s) <==> ConfiguredBy(lines, s))
    ensures r.Success? ==> Ascending(r.value) && forall s :: s in r.value <==> SelectedBy(lines, s)
  {
    var selected: seq<Selection>, configured: set<Selection> := [], {};
    for i := 0 to |lines|
      invariant LinesOk(lines[..i], before, native) && Ascending(selected)
      invariant forall s :: s in selected <==> SelectedBy(lines[..i], s)
      invariant forall s :: s in configured <==> ConfiguredBy(lines[..i], s)
    {
      var l := lines[i];
      assert lines[..i + 1] == lines[..i] + [l];
      Extended(lines[..i], l);
      if l.Removes? || l.Unrecognized? {
        return Failure(Refused.Refused);
      }
      if l.Conf? {
        configured := configured + {SelectionOf(l)};
      } else if l.Inst? {
        if !Admissible(l, before, native) || SelectionOf(l) in selected {
          return Failure(Refused.Refused);
        }
        InsertAscends(selected, SelectionOf(l));
        selected := Insert(selected, SelectionOf(l));
      }
    }
    assert lines[..|lines|] == lines;
    if configured != Elements(selected) {
      assert exists s :: (s in configured) != (s in selected);
      return Failure(Refused.Refused);
    }
    assert forall s :: s in configured <==> s in Elements(selected);
    return Success(selected);
  }

  lemma Extended(lines: seq<Line>, l: Line)
    ensures forall s :: SelectedBy(lines + [l], s) <==> SelectedBy(lines, s) || (l.Inst? && SelectionOf(l) == s)
    ensures forall s :: ConfiguredBy(lines + [l], s) <==> ConfiguredBy(lines, s) || (l.Conf? && SelectionOf(l) == s)
  {
    var t := lines + [l];
    forall s | SelectedBy(lines, s) ensures SelectedBy(t, s) {
      var i :| 0 <= i < |lines| && lines[i].Inst? && SelectionOf(lines[i]) == s;
      assert t[i] == lines[i];
    }
    forall s | ConfiguredBy(lines, s) ensures ConfiguredBy(t, s) {
      var i :| 0 <= i < |lines| && lines[i].Conf? && SelectionOf(lines[i]) == s;
      assert t[i] == lines[i];
    }
    assert t[|lines|] == l;
  }

  // ----- binding to the trusted index

  function Shas(packages: seq<Package>): seq<string> {
    seq(|packages|, i requires 0 <= i < |packages| => packages[i].sha)
  }

  function Selections(packages: seq<Package>): seq<Selection> {
    seq(|packages|, i requires 0 <= i < |packages| => packages[i].selection)
  }

  /** A trusted index record of a selection: digest, size as text, and where the archive lies. */
  datatype IndexRecord = IndexRecord(sha: string, size: string, filename: string)

  type Index = Selection -> set<IndexRecord>

  /** Every trusted record of the selection gives this one digest and size, and a file name. */
  ghost predicate Identified(records: set<IndexRecord>, p: Package) {
    && records != {} && ValidSha(p.sha)
    && (forall r :: r in records ==> r.sha == p.sha && Digits(r.size) && Value(r.size) == p.size && r.filename != "")
    && (forall r, q :: r in records && q in records ==> r.size == q.size)
  }

  /** The same digest and size text, with a file name. */
  predicate SameIdentity(q: IndexRecord, r: IndexRecord) {
    q.sha == r.sha && q.size == r.size && q.filename != ""
  }

  predicate SharesFile(a: set<IndexRecord>, b: set<IndexRecord>) {
    exists r, q :: r in a && q in b && r.filename == q.filename
  }

  predicate FilesApart(selections: seq<Selection>, index: Index) {
    forall i, j :: 0 <= i < j < |selections| ==> !SharesFile(index(selections[i]), index(selections[j]))
  }

  ghost predicate BoundTo(packages: seq<Package>, selections: seq<Selection>, index: Index) {
    && Selections(packages) == selections && Distinct(Shas(packages))
    && (forall i, j, r, q :: 0 <= i < j < |selections| && r in index(selections[i]) && q in index(selections[j]) ==>
          r.filename != q.filename)
    && (forall i :: 0 <= i < |packages| ==> Identified(index(packages[i].selection), packages[i]))
  }

  /** One selection bound to its one identity. */
  method Identify(selection: Selection, records: set<IndexRecord>) returns (p: Option<Package>)
    ensures p.Some? ==> p.value.selection == selection && Identified(records, p.value)
    ensures p.None? ==> forall q: Package :: !Identified(records, q)
  {
    if records == {} {
      return None;
    }
    var r :| r in records;
    if !ValidSha(r.sha) || !Digits(r.size) || exists q :: q in records && !SameIdentity(q, r) {
      return None;
    }
    return Some(Package(selection, r.sha, Value(r.size)));
  }

  /** `bind_to_trusted_index`: one identity each, no two alike, no file shared. */
  method Bind(selections: seq<Selection>, index: Index) returns (r: Result<seq<Package>, Refused>)
    ensures r.Success? ==> BoundTo(r.value, selections, index)
    ensures r.Failure? ==> forall packages: seq<Package> :: !BoundTo(packages, selections, index)
  {
    var bound: seq<Package> := [];
    for i := 0 to |selections|
      invariant |bound| == i && forall j :: 0 <= j < i ==>
        bound[j].selection == selections[j] && Identified(index(selections[j]), bound[j])
    {
      var p := Identify(selections[i], index(selections[i]));
      if p.None? {
        forall packages: seq<Package> ensures !BoundTo(packages, selections, index) {
          NotIdentified(packages, selections, index, i);
        }
        return Failure(Refused.Refused);
      }
      bound := bound + [p.value];
    }
    assert Selections(bound) == selections;
    if !Distinct(Shas(bound)) || !FilesApart(selections, index) {
      forall packages: seq<Package> | BoundTo(packages, selections, index) ensures packages == bound {
        BoundUnique(packages, bound, selections, index);
      }
      return Failure(Refused.Refused);
    }
    return Success(bound);
  }

  lemma NotIdentified(packages: seq<Package>, selections: seq<Selection>, index: Index, i: nat)
    requires i < |selections| && forall q: Package :: !Identified(index(selections[i]), q)
    ensures !BoundTo(packages, selections, index)
  {
    if Selections(packages) == selections {
      assert Selections(packages)[i] == packages[i].selection;
    }
  }

  lemma BoundUnique(a: seq<Package>, b: seq<Package>, selections: seq<Selection>, index: Index)
    requires BoundTo(a, selections, index) && Selections(b) == selections
    requires forall j :: 0 <= j < |b| ==> Identified(index(b[j].selection), b[j])
    ensures a == b
  {
    assert |a| == |Selections(a)| == |b|;
    forall j | 0 <= j < |a| ensures a[j] == b[j] {
      assert Selections(a)[j] == Selections(b)[j];
      var r :| r in index(a[j].selection);
      assert r.sha == a[j].sha == b[j].sha;
    }
  }

  // ----- verifying archives

  datatype File = File(name: string, data: string)

  /** What reads a file's identity: its digest, and the control fields dpkg-deb prints (None when it fails). */
  datatype Inspector = Inspector(digest: string -> string, control: File -> Option<Selection>)

  ghost predicate Matches(f: File, p: Package, tool: Inspector) {
    tool.digest(f.data) == p.sha && |f.data| == p.size && tool.control(f) == Some(p.selection)
  }

  ghost predicate Matched(f: File, packages: seq<Package>, tool: Inspector) {
    exists j :: 0 <= j < |packages| && Matches(f, packages[j], tool)
  }

  ghost predicate Present(p: Package, files: seq<File>, tool: Inspector) {
    exists i :: 0 <= i < |files| && Matches(files[i], p, tool)
  }

  /** Each file matches exactly one entry and each entry exactly one file. */
  ghost predicate Bijection(files: seq<File>, packages: seq<Package>, tool: Inspector) {
    && (forall i :: 0 <= i < |files| ==> Matched(files[i], packages, tool))
    && (forall j :: 0 <= j < |packages| ==> Present(packages[j], files, tool))
    && (forall i, i2, j :: 0 <= i < i2 < |files| && 0 <= j < |packages| && Matches(files[i], packages[j], tool) ==>
          !Matches(files[i2], packages[j], tool))
    && (forall i, j, j2 :: 0 <= i < |files| && 0 <= j < j2 < |packages| && Matches(files[i], packages[j], tool) ==>
          !Matches(files[i], packages[j2], tool))
  }

  /** The manifest entry with a given digest. */
  function Lookup(packages: seq<Package>, sha: string): (r: Option<Package>)
    ensures r.Some? ==> r.value in packages && r.value.sha == sha
    ensures r.None? ==> forall p :: p in packages ==> p.sha != sha
  {
    if packages == [] then None
    else if packages[0].sha == sha then Some(packages[0])
    else Lookup(packages[1..], sha)
  }

  predicate FileOk(f: File, packages: seq<Package>, tool: Inspector) {
    var p := Lookup(packages, tool.digest(f.data));
    p.Some? && p.value.size == |f.data| && tool.control(f) == Some(p.value.selection)
  }

  function Digests(files: seq<File>, tool: Inspector): seq<string> {
    seq(|files|, i requires 0 <= i < |files| => tool.digest(files[i].data))
  }

  lemma SameSha(packages: seq<Package>, i: nat, j: nat)
    requires i < |packages| && j < |packages| && packages[i].sha == packages[j].sha && Distinct(Shas(packages))
    ensures i == j
  {
    assert Shas(packages)[i] == Shas(packages)[j];
  }

  /** With distinct digests in the manifest, a file matches an entry exactly when it passes the checks by digest. */
  lemma FileOkIff(f: File, packages: seq<Package>, tool: Inspector)
    requires Distinct(Shas(packages))
    ensures FileOk(f, packages, tool) <==> Matched(f, packages, tool)
  {
    var p := Lookup(packages, tool.digest(f.data));
    if FileOk(f, packages, tool) {
      var j :| 0 <= j < |packages| && packages[j] == p.value;
      assert Matches(f, packages[j], tool);
    } else if Matched(f, packages, tool) {
      var j :| 0 <= j < |packages| && Matches(f, packages[j], tool);
      assert packages[j] in packages;
      var k :| 0 <= k < |packages| && packages[k] == p.value;
      SameSha(packages, j, k);
    }
  }

  /** Checked file by file, without repeats and without gaps: that is a bijection. */
  lemma ChecksGiveBijection(files: seq<File>, packages: seq<Package>, tool: Inspector)
    requires Distinct(Shas(packages)) && Distinct(Digests(files, tool))
    requires forall i :: 0 <= i < |files| ==> FileOk(files[i], packages, tool)
    requires forall d :: d in Shas(packages) ==> d in Digests(files, tool)
    ensures Bijection(files, packages, tool)
  {
    forall i | 0 <= i < |files| ensures Matched(files[i], packages, tool) {
      FileOkIff(files[i], packages, tool);
    }
    forall j | 0 <= j < |packages| ensures Present(packages[j], files, tool) {
      assert Shas(packages)[j] in Digests(files, tool);
      var i :| 0 <= i < |files| && Digests(files, tool)[i] == packages[j].sha;
      var p := Lookup(packages, packages[j].sha).value;
      var k :| 0 <= k < |packages| && packages[k] == p;
      SameSha(packages, j, k);
      assert Matches(files[i], packages[j], tool);
    }
    forall i, i2, j | 0 <= i < i2 < |files| && 0 <= j < |packages| && Matches(files[i], packages[j], tool)
      ensures !Matches(files[i2], packages[j], tool)
    {
      assert Digests(files, tool)[i] != Digests(files, tool)[i2];
    }
    forall i, j, j2 | 0 <= i < |files| && 0 <= j < j2 < |packages| && Matches(files[i], packages[j], tool)
      ensures !Matches(files[i], packages[j2], tool)
    {
      assert Shas(packages)[j] != Shas(packages)[j2];
    }
  }

  lemma DigestsDiffer(files: seq<File>, packages: seq<Package>, tool: Inspector, i: nat, i2: nat)
    requires Distinct(Shas(packages)) && Bijection(files, packages, tool) && i < i2 < |files|
    ensures tool.digest(files[i].data) != tool.digest(files[i2].data)
  {
    assert Matched(files[i], packages, tool) && Matched(files[i2], packages, tool);
    var j :| 0 <= j < |packages| && Matches(files[i], packages[j], tool);
    var j2 :| 0 <= j2 < |packages| && Matches(files[i2], packages[j2], tool);
    if packages[j].sha == packages[j2].sha {
      SameSha(packages, j, j2);
    }
  }

  lemma DigestsDistinct(files: seq<File>, packages: seq<Package>, tool: Inspector)
    requires Distinct(Shas(packages)) && Bijection(files, packages, tool)
    ensures Distinct(Digests(files, tool))
  {
    forall i, i2 | 0 <= i < i2 < |files| ensures Digests(files, tool)[i] != Digests(files, tool)[i2] {
      DigestsDiffer(files, packages, tool, i, i2);
    }
  }

  /** And a bijection passes every check. */
  lemma BijectionChecks(files: seq<File>, packages: seq<Package>, tool: Inspector)
    requires Distinct(Shas(packages)) && Bijection(files, packages, tool)
    ensures forall i :: 0 <= i < |files| ==> FileOk(files[i], packages, tool)
    ensures Distinct(Digests(files, tool))
    ensures forall d :: d in Shas(packages) ==> d in Digests(files, tool)
  {
    forall i | 0 <= i < |files| ensures FileOk(files[i], packages, tool) {
      FileOkIff(files[i], packages, tool);
    }
    DigestsDistinct(files, packages, tool);
    forall d | d in Shas(packages) ensures d in Digests(files, tool) {
      var j :| 0 <= j < |packages| && Shas(packages)[j] == d;
      PresentDigest(packages[j], files, tool);
    }
  }

  lemma PresentDigest(p: Package, files: seq<File>, tool: Inspector)
    requires Present(p, files, tool)
    ensures p.sha in Digests(files, tool)
  {
    var i :| 0 <= i < |files| && Matches(files[i], p, tool);
    assert Digests(files, tool)[i] == p.sha;
  }

  /** The loop over the cached files. */
  method CheckFiles(files: seq<File>, packages: seq<Package>, tool: Inspector) returns (r: Option<map<string, string>>)
    ensures r.Some? <==>
      && Distinct(Digests(files, tool))
      && (forall i :: 0 <= i < |files| ==> FileOk(files[i], packages, tool))
    ensures r.Some? ==> forall d :: d in r.value <==> d in Digests(files, tool)
    ensures r.Some? ==> forall i :: 0 <= i < |files| ==>
      Digests(files, tool)[i] in r.value && r.value[Digests(files, tool)[i]] == files[i].name
  {
    var observed: map<string, string> := map[];
    ghost var digests := Digests(files, tool);
    for i := 0 to |files|
      invariant forall k :: 0 <= k < i ==> FileOk(files[k], packages, tool)
      invariant Distinct(digests[..i])
      invariant forall k :: 0 <= k < i ==> digests[k] in observed && observed[digests[k]] == files[k].name
      invariant forall d :: d in observed ==> d in digests[..i]
    {
      var digest := tool.digest(files[i].data);
      assert digests[..i + 1] == digests[..i] + [digest];
      if !FileOk(files[i], packages, tool) || digest in observed {
        assert digests[i] == digest;
        assert digest in observed ==> exists k :: 0 <= k < i && digests[k] == digest;
        return None;
      }
      observed := observed[digest := files[i].name];
    }
    assert digests[..|files|] == digests;
    return Some(observed);
  }

  /** `verify_archives`: success exactly on a bijection with a manifest of distinct digests. */
  method VerifyArchives(files: seq<File>, packages: seq<Package>, tool: Inspector)
    returns (r: Result<map<string, string>, Refused>)
    ensures r.Success? <==> Distinct(Shas(packages)) && Bijection(files, packages, tool)
    ensures r.Success? ==> forall d :: d in r.value <==> d in Digests(files, tool)
    ensures r.Success? ==> forall i :: 0 <= i < |files| ==>
      Digests(files, tool)[i] in r.value && r.value[Digests(files, tool)[i]] == files[i].name
  {
    if !Distinct(Shas(packages)) {
      return Failure(Refused.Refused);
    }
    var observed := CheckFiles(files, packages, tool);
    var complete := observed.Some? && forall d :: d in Shas(packages) ==> d in observed.value;
    VerdictIff(files, packages, tool, complete);
    return if complete then Success(observed.value) else Failure(Refused.Refused);
  }

  lemma VerdictIff(files: seq<File>, packages: seq<Package>, tool: Inspector, complete: bool)
    requires Distinct(Shas(packages))
    requires complete <==>
      && Distinct(Digests(files, tool)) && (forall i :: 0 <= i < |files| ==> FileOk(files[i], packages, tool))
      && (forall d :: d in Shas(packages) ==> d in Digests(files, tool))
    ensures complete <==> Bijection(files, packages, tool)
  {
    if complete {
      ChecksGiveBijection(files, packages, tool);
    } else if Bijection(files, packages, tool) {
      BijectionChecks(files, packages, tool);
    }
  }

  // ----- the installation

  /** The version of each installed row. */
  function Versions(db: Database): map<Key, string> {
    map k | k in db && db[k].installed :: db[k].version
  }

  /** `_changes`: installed rows whose version differs afterwards, and rows newly installed. */
  function Changed(before: Database, after: Database): set<Key> {
    set k | k in Versions(before) && (k !in Versions(after) || Versions(after)[k] != Versions(before)[k])
  }

  function Added(before: Database, after: Database): map<Key, string> {
    map k | k in Versions(after) && k !in Versions(before) :: Versions(after)[k]
  }

  /** The dictionary of expected additions: of two selections with one key, the later one stays. */
  function Expected(packages: seq<Package>): map<Key, string> {
    if packages == [] then map[]
    else
      var last := packages[|packages| - 1];
      Expected(packages[..|packages| - 1])[KeyOf(last.selection) := last.selection.version]
  }

  /** Everything the package manager and the disk answer; None is a command that failed. */
  datatype World = World(
    cacheEmpty: bool, updated: bool, native: Option<string>, before: Option<Database>,
    simulation: Option<seq<Line>>, index: Index, downloaded: bool, cached: seq<File>, recached: seq<File>,
    rechecked: Option<Database>, installed: bool, marked: bool, after: Option<Database>,
    tool: Inspector)

  /** The rows of a name that are installed. */
  function InstalledRows(db: Database, name: string): set<Key> {
    set k | k in db && db[k].installed && k.name == name
  }

  /** Every requested name is installed already or among the selections. */
  predicate Provides(names: set<string>, before: Database, selections: seq<Selection>) {
    forall n :: n in names ==> InstalledRows(before, n) != {} || exists i :: 0 <= i < |selections| && selections[i].name == n
  }

  /** The same archive names under the same digests. */
  ghost predicate SameArchives(files: seq<File>, again: seq<File>, tool: Inspector) {
    && (forall d :: d in Digests(files, tool) <==> d in Digests(again, tool))
    && (forall i, j :: 0 <= i < |files| && 0 <= j < |again| && tool.digest(files[i].data) == tool.digest(again[j].data) ==>
          files[i].name == again[j].name)
  }

  /** No requested name is installed for two architectures. */
  ghost predicate OneRowEach(names: set<string>, db: Database) {
    forall k, l :: k in db && l in db && db[k].installed && db[l].installed && k.name == l.name && k.name in names ==> k == l
  }

  /** Every requested name is installed already or selected now. */
  ghost predicate AllProvided(names: set<string>, db: Database, selections: seq<Selection>) {
    forall n :: n in names ==> (exists k :: InstalledIn(db, k) && k.name == n) || exists s :: s in selections && s.name == n
  }

  /** The selections that the checks before any download accept. */
  ghost predicate Resolved(names: set<string>, w: World, selections: seq<Selection>) {
    && names != {} && (forall n :: n in names ==> ValidName(n)) && w.cacheEmpty && w.updated
    && w.native.Some? && ValidArchitecture(w.native.value) && w.before.Some? && w.simulation.Some?
    && OneRowEach(names, w.before.value)
    && LinesOk(w.simulation.value, w.before.value, w.native.value)
    && (forall s :: SelectedBy(w.simulation.value, s) <==> ConfiguredBy(w.simulation.value, s))
    && Ascending(selections) && (forall s :: s in selections <==> SelectedBy(w.simulation.value, s))
    && AllProvided(names, w.before.value, selections)
  }

  lemma RowsMean(names: set<string>, db: Database)
    ensures (exists n :: n in names && |InstalledRows(db, n)| > 1) <==> !OneRowEach(names, db)
  {
    forall n | n in names
      ensures |InstalledRows(db, n)| > 1 <==>
              exists k, l :: k in db && l in db && db[k].installed && db[l].installed && k.name == l.name == n && k != l
    {
      var rows := InstalledRows(db, n);
      if |rows| > 1 {
        var k :| k in rows;
        assert |rows - {k}| == |rows| - 1;
        var l :| l in rows - {k};
        assert k.name == l.name == n;
      }
      if k, l :| k in db && l in db && db[k].installed && db[l].installed && k.name == l.name == n && k != l {
        assert {k, l} <= rows;
        MoreThanOne(rows, k, l);
      }
    }
  }

  lemma MoreThanOne<T>(s: set<T>, a: T, b: T)
    requires a in s && b in s && a != b
    ensures |s| > 1
  {
    assert s == (s - {a}) + {a};
    assert b in s - {a};
    assert |s - {a}| > 0;
  }

  lemma ProvidedMeans(names: set<string>, db: Database, selections: seq<Selection>)
    ensures Provides(names, db, selections) <==> AllProvided(names, db, selections)
  {
    forall n ensures InstalledRows(db, n) != {} <==> exists k :: InstalledIn(db, k) && k.name == n {
      if k :| InstalledIn(db, k) && k.name == n {
        assert k in InstalledRows(db, n);
      }
      if InstalledRows(db, n) != {} {
        var k :| k in InstalledRows(db, n);
        assert InstalledIn(db, k);
      }
    }
    forall s | s in selections ensures exists i :: 0 <= i < |selections| && selections[i].name == s.name {
      var i :| 0 <= i < |selections| && selections[i] == s;
    }
  }

  predicate NeedsMark(names: set<string>, packages: seq<Package>) {
    exists i :: 0 <= i < |packages| && packages[i].selection.name !in names
  }

  /** A row newly installed at a version. */
  predicate NewlyInstalled(before: Database, after: Database, k: Key, version: string) {
    InstalledIn(after, k) && !InstalledIn(before, k) && after[k].version == version
  }

  lemma AddedMeans(before: Database, after: Database, k: Key, v: string)
    ensures NewlyInstalled(before, after, k, v) <==> k in Added(before, after) && Added(before, after)[k] == v
  {
  }

  /** The last bound selection of a key has this version. */
  ghost predicate LastBound(packages: seq<Package>, k: Key, version: string) {
    exists i :: 0 <= i < |packages| && KeyOf(packages[i].selection) == k && packages[i].selection.version == version &&
                forall j :: i < j < |packages| ==> KeyOf(packages[j].selection) != k
  }

  /** What was installed stays as it was, and exactly the last selection of each key is newly installed. */
  ghost predicate GrewBy(before: Database, after: Database, packages: seq<Package>) {
    && (forall k :: InstalledIn(before, k) ==> InstalledIn(after, k) && after[k].version == before[k].version)
    && (forall k, v :: NewlyInstalled(before, after, k, v) <==> LastBound(packages, k, v))
  }

  /** A complete, proved transaction. */
  ghost predicate Accepted(names: set<string>, w: World, packages: seq<Package>) {
    && Resolved(names, w, Selections(packages))
    && (packages != [] ==>
          && BoundTo(packages, Selections(packages), w.index) && w.downloaded
          && Bijection(w.cached, packages, w.tool) && Bijection(w.recached, packages, w.tool)
          && SameArchives(w.cached, w.recached, w.tool) && w.rechecked == w.before && w.installed
          && ((exists p :: p in packages && p.selection.name !in names) ==> w.marked)
          && w.after.Some? && GrewBy(w.before.value, w.after.value, packages))
  }

  lemma MarkMeans(names: set<string>, packages: seq<Package>)
    ensures NeedsMark(names, packages) <==> exists p :: p in packages && p.selection.name !in names
  {
    if p :| p in packages && p.selection.name !in names {
      var i :| 0 <= i < |packages| && packages[i] == p;
    }
  }

  lemma {:induction false} ExpectedIsLast(packages: seq<Package>, k: Key, v: string)
    ensures k in Expected(packages) && Expected(packages)[k] == v <==> LastBound(packages, k, v)
    decreases |packages|
  {
    if packages != [] {
      var rest, last := packages[..|packages| - 1], packages[|packages| - 1];
      ExpectedIsLast(rest, k, v);
      assert forall i :: 0 <= i < |rest| ==> rest[i] == packages[i];
      if KeyOf(last.selection) == k {
        assert last.selection.version == v ==> LastBound(packages, k, v);
      } else if LastBound(rest, k, v) {
        var i :| 0 <= i < |rest| && KeyOf(rest[i].selection) == k && rest[i].selection.version == v &&
                 forall j :: i < j < |rest| ==> KeyOf(rest[j].selection) != k;
        assert packages[i] == rest[i];
      }
    }
  }

  /** The comparison of databases is exactly that. */
  lemma GrowthMeans(before: Database, after: Database, packages: seq<Package>)
    ensures Changed(before, after) == {} && Added(before, after) == Expected(packages) <==> GrewBy(before, after, packages)
  {
    ChangedMeans(before, after);
    AddedIsExpected(before, after, packages);
  }

  lemma ChangedMeans(before: Database, after: Database)
    ensures Changed(before, after) == {} <==>
            forall k :: InstalledIn(before, k) ==> InstalledIn(after, k) && after[k].version == before[k].version
  {
    forall k ensures k in Changed(before, after) <==>
                     InstalledIn(before, k) && !(InstalledIn(after, k) && after[k].version == before[k].version) {
      assert k in Versions(before) <==> InstalledIn(before, k);
    }
  }

  lemma AddedIsExpected(before: Database, after: Database, packages: seq<Package>)
    ensures Added(before, after) == Expected(packages) <==>
            forall k, v :: NewlyInstalled(before, after, k, v) <==> LastBound(packages, k, v)
  {
    forall k, v
      ensures NewlyInstalled(before, after, k, v) <==> k in Added(before, after) && Added(before, after)[k] == v
      ensures k in Expected(packages) && Expected(packages)[k] == v <==> LastBound(packages, k, v)
    {
      AddedMeans(before, after, k, v);
      ExpectedIsLast(packages, k, v);
    }
    var a, e := Added(before, after), Expected(packages);
    if forall k, v :: NewlyInstalled(before, after, k, v) <==> LastBound(packages, k, v) {
      forall k ensures k in a <==> k in e {
        assert k in a ==> NewlyInstalled(before, after, k, a[k]);
        assert k in e ==> LastBound(packages, k, e[k]);
      }
      forall k | k in a ensures a[k] == e[k] {
        assert NewlyInstalled(before, after, k, a[k]);
      }
    }
  }

  /** What is to be installed, nothing if nothing is missing. */
  method Resolve(names: set<string>, w: World) returns (r: Result<seq<Selection>, Refused>)
    ensures r.Success? ==> Resolved(names, w, r.value)
    ensures r.Failure? ==> forall s :: !Resolved(names, w, s)
  {
    if names == {} || (exists n :: n in names && !ValidName(n)) || !w.cacheEmpty || !w.updated
       || w.native.None? || !ValidArchitecture(w.native.value) || w.before.None? || w.simulation.None? {
      return Failure(Refused.Refused);
    }
    RowsMean(names, w.before.value);
    if exists n :: n in names && |InstalledRows(w.before.value, n)| > 1 {
      return Failure(Refused.Refused);
    }
    var plan := Plan(w.simulation.value, w.before.value, w.native.value);
    if plan.Failure? {
      return plan;
    }
    ProvidedMeans(names, w.before.value, plan.value);
    if !Provides(names, w.before.value, plan.value) {
      forall s | Resolved(names, w, s) ensures s == plan.value {
        AscendingUnique(s, plan.value);
      }
      return Failure(Refused.Refused);
    }
    return plan;
  }

  lemma {:induction false} AscendingUnique(a: seq<Selection>, b: seq<Selection>)
    requires Ascending(a) && Ascending(b) && forall s :: s in a <==> s in b
    ensures a == b
    decreases |a|
  {
    assert (a != [] ==> a[0] in a) && (b != [] ==> b[0] in b);
    if a != [] && b != [] {
      AscendingDistinct(a);
      AscendingDistinct(b);
      assert a == [a[0]] + a[1..] && b == [b[0]] + b[1..];
      assert a[0] in a && b[0] in b;
      if a[0] != b[0] {
        LessTransitive(a[0], b[0], a[0]);
        LessOrder(a[0], a[0]);
      } else {
        LessOrder(a[0], a[0]);
        assert a[0] !in a[1..] && b[0] !in b[1..];
        forall s ensures s in a[1..] <==> s in b[1..] {
          assert s in a <==> s == a[0] || s in a[1..];
          assert s in b <==> s == b[0] || s in b[1..];
        }
        AscendingUnique(a[1..], b[1..]);
      }
    }
  }

  /** The archives verified twice, with the same names both times. */
  method VerifyTwice(w: World, packages: seq<Package>) returns (ok: bool)
    requires Distinct(Shas(packages))
    ensures ok <==> Bijection(w.cached, packages, w.tool) && Bijection(w.recached, packages, w.tool)
                    && SameArchives(w.cached, w.recached, w.tool)
  {
    var archives := VerifyArchives(w.cached, packages, w.tool);
    if archives.Failure? {
      return false;
    }
    var again := VerifyArchives(w.recached, packages, w.tool);
    if again.Failure? {
      return false;
    }
    SameMaps(w.cached, w.recached, w.tool, archives.value, again.value);
    return archives == again;
  }

  lemma SameMaps(files: seq<File>, files2: seq<File>, tool: Inspector, a: map<string, string>, b: map<string, string>)
    requires forall d :: d in a <==> d in Digests(files, tool)
    requires forall d :: d in b <==> d in Digests(files2, tool)
    requires forall i :: 0 <= i < |files| ==> Digests(files, tool)[i] in a && a[Digests(files, tool)[i]] == files[i].name
    requires forall i :: 0 <= i < |files2| ==>
      Digests(files2, tool)[i] in b && b[Digests(files2, tool)[i]] == files2[i].name
    ensures a == b <==> SameArchives(files, files2, tool)
  {
    if SameArchives(files, files2, tool) {
      forall d | d in a ensures d in b && a[d] == b[d] {
        var i :| 0 <= i < |files| && Digests(files, tool)[i] == d;
        var j :| 0 <= j < |files2| && Digests(files2, tool)[j] == d;
      }
    }
  }

  lemma AcceptedUnique(names: set<string>, w: World, selections: seq<Selection>, packages: seq<Package>)
    requires Resolved(names, w, selections) && Accepted(names, w, packages)
    ensures Selections(packages) == selections
  {
    AscendingUnique(selections, Selections(packages));
  }

  /** `install_prerequisites`: success exactly when some transaction is proved, which it returns. */
  method InstallPrerequisites(names: set<string>, w: World) returns (r: Result<seq<Package>, Refused>)
    ensures r.Success? ==> Accepted(names, w, r.value)
    ensures r.Failure? ==> forall packages: seq<Package> :: !Accepted(names, w, packages)
  {
    var selections := Resolve(names, w);
    if selections.Failure? {
      return Failure(Refused.Refused);
    }
    forall packages: seq<Package> | Accepted(names, w, packages) ensures Selections(packages) == selections.value {
      AcceptedUnique(names, w, selections.value, packages);
    }
    if selections.value == [] {
      assert Selections([]) == [];
      return Success([]);
    }
    var bound := Bind(selections.value, w.index);
    if bound.Failure? {
      return Failure(Refused.Refused);
    }
    forall packages: seq<Package> | Accepted(names, w, packages) ensures packages == bound.value {
      BoundUnique(packages, bound.value, selections.value, w.index);
    }
    MarkMeans(names, bound.value);
    if w.before.Some? && w.after.Some? {
      GrowthMeans(w.before.value, w.after.value, bound.value);
    }
    var ok := w.downloaded;
    if ok {
      ok := VerifyTwice(w, bound.value);
    }
    if !ok || w.rechecked != w.before || !w.installed || (NeedsMark(names, bound.value) && !w.marked) || w.after.None? {
      return Failure(Refused.Refused);
    }
    if Changed(w.before.value, w.after.value) != {}
       || Added(w.before.value, w.after.value) != Expected(bound.value) {
      return Failure(Refused.Refused);
    }
    return Success(bound.value);
  }

  // ----- exactly the bound selections

  ghost predicate Bound(packages: seq<Package>, k: Key, version: string) {
    exists i :: 0 <= i < |packages| && KeyOf(packages[i].selection) == k && packages[i].selection.version == version
  }

  ghost predicate AddsExactly(before: Database, after: Database, packages: seq<Package>) {
    forall k, v :: NewlyInstalled(before, after, k, v) <==> Bound(packages, k, v)
  }

  ghost predicate DistinctKeys(packages: seq<Package>) {
    forall i, j :: 0 <= i < j < |packages| ==> KeyOf(packages[i].selection) != KeyOf(packages[j].selection)
  }

  /**
   A successful installation adds exactly the bound selections if and only if no two of them share a
   name and architecture.
   */
  lemma InstallExactIff(names: set<string>, w: World, packages: seq<Package>)
    requires Accepted(names, w, packages) && packages != []
    ensures forall k :: InstalledIn(w.before.value, k) ==>
      InstalledIn(w.after.value, k) && w.after.value[k].version == w.before.value[k].version
    ensures AddsExactly(w.before.value, w.after.value, packages) <==> DistinctKeys(packages)
  {
    LastBoundIff(w.before.value, w.after.value, packages);
  }

  lemma LastBoundIff(before: Database, after: Database, packages: seq<Package>)
    requires Ascending(Selections(packages)) && GrewBy(before, after, packages)
    ensures AddsExactly(before, after, packages) <==> DistinctKeys(packages)
  {
    if DistinctKeys(packages) {
      forall k, v ensures LastBound(packages, k, v) <==> Bound(packages, k, v) {
        if Bound(packages, k, v) {
          var i :| 0 <= i < |packages| && KeyOf(packages[i].selection) == k && packages[i].selection.version == v;
          assert forall j :: i < j < |packages| ==> KeyOf(packages[j].selection) != k;
        }
      }
    } else {
      var i, j :| 0 <= i < j < |packages| && KeyOf(packages[i].selection) == KeyOf(packages[j].selection);
      SharedKey(before, after, packages, i, j);
    }
  }

  lemma SharedKey(before: Database, after: Database, packages: seq<Package>, i: nat, j: nat)
    requires i < j < |packages| && KeyOf(packages[i].selection) == KeyOf(packages[j].selection)
    requires Ascending(Selections(packages))
    ensures !AddsExactly(before, after, packages)
  {
    AscendingDistinct(Selections(packages));
    assert Selections(packages)[i] != Selections(packages)[j];
    var k := KeyOf(packages[i].selection);
    var v, u := packages[i].selection.version, packages[j].selection.version;
    assert Bound(packages, k, v) && Bound(packages, k, u);
    assert !(NewlyInstalled(before, after, k, v) && NewlyInstalled(before, after, k, u));
  }

  // ----- two versions of one package

  const OLD := Selection("libfoo", "1", "all")
  const NEW := Selection("libfoo", "2", "all")
  const OLD_SHA: string := seq(64, _ => 'a')
  const NEW_SHA: string := seq(64, _ => 'b')
  const FOO := Key("libfoo", "all")
  const BASE := Key("base-files", "all")
  const BASE_ROW := Row("1", true, "base-files", "1")

  /** A package manager that plans both versions and installs the second. */
  const TWO_VERSIONS := World(
    true, true, Some("amd64"), Some(map[BASE := BASE_ROW]),
    Some([Inst("libfoo", None, "1", "all"), Inst("libfoo", None, "2", "all"),
          Conf("libfoo", "1", "all"), Conf("libfoo", "2", "all")]),
    (s: Selection) => {IndexRecord(if s == OLD then OLD_SHA else NEW_SHA, "1", s.version)}, true,
    [File("f", "x"), File("g", "y")], [File("f", "x"), File("g", "y")],
    Some(map[BASE := BASE_ROW]), true, true,
    Some(map[BASE := BASE_ROW, FOO := Row("2", true, "libfoo", "2")]),
    Inspector((d: string) => if d == "x" then OLD_SHA else NEW_SHA,
              (f: File) => Some(if f.data == "x" then OLD else NEW)))

  const BOTH := [Package(OLD, OLD_SHA, 1), Package(NEW, NEW_SHA, 1)]

  /** The names, versions and digests are ones the source admits. */
  lemma BothWellFormed()
    ensures ValidName("libfoo") && ValidVersion("1") && ValidVersion("2") && ValidArchitecture("amd64")
    ensures ValidSha(OLD_SHA) && ValidSha(NEW_SHA) && OLD_SHA != NEW_SHA && OLD != NEW
  {
    assert OLD_SHA[0] != NEW_SHA[0] && "1"[0] != "2"[0];
  }

  lemma BothPlanned()
    ensures LinesOk(TWO_VERSIONS.simulation.value, TWO_VERSIONS.before.value, "amd64")
    ensures forall s :: SelectedBy(TWO_VERSIONS.simulation.value, s) <==> s == OLD || s == NEW
    ensures forall s :: ConfiguredBy(TWO_VERSIONS.simulation.value, s) <==> s == OLD || s == NEW
  {
    BothWellFormed();
    var lines := TWO_VERSIONS.simulation.value;
    assert |"libfoo"| != |"base-files"|;
    forall s ensures SelectedBy(lines, s) <==> s == OLD || s == NEW {
      assert lines[0].Inst? && lines[1].Inst? && SelectionOf(lines[0]) == OLD && SelectionOf(lines[1]) == NEW;
    }
    forall s ensures ConfiguredBy(lines, s) <==> s == OLD || s == NEW {
      assert lines[2].Conf? && lines[3].Conf? && SelectionOf(lines[2]) == OLD && SelectionOf(lines[3]) == NEW;
    }
  }

  lemma BothResolved()
    ensures Resolved({"libfoo"}, TWO_VERSIONS, Selections(BOTH))
  {
    BothWellFormed();
    BothPlanned();
    assert Selections(BOTH) == [OLD, NEW];
    assert Less(OLD, NEW) by {
      assert StringLess("1", "2");
    }
    assert Ascending([OLD, NEW]) by {
      assert [OLD, NEW][1..] == [NEW];
    }
    assert |"libfoo"| != |"base-files"|;
    assert InstalledRows(TWO_VERSIONS.before.value, "libfoo") == {};
    assert Selections(BOTH)[0].name == "libfoo";
  }

  lemma BothArchived()
    ensures Distinct(Shas(BOTH)) && Bijection(TWO_VERSIONS.cached, BOTH, TWO_VERSIONS.tool)
  {
    BothWellFormed();
    var files, tool := TWO_VERSIONS.cached, TWO_VERSIONS.tool;
    assert "x"[0] != "y"[0];
    assert Shas(BOTH) == [OLD_SHA, NEW_SHA];
    assert Digests(files, tool) == [OLD_SHA, NEW_SHA];
    assert Lookup(BOTH, OLD_SHA) == Some(BOTH[0]);
    assert Lookup(BOTH, NEW_SHA) == Some(BOTH[1]) by {
      assert BOTH[1..][0] == BOTH[1];
    }
    ChecksGiveBijection(files, BOTH, tool);
  }

  lemma SecondVersionAdded()
    ensures Expected(BOTH) == map[FOO := "2"]
    ensures Added(TWO_VERSIONS.before.value, TWO_VERSIONS.after.value) == map[FOO := "2"]
    ensures Changed(TWO_VERSIONS.before.value, TWO_VERSIONS.after.value) == {}
  {
    assert FOO != BASE by {
      assert |"libfoo"| != |"base-files"|;
    }
    assert BOTH[..1] == [BOTH[0]] && BOTH[..1][..0] == [];
    assert Expected(BOTH[..1]) == map[FOO := "1"];
  }

  lemma OneRecordIdentifies(selection: Selection, sha: string, filename: string)
    requires ValidSha(sha) && filename != ""
    ensures Identified({IndexRecord(sha, "1", filename)}, Package(selection, sha, 1))
  {
    assert Value("1") == 1 by {
      assert "1"[..0] == "";
    }
  }

  lemma PairBound(p: Package, q: Package, index: Index)
    requires Identified(index(p.selection), p) && Identified(index(q.selection), q) && p.sha != q.sha
    requires !SharesFile(index(p.selection), index(q.selection))
    ensures BoundTo([p, q], Selections([p, q]), index)
  {
    assert Selections([p, q]) == [p.selection, q.selection] && Shas([p, q]) == [p.sha, q.sha];
  }

  lemma BothBound()
    ensures BoundTo(BOTH, Selections(BOTH), TWO_VERSIONS.index)
  {
    BothWellFormed();
    OneRecordIdentifies(OLD, OLD_SHA, "1");
    OneRecordIdentifies(NEW, NEW_SHA, "2");
    assert "1"[0] != "2"[0];
    PairBound(BOTH[0], BOTH[1], TWO_VERSIONS.index);
  }

  lemma SameAsItself(files: seq<File>, packages: seq<Package>, tool: Inspector)
    requires Distinct(Shas(packages)) && Bijection(files, packages, tool)
    ensures SameArchives(files, files, tool)
  {
    BijectionChecks(files, packages, tool);
  }

  lemma BothAccepted()
    ensures Accepted({"libfoo"}, TWO_VERSIONS, BOTH)
  {
    BothResolved();
    BothArchived();
    BothBound();
    SameAsItself(TWO_VERSIONS.cached, BOTH, TWO_VERSIONS.tool);
    SecondVersionAdded();
    GrowthMeans(TWO_VERSIONS.before.value, TWO_VERSIONS.after.value, BOTH);
  }

  /** The installation succeeds, yet only one of the two bound selections was added. */
  lemma OneOfTwoVersionsAdded()
    ensures Accepted({"libfoo"}, TWO_VERSIONS, BOTH)
    ensures !AddsExactly(TWO_VERSIONS.before.value, TWO_VERSIONS.after.value, BOTH)
  {
    BothAccepted();
    InstallExactIff({"libfoo"}, TWO_VERSIONS, BOTH);
    assert KeyOf(BOTH[0].selection) == KeyOf(BOTH[1].selection);
  }
}
