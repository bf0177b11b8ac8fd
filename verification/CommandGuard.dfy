/**
 The command guard of the libpq probe (tools/d12_libpq_runtime_probe.py, `Guard`): the only runner
 the hash-bound helper is given. An arbitrary caller may call it with any argument vector and may
 set the held pins and the baseline between calls. `log` holds what was really dispatched.
 */
module CommandGuard {
  import opened Wrappers
  import opened Sequences
  import opened Strings

  datatype Step = Update | Simulate | Download | Install | Mark

  const ORDER := [Update, Simulate, Download, Install, Mark]

  /** A row of the resolved builder table or of the frozen manifest. */
  datatype Row = Row(name: string, version: string, architecture: string, sha: string)

  datatype Installed = Installed(name: string, architecture: string, version: string, status: string,
                                 source: string, sourceVersion: string)

  datatype Inputs = Inputs(table: seq<Row>, libpqVersion: string, architecture: string, schema: string,
                           cache: string, queryFormat: string)

  datatype Manifest = Manifest(schema: string, architecture: string, requested: seq<string>, packages: seq<Row>,
                               archives: Option<seq<string>>)

  datatype CachedFile = CachedFile(name: string, sha: string)

  /** What the gate reads before an install: None is a file or database that cannot be read. */
  datatype GateView = GateView(manifest: Option<Manifest>, current: Option<map<string, Installed>>,
                               files: seq<CachedFile>)

  /** A dispatched command: the holds and the baseline set at the time, what the gate could see, the exit code. */
  datatype Dispatch = Dispatch(step: Step, argv: seq<string>, held: seq<string>, before: map<string, Installed>,
                               gate: GateView, code: Option<int>)

  datatype State = State(held: seq<string>, before: map<string, Installed>, done: seq<Step>, pins: seq<string>,
                         manifest: Option<Manifest>, installed: bool, log: seq<Dispatch>)

  const INITIAL := State([], map[], [], [], None, false, [])

  // ----- the command shapes

  predicate Contains(s: string, part: string) {
    part <= s || (s != [] && Contains(s[1..], part))
  }

  function Stripped(head: string): string {
    if head != "" && head[|head| - 1] == '/' then Stripped(head[..|head| - 1]) else head
  }

  /** The part of a path up to its last slash. */
  function Head(path: string): string {
    if path == "" || path[|path| - 1] == '/' then path else Head(path[..|path| - 1])
  }

  function Directory(path: string): string {
    if Stripped(Head(path)) == "" then Head(path) else Stripped(Head(path))
  }

  predicate IsQuery(c: seq<string>, inputs: Inputs) {
    || c == ["dpkg", "--print-architecture"] || c == ["dpkg", "--verify", "libpq5"]
    || c == ["apt-get", "indextargets"] || c == ["dpkg-query", "-W", "-f=" + inputs.queryFormat]
    || (|c| == 3 && c[..2] == ["dpkg-query", "-S"] && "/" <= c[2])
    || (|c| == 3 && c[..2] == ["dpkg-query", "-L"] && c[2] in ["libssl3t64", "libc6"])
    || (|c| == 3 && c[..2] == ["/usr/lib/apt/apt-helper", "cat-file"] && "/var/lib/apt/lists/" <= c[2]
        && !Contains(c[2], "/.."))
    || (|c| == 6 && c[..2] == ["dpkg-deb", "--field"] && Directory(c[2]) == inputs.cache
        && c[3..] == ["Package", "Version", "Architecture"])
  }

  function InstallPrefix(inputs: Inputs): seq<string> {
    ["apt-get", "install", "--yes", "--no-install-recommends", "--no-remove", "-o",
     "Dir::Cache::Archives=" + inputs.cache + "/"]
  }

  /** The common shape of the download and the install: prefix, mode, held pins, pins. */
  predicate PinnedShape(c: seq<string>, held: seq<string>, inputs: Inputs) {
    |c| > 8 + |held| && c[..7] == InstallPrefix(inputs) && c[8..8 + |held|] == held
  }

  /** The argument vector of a download or an install. */
  function Vector(mode: string, held: seq<string>, pins: seq<string>, inputs: Inputs): seq<string> {
    InstallPrefix(inputs) + [mode] + held + pins
  }

  function PinsOf(c: seq<string>, held: seq<string>): seq<string> {
    if |c| > 8 + |held| then c[8 + |held|..] else []
  }

  function Pin(r: Row): string {
    r.name + "=" + r.version
  }

  function Pins(rows: seq<Row>): seq<string> {
    seq(|rows|, i requires 0 <= i < |rows| => Pin(rows[i]))
  }

  predicate InTable(pins: seq<string>, inputs: Inputs) {
    forall p :: p in pins ==> p in Pins(inputs.table)
  }

  const SIMULATION := ["apt-get", "install", "--simulate", "--no-install-recommends"]

  datatype Class = Query | Mutates(step: Step) | Outside

  function Classify(s: State, inputs: Inputs, c: seq<string>): Class {
    var pins := PinsOf(c, s.held);
    if IsQuery(c, inputs) then Query
    else if c == ["apt-get", "update"] then Mutates(Update)
    else if c == SIMULATION + s.held + ["libpq5"] then
      Mutates(Simulate)
    else if PinnedShape(c, s.held, inputs) && c[7] == "--download-only" && s.pins == [] && Distinct(pins)
            && InTable(pins, inputs) then Mutates(Download)
    else if PinnedShape(c, s.held, inputs) && c[7] == "--no-download" && s.pins != [] && pins == s.pins then
      Mutates(Install)
    else if |c| >= 2 && c[..2] == ["apt-mark", "auto"] then Mutates(Mark)
    else Outside
  }

  // ----- the gate

  function Column(rows: seq<Row>, shas: bool): seq<string> {
    seq(|rows|, i requires 0 <= i < |rows| => if shas then rows[i].sha else rows[i].name)
  }

  function FileColumn(files: seq<CachedFile>, shas: bool): seq<string> {
    seq(|files|, i requires 0 <= i < |files| => if shas then files[i].sha else files[i].name)
  }

  /** A duplicate-free subset of the resolved table holding exactly the expected native libpq5. */
  predicate ExactSubset(rows: seq<Row>, inputs: Inputs) {
    && rows != [] && Distinct(Column(rows, false))
    && (forall r :: r in rows ==> multiset(inputs.table)[r] == 1)
    && (exists i :: 0 <= i < |rows| && rows[i].name == "libpq5" && rows[i].version == inputs.libpqVersion
                    && rows[i].architecture == inputs.architecture)
  }

  /** The frozen manifest selects an exact subset for exactly this request. */
  predicate Selects(m: Manifest, inputs: Inputs) {
    m.schema == inputs.schema && m.architecture == inputs.architecture && m.requested == ["libpq5"]
    && ExactSubset(m.packages, inputs)
  }

  predicate NamesClear(rows: seq<Row>, prior: map<string, Installed>) {
    forall i, k :: 0 <= i < |rows| && k in prior ==> rows[i].name != prior[k].name
  }

  predicate GatePasses(s: State, pins: seq<string>, inputs: Inputs, g: GateView) {
    && g.manifest.Some? && g.current.Some?
    && var m := g.manifest.value;
    && Selects(m, inputs)
    && NamesClear(m.packages, s.before) && NamesClear(m.packages, g.current.value)
    && g.current.value == s.before
    && pins == Pins(m.packages) && m.archives.Some?
    && multiset(FileColumn(g.files, false)) == multiset(m.archives.value)
    && multiset(FileColumn(g.files, true)) == multiset(Column(m.packages, true))
  }

  /** The names to mark: every selected package but libpq5, sorted. */
  predicate Dependencies(m: Manifest, names: seq<string>) {
    && (forall i, j :: 0 <= i < j < |names| ==> StringLess(names[i], names[j]))
    && (forall n :: n in names ==> n in Column(m.packages, false) && n != "libpq5")
    && (forall n :: n in Column(m.packages, false) && n != "libpq5" ==> n in names)
  }

  predicate MarkPasses(s: State, inputs: Inputs, c: seq<string>) {
    && s.installed && |c| > 2 && s.manifest.Some? && Selects(s.manifest.value, inputs)
    && Dependencies(s.manifest.value, c[2..])
  }

  // ----- one call

  datatype Verdict = Refused | Dispatched | Queried

  /** `code` is None when executing the command raised. */
  function CallEffect(s: State, inputs: Inputs, c: seq<string>, g: GateView, code: Option<int>): (State, Verdict) {
    match Classify(s, inputs, c)
    case Outside => (s, Refused)
    case Query => (s, Queried)
    case Mutates(step) =>
      var s1 := if step == Download then s.(pins := PinsOf(c, s.held)) else s;
      if |s.done| >= |ORDER| || ORDER[|s.done|] != step then (s1, Refused)
      else if step == Install && !GatePasses(s1, s1.pins, inputs, g) then (s1, Refused)
      else if step == Mark && !MarkPasses(s1, inputs, c) then (s1, Refused)
      else
        (s1.(done := s.done + [step], log := s.log + [Dispatch(step, c, s.held, s.before, g, code)],
             manifest := if step == Install then g.manifest else s.manifest,
             installed := s.installed || (step == Install && code == Some(0))), Dispatched)
  }

  class Guard {
    const inputs: Inputs
    var held: seq<string>
    var before: map<string, Installed>
    var done: seq<Step>
    var pins: seq<string>
    var manifest: Option<Manifest>
    var installed: bool
    ghost var log: seq<Dispatch>

    ghost function View(): State
      reads this
    {
      State(held, before, done, pins, manifest, installed, log)
    }

    constructor (inputs: Inputs)
      ensures this.inputs == inputs && View() == INITIAL
    {
      this.inputs := inputs;
      held, before, done, pins, manifest, installed := [], map[], [], [], None, false;
      log := [];
    }

    /** Classification; a download shape fixes the pins before the order is checked. */
    method StepOf(c: seq<string>) returns (r: Class)
      modifies this`pins
      ensures r == Classify(old(View()), inputs, c)
      ensures View() == old(View()).(pins := if r == Mutates(Download) then PinsOf(c, held) else old(pins))
    {
      if IsQuery(c, inputs) {
        return Query;
      }
      if c == ["apt-get", "update"] {
        return Mutates(Update);
      }
      if c == SIMULATION + held + ["libpq5"] {
        return Mutates(Simulate);
      }
      if PinnedShape(c, held, inputs) {
        var wanted := PinsOf(c, held);
        if c[7] == "--download-only" && pins == [] && Distinct(wanted) && InTable(wanted, inputs) {
          pins := wanted;
          return Mutates(Download);
        }
        if c[7] == "--no-download" && pins != [] && wanted == pins {
          return Mutates(Install);
        }
      }
      if |c| >= 2 && c[..2] == ["apt-mark", "auto"] {
        return Mutates(Mark);
      }
      return Outside;
    }

    method Call(c: seq<string>, g: GateView, code: Option<int>) returns (v: Verdict)
      modifies this
      ensures (View(), v) == CallEffect(old(View()), inputs, c, g, code)
    {
      var kind := StepOf(c);
      if kind.Outside? {
        return Refused;
      }
      if kind.Query? {
        return Queried;
      }
      var step := kind.step;
      if |done| >= |ORDER| || ORDER[|done|] != step {
        return Refused;
      }
      if step == Install {
        if !GatePasses(State(held, before, done, pins, manifest, installed, []), pins, inputs, g) {
          return Refused;
        }
        manifest := g.manifest;
      }
      if step == Mark && !MarkPasses(State(held, before, done, pins, manifest, installed, []), inputs, c) {
        return Refused;
      }
      done := done + [step];
      log := log + [Dispatch(step, c, held, before, g, code)];
      installed := installed || (step == Install && code == Some(0));
      return Dispatched;
    }
  }

  // ----- every sequence of calls

  datatype Action =
    | Calls(argv: seq<string>, gate: GateView, code: Option<int>)
    | Prepares(held: seq<string>, before: map<string, Installed>)

  function Apply(s: State, inputs: Inputs, a: Action): State {
    match a
    case Calls(argv, gate, code) => CallEffect(s, inputs, argv, gate, code).0
    case Prepares(held, before) => s.(held := held, before := before)
  }

  function Exec(s: State, inputs: Inputs, actions: seq<Action>): State
    decreases |actions|
  {
    if actions == [] then s else Exec(Apply(s, inputs, actions[0]), inputs, actions[1..])
  }

  function Steps(log: seq<Dispatch>): seq<Step> {
    seq(|log|, i requires 0 <= i < |log| => log[i].step)
  }

  /** The rows name each package once, each is exactly one row of the table, and libpq5 is the expected one. */
  ghost predicate RowsHold(rows: seq<Row>, inputs: Inputs) {
    && rows != []
    && (forall i, j :: 0 <= i < j < |rows| ==> rows[i].name != rows[j].name)
    && (forall i :: 0 <= i < |rows| ==> multiset(inputs.table)[rows[i]] == 1)
    && (exists r :: r in rows && r.name == "libpq5")
    && (forall r :: r in rows && r.name == "libpq5" ==>
          r.version == inputs.libpqVersion && r.architecture == inputs.architecture)
  }

  /**
   What must be true of the world when an install is dispatched: the frozen manifest is this request's
   and selects these pins from the table, the package database is still the baseline and has none of the
   selected names, and the cache holds exactly the manifest's archives with the rows' digests.
   */
  ghost predicate GateHolds(before: map<string, Installed>, pins: seq<string>, inputs: Inputs, g: GateView) {
    && g.manifest.Some? && g.current == Some(before)
    && var m := g.manifest.value;
    && m.schema == inputs.schema && m.architecture == inputs.architecture && m.requested == ["libpq5"]
    && RowsHold(m.packages, inputs)
    && |pins| == |m.packages|
    && (forall i :: 0 <= i < |pins| ==> pins[i] == m.packages[i].name + "=" + m.packages[i].version)
    && (forall r, k :: r in m.packages && k in before ==> before[k].name != r.name)
    && m.archives.Some?
    && var files := g.files;
    && multiset(seq(|files|, i requires 0 <= i < |files| => files[i].name)) == multiset(m.archives.value)
    && multiset(seq(|files|, i requires 0 <= i < |files| => files[i].sha)) ==
       multiset(seq(|m.packages|, i requires 0 <= i < |m.packages| => m.packages[i].sha))
  }

  lemma RowsMean(rows: seq<Row>, inputs: Inputs)
    ensures ExactSubset(rows, inputs) <==> RowsHold(rows, inputs)
  {
    var names := Column(rows, false);
    assert forall i :: 0 <= i < |rows| ==> names[i] == rows[i].name;
  }

  /** The gate passes exactly in such a world. */
  lemma GateMeans(s: State, pins: seq<string>, inputs: Inputs, g: GateView)
    ensures GatePasses(s, pins, inputs, g) <==> GateHolds(s.before, pins, inputs, g)
  {
    if g.manifest.Some? {
      var m, files := g.manifest.value, g.files;
      RowsMean(m.packages, inputs);
      assert FileColumn(files, false) == seq(|files|, i requires 0 <= i < |files| => files[i].name);
      assert FileColumn(files, true) == seq(|files|, i requires 0 <= i < |files| => files[i].sha);
      assert Column(m.packages, true) == seq(|m.packages|, i requires 0 <= i < |m.packages| => m.packages[i].sha);
      assert NamesClear(m.packages, s.before) <==>
             forall r, k :: r in m.packages && k in s.before ==> s.before[k].name != r.name;
      assert pins == Pins(m.packages) <==>
             |pins| == |m.packages| &&
             forall i :: 0 <= i < |pins| ==> pins[i] == m.packages[i].name + "=" + m.packages[i].version;
    }
  }

  predicate DownloadOk(s: State, inputs: Inputs)
    requires |s.log| >= 3
  {
    && s.pins != [] && Distinct(s.pins) && InTable(s.pins, inputs)
    && s.log[2].argv == Vector("--download-only", s.log[2].held, s.pins, inputs)
  }

  ghost predicate InstallOk(s: State, inputs: Inputs)
    requires |s.log| >= 4
  {
    && s.manifest.Some? && Selects(s.manifest.value, inputs) && s.pins == Pins(s.manifest.value.packages)
    && s.log[3].argv == Vector("--no-download", s.log[3].held, s.pins, inputs)
    && s.manifest == s.log[3].gate.manifest && GateHolds(s.log[3].before, s.pins, inputs, s.log[3].gate)
  }

  ghost predicate Inv(s: State, inputs: Inputs) {
    && s.done == Steps(s.log) && |s.log| <= 5 && s.done == ORDER[..|s.log|]
    && (|s.log| >= 3 ==> DownloadOk(s, inputs))
    && (|s.log| >= 4 ==> InstallOk(s, inputs))
    && (s.installed <==> |s.log| >= 4 && s.log[3].code == Some(0))
    && (|s.log| >= 5 ==>
          |s.log[4].argv| > 2 && Dependencies(s.manifest.value, s.log[4].argv[2..]) && s.installed)
  }

  /** The whole argument vector of a pinned command. */
  lemma PinnedVector(c: seq<string>, held: seq<string>, inputs: Inputs)
    requires PinnedShape(c, held, inputs)
    ensures c == Vector(c[7], held, PinsOf(c, held), inputs) && PinsOf(c, held) != []
  {
    assert c == c[..7] + [c[7]] + c[8..8 + |held|] + c[8 + |held|..];
  }

  /** What a command classified as a download or an install looks like. */
  lemma DispatchShape(s: State, inputs: Inputs, c: seq<string>, step: Step)
    requires Classify(s, inputs, c) == Mutates(step)
    ensures step == Download ==>
      && s.pins == [] && PinsOf(c, s.held) != [] && Distinct(PinsOf(c, s.held)) && InTable(PinsOf(c, s.held), inputs)
      && c == Vector("--download-only", s.held, PinsOf(c, s.held), inputs)
    ensures step == Install ==> s.pins != [] && c == Vector("--no-download", s.held, s.pins, inputs)
  {
    if PinnedShape(c, s.held, inputs) {
      PinnedVector(c, s.held, inputs);
    }
  }

  /** A refused command, or a query, leaves what the invariant speaks of. */
  lemma RefusedKeepsInv(s: State, inputs: Inputs, c: seq<string>, g: GateView, code: Option<int>)
    requires Inv(s, inputs) && CallEffect(s, inputs, c, g, code).1 != Dispatched
    ensures Inv(CallEffect(s, inputs, c, g, code).0, inputs)
  {
    var kind := Classify(s, inputs, c);
    if kind.Mutates? {
      DispatchShape(s, inputs, c, kind.step);
    }
  }

  /** A dispatched command is the next of the order. */
  lemma DispatchedIsNext(s: State, inputs: Inputs, c: seq<string>, g: GateView, code: Option<int>)
    requires Inv(s, inputs) && CallEffect(s, inputs, c, g, code).1 == Dispatched
    ensures
      var t := CallEffect(s, inputs, c, g, code).0;
      && |s.log| < 5 && Classify(s, inputs, c) == Mutates(ORDER[|s.log|])
      && t.done == Steps(t.log) && |t.log| == |s.log| + 1 && t.done == ORDER[..|t.log|] && t.log[..|s.log|] == s.log
  {
    assert ORDER[..|s.log| + 1] == ORDER[..|s.log|] + [ORDER[|s.log|]];
  }

  lemma DispatchKeepsInv(s: State, inputs: Inputs, c: seq<string>, g: GateView, code: Option<int>)
    requires Inv(s, inputs) && CallEffect(s, inputs, c, g, code).1 == Dispatched
    ensures Inv(CallEffect(s, inputs, c, g, code).0, inputs)
  {
    DispatchedIsNext(s, inputs, c, g, code);
    DispatchShape(s, inputs, c, ORDER[|s.log|]);
    if |s.log| == 3 {
      GateMeans(s, s.pins, inputs, g);
    }
  }

  lemma CallKeepsInv(s: State, inputs: Inputs, c: seq<string>, g: GateView, code: Option<int>)
    requires Inv(s, inputs)
    ensures Inv(CallEffect(s, inputs, c, g, code).0, inputs)
  {
    if CallEffect(s, inputs, c, g, code).1 == Dispatched {
      DispatchKeepsInv(s, inputs, c, g, code);
    } else {
      RefusedKeepsInv(s, inputs, c, g, code);
    }
  }

  lemma {:induction false} RunKeepsInv(s: State, inputs: Inputs, actions: seq<Action>)
    requires Inv(s, inputs)
    ensures Inv(Exec(s, inputs, actions), inputs)
    decreases |actions|
  {
    if actions != [] {
      if actions[0].Calls? {
        CallKeepsInv(s, inputs, actions[0].argv, actions[0].gate, actions[0].code);
      }
      RunKeepsInv(Apply(s, inputs, actions[0]), inputs, actions[1..]);
    }
  }

  /** The mutating commands dispatched are a prefix of the order, so each at most once, whatever execution did. */
  lemma DispatchedInOrder(inputs: Inputs, actions: seq<Action>)
    ensures Steps(Exec(INITIAL, inputs, actions).log) <= ORDER
  {
    RunKeepsInv(INITIAL, inputs, actions);
  }

  /**
   The download and the install are these argument vectors and no others: each with the holds set at
   the time, and with the same pins, which are the frozen manifest's rows, an exact subset of the table.
   */
  lemma InstallIsPinned(inputs: Inputs, actions: seq<Action>, i: nat)
    requires
      var s := Exec(INITIAL, inputs, actions);
      i < |s.log| && s.log[i].step == Install
    ensures
      var s := Exec(INITIAL, inputs, actions);
      && i == 3 && s.log[2].step == Download
      && s.manifest.Some? && ExactSubset(s.manifest.value.packages, inputs)
      && s.log[2].argv == Vector("--download-only", s.log[2].held, Pins(s.manifest.value.packages), inputs)
      && s.log[3].argv == Vector("--no-download", s.log[3].held, Pins(s.manifest.value.packages), inputs)
  {
    RunKeepsInv(INITIAL, inputs, actions);
    var s := Exec(INITIAL, inputs, actions);
    assert Steps(s.log)[i] == ORDER[i];
    assert Steps(s.log)[2] == ORDER[2];
  }

  // ----- the holds

  ghost predicate HeldThroughout(s: State) {
    forall i :: 0 <= i < |s.log| ==> s.log[i].held == s.held
  }

  lemma {:induction false} CallsKeepHolds(s: State, inputs: Inputs, calls: seq<Action>)
    requires HeldThroughout(s) && forall a :: a in calls ==> a.Calls?
    ensures HeldThroughout(Exec(s, inputs, calls)) && Exec(s, inputs, calls).held == s.held
    decreases |calls|
  {
    if calls != [] {
      assert calls[0].Calls?;
      assert forall a :: a in calls[1..] ==> a in calls;
      CallsKeepHolds(Apply(s, inputs, calls[0]), inputs, calls[1..]);
    }
  }

  lemma {:induction false} ExecConcat(s: State, inputs: Inputs, a: seq<Action>, b: seq<Action>)
    ensures Exec(s, inputs, a + b) == Exec(Exec(s, inputs, a), inputs, b)
    decreases |a|
  {
    if a == [] {
      assert a + b == b;
    } else {
      assert (a + b)[0] == a[0] && (a + b)[1..] == a[1..] + b;
      ExecConcat(Apply(s, inputs, a[0]), inputs, a[1..], b);
    }
  }

  /**
   When the holds are set before the first mutating command and not after, an install names exactly
   those holds and the manifest's rows, after a download of the same.
   */
  lemma InstallNamesHoldsAndRows(inputs: Inputs, setup: seq<Action>, calls: seq<Action>)
    requires Exec(INITIAL, inputs, setup).log == [] && forall a :: a in calls ==> a.Calls?
    requires |Exec(INITIAL, inputs, setup + calls).log| > 3
    ensures
      var held := Exec(INITIAL, inputs, setup).held;
      var s := Exec(INITIAL, inputs, setup + calls);
      && s.manifest.Some? && ExactSubset(s.manifest.value.packages, inputs)
      && s.log[2].argv == Vector("--download-only", held, Pins(s.manifest.value.packages), inputs)
      && s.log[3].argv == Vector("--no-download", held, Pins(s.manifest.value.packages), inputs)
  {
    var s := Exec(INITIAL, inputs, setup + calls);
    RunKeepsInv(INITIAL, inputs, setup + calls);
    ExecConcat(INITIAL, inputs, setup, calls);
    CallsKeepHolds(Exec(INITIAL, inputs, setup), inputs, calls);
    assert Steps(s.log)[3] == ORDER[3];
    InstallIsPinned(inputs, setup + calls, 3);
  }

  /** Marking happens only after an install that exited 0, on exactly the sorted dependency names. */
  lemma MarkFollowsInstall(inputs: Inputs, actions: seq<Action>, i: nat)
    requires
      var s := Exec(INITIAL, inputs, actions);
      i < |s.log| && s.log[i].step == Mark
    ensures
      var s := Exec(INITIAL, inputs, actions);
      && i == 4 && s.log[3].step == Install && s.log[3].code == Some(0) && s.manifest.Some?
      && |s.log[4].argv| > 2 && Dependencies(s.manifest.value, s.log[4].argv[2..])
  {
    RunKeepsInv(INITIAL, inputs, actions);
    var s := Exec(INITIAL, inputs, actions);
    assert Steps(s.log)[i] == ORDER[i];
    assert Steps(s.log)[3] == ORDER[3];
  }

  // ----- a refused download fixes the pins all the same

  /** Pins are fixed but no download was dispatched. */
  predicate Spent(s: State) {
    s.pins != [] && |s.done| <= 2
  }

  /** A download shape seen too early is refused, and spends the pins: exactly then is the guard spent by a call. */
  lemma SpentBy(s: State, inputs: Inputs, c: seq<string>, g: GateView, code: Option<int>)
    requires Inv(s, inputs) && !Spent(s)
    ensures Spent(CallEffect(s, inputs, c, g, code).0) <==> Classify(s, inputs, c) == Mutates(Download) && |s.done| < 2
  {
    if Classify(s, inputs, c).Mutates? {
      DispatchShape(s, inputs, c, Classify(s, inputs, c).step);
    }
  }

  /** A spent guard never dispatches a download, an install or a mark again. */
  lemma {:induction false} SpentForever(s: State, inputs: Inputs, actions: seq<Action>)
    requires Inv(s, inputs) && Spent(s)
    ensures Spent(Exec(s, inputs, actions)) && |Exec(s, inputs, actions).log| <= 2
    decreases |actions|
  {
    if actions != [] {
      if actions[0].Calls? {
        CallKeepsInv(s, inputs, actions[0].argv, actions[0].gate, actions[0].code);
        var kind := Classify(s, inputs, actions[0].argv);
        if kind.Mutates? {
          DispatchShape(s, inputs, actions[0].argv, kind.step);
        }
      }
      SpentForever(Apply(s, inputs, actions[0]), inputs, actions[1..]);
    }
  }

  // ----- one such run

  const PROBE := Inputs([Row("libpq5", "17.1", "amd64", seq(64, _ => '0'))], "17.1", "amd64", "s", "/c", "f")
  const EARLY := Vector("--download-only", [], ["libpq5=17.1"], PROBE)
  const UPDATE := ["apt-get", "update"]
  const SIMULATE := ["apt-get", "install", "--simulate", "--no-install-recommends", "libpq5"]

  lemma EarlyShape(s: State)
    requires s.held == []
    ensures Classify(s, PROBE, EARLY) == if s.pins == [] then Mutates(Download) else Outside
  {
    var c := EARLY;
    assert |InstallPrefix(PROBE)| == 7 && |c| == 9;
    assert c[..7] == InstallPrefix(PROBE) && c[7] == "--download-only" && c[8..8] == [] && c[8..] == ["libpq5=17.1"];
    assert PinsOf(c, []) == ["libpq5=17.1"];
    assert Pin(PROBE.table[0]) == "libpq5=17.1" && Pins(PROBE.table)[0] == "libpq5=17.1";
    assert c[..2][0] == "apt-get" && |"apt-get"| != |"apt-mark"|;
    assert "--no-download"[2] == 'n' && "--download-only"[2] == 'd';
    assert !IsQuery(c, PROBE);
  }

  lemma OtherShapes(s: State)
    requires s.held == []
    ensures Classify(s, PROBE, UPDATE) == Mutates(Update) && Classify(s, PROBE, SIMULATE) == Mutates(Simulate)
  {
    assert |"apt-get"| != |"dpkg"| && |"update"| != |"indextargets"|;
    assert SIMULATE == ["apt-get", "install", "--simulate", "--no-install-recommends"] + s.held + ["libpq5"];
  }

  /** A download before its turn is refused; after update and simulate the same download is refused again. */
  lemma EarlyDownloadNeverDispatched(g: GateView)
    ensures
      var first := CallEffect(INITIAL, PROBE, EARLY, g, Some(0));
      var update := CallEffect(first.0, PROBE, UPDATE, g, Some(0));
      var simulate := CallEffect(update.0, PROBE, SIMULATE, g, Some(0));
      var again := CallEffect(simulate.0, PROBE, EARLY, g, Some(0));
      && first.1 == Refused && update.1 == Dispatched && simulate.1 == Dispatched
      && again.1 == Refused && Spent(again.0)
  {
    EarlyShape(INITIAL);
    var first := CallEffect(INITIAL, PROBE, EARLY, g, Some(0)).0;
    assert first.pins == ["libpq5=17.1"];
    OtherShapes(first);
    var update := CallEffect(first, PROBE, UPDATE, g, Some(0)).0;
    OtherShapes(update);
    EarlyShape(CallEffect(update, PROBE, SIMULATE, g, Some(0)).0);
  }
}
