/**
 What the command guard lets through, stated without its own tests: after any run, exactly which
 command is dispatched next and in what state of the world, and which commands run uncounted.
 */
module CommandDispatch {
  import opened Wrappers
  import opened Sequences
  import opened Strings
  import opened CommandGuard

  /** The world in which an install was dispatched: the gate's conditions held, with the pins of the download. */
  lemma InstallWasGated(inputs: Inputs, actions: seq<Action>)
    requires |Exec(INITIAL, inputs, actions).log| > 3
    ensures
      var s := Exec(INITIAL, inputs, actions);
      && s.log[3].step == Install && s.manifest == s.log[3].gate.manifest
      && GateHolds(s.log[3].before, PinsOf(s.log[2].argv, s.log[2].held), inputs, s.log[3].gate)
  {
    RunKeepsInv(INITIAL, inputs, actions);
    var s := Exec(INITIAL, inputs, actions);
    assert Steps(s.log)[3] == ORDER[3];
    VectorPins("--download-only", s.log[2].held, s.pins, inputs);
  }

  lemma VectorPins(mode: string, held: seq<string>, pins: seq<string>, inputs: Inputs)
    ensures PinsOf(Vector(mode, held, pins, inputs), held) == pins
    ensures pins != [] ==> PinnedShape(Vector(mode, held, pins, inputs), held, inputs)
    ensures Vector(mode, held, pins, inputs)[7] == mode && Vector(mode, held, pins, inputs)[2] == "--yes"
    ensures Vector(mode, held, pins, inputs)[0] == "apt-get" && |Vector(mode, held, pins, inputs)| >= 8
  {
    var c := Vector(mode, held, pins, inputs);
    assert |InstallPrefix(inputs)| == 7 && |c| == 8 + |held| + |pins|;
    assert c[..7] == InstallPrefix(inputs) && c[8..8 + |held|] == held && c[8 + |held|..] == pins;
  }

  // ----- exactly which command is dispatched next

  /** The one command, or family of commands, that the guard lets through at this point. */
  ghost predicate MayDispatch(s: State, inputs: Inputs, c: seq<string>, g: GateView) {
    if |s.log| == 0 then c == ["apt-get", "update"]
    else if |s.log| == 1 then c == SIMULATION + s.held + ["libpq5"]
    else if |s.log| == 2 then
      s.pins == [] && exists pins: seq<string> ::
        && c == Vector("--download-only", s.held, pins, inputs) && pins != [] && Distinct(pins)
        && forall p :: p in pins ==> exists i :: 0 <= i < |inputs.table| &&
                                                 p == inputs.table[i].name + "=" + inputs.table[i].version
    else if |s.log| == 3 then
      c == Vector("--no-download", s.held, s.pins, inputs) && GateHolds(s.before, s.pins, inputs, g)
    else if |s.log| == 4 then
      && s.log[3].code == Some(0) && |c| > 2 && c[0] == "apt-mark" && c[1] == "auto" && s.log[3].gate.manifest.Some?
      && (forall i, j :: 2 <= i < j < |c| ==> StringLess(c[i], c[j]))
      && forall n :: n in c[2..] <==> n != "libpq5" && exists r :: r in s.log[3].gate.manifest.value.packages && r.name == n
    else false
  }

  lemma TableMeans(pins: seq<string>, inputs: Inputs)
    ensures InTable(pins, inputs) <==>
            forall p :: p in pins ==> exists i :: 0 <= i < |inputs.table| &&
                                                  p == inputs.table[i].name + "=" + inputs.table[i].version
  {
    forall p ensures p in Pins(inputs.table) <==>
                     exists i :: 0 <= i < |inputs.table| && p == inputs.table[i].name + "=" + inputs.table[i].version {
      if i :| 0 <= i < |inputs.table| && p == inputs.table[i].name + "=" + inputs.table[i].version {
        assert Pins(inputs.table)[i] == p;
      }
    }
  }

  /** No mutating shape is taken for a query, and each is recognized by its words. */
  lemma WordsDiffer(c: seq<string>, inputs: Inputs)
    ensures |c| > 2 && c[0] == "apt-get" ==> !IsQuery(c, inputs)
    ensures c == ["apt-get", "update"] ==> !IsQuery(c, inputs)
    ensures |c| >= 2 && c[..2] == ["apt-mark", "auto"] ==> !IsQuery(c, inputs)
  {
    if |c| >= 2 {
      assert c[..2][0] == c[0] && c[..2][1] == c[1];
    }
    assert |"apt-get"| != |"dpkg"| && |"apt-get"| != |"dpkg-query"| && |"apt-get"| != |"/usr/lib/apt/apt-helper"|;
    assert |"apt-get"| != |"dpkg-deb"| && |"apt-mark"| != |"dpkg"| && |"apt-mark"| != |"dpkg-query"|;
    assert "apt-mark"[0] == 'a' && "dpkg-deb"[0] == 'd' && |"apt-mark"| != |"/usr/lib/apt/apt-helper"|;
    assert |"update"| != |"indextargets"| && |"apt-mark"| != |"apt-get"|;
  }

  /** Which shape each class has. */
  lemma ClassMeans(s: State, inputs: Inputs, c: seq<string>)
    ensures Classify(s, inputs, c) == Mutates(Update) <==> c == ["apt-get", "update"]
    ensures Classify(s, inputs, c) == Mutates(Simulate) <==> c == SIMULATION + s.held + ["libpq5"]
    ensures Classify(s, inputs, c) == Mutates(Mark) <==> |c| >= 2 && c[0] == "apt-mark" && c[1] == "auto"
  {
    WordsDiffer(c, inputs);
    assert |"apt-mark"| != |"apt-get"|;
    if |c| >= 2 {
      assert c[..2] == ["apt-mark", "auto"] <==> c[0] == "apt-mark" && c[1] == "auto";
    }
    if c == SIMULATION + s.held + ["libpq5"] {
      assert c[0] == "apt-get" && |c| > 2;
    }
    if PinnedShape(c, s.held, inputs) {
      assert c[..7][0] == "apt-get";
    }
  }

  lemma DownloadMeans(s: State, inputs: Inputs, c: seq<string>)
    ensures Classify(s, inputs, c) == Mutates(Download) <==>
            s.pins == [] && exists pins: seq<string> ::
              c == Vector("--download-only", s.held, pins, inputs) && pins != [] && Distinct(pins) && InTable(pins, inputs)
  {
    if Classify(s, inputs, c) == Mutates(Download) {
      DispatchShape(s, inputs, c, Download);
    }
    if s.pins == [] {
      if pins :| c == Vector("--download-only", s.held, pins, inputs) && pins != [] && Distinct(pins) && InTable(pins, inputs) {
        VectorPins("--download-only", s.held, pins, inputs);
        PinnedIsPinned(s, inputs, c);
      }
    }
  }

  /** A pinned vector is no query, no update and no simulation. */
  lemma PinnedIsPinned(s: State, inputs: Inputs, c: seq<string>)
    requires |c| >= 8 && c[0] == "apt-get" && c[2] == "--yes"
    ensures !IsQuery(c, inputs) && c != ["apt-get", "update"] && c != SIMULATION + s.held + ["libpq5"]
  {
    WordsDiffer(c, inputs);
    assert (SIMULATION + s.held + ["libpq5"])[2] == "--simulate";
    assert "--yes"[2] == 'y' && "--simulate"[2] == 's';
  }

  lemma InstallMeans(s: State, inputs: Inputs, c: seq<string>)
    requires s.pins != []
    ensures Classify(s, inputs, c) == Mutates(Install) <==> c == Vector("--no-download", s.held, s.pins, inputs)
  {
    if Classify(s, inputs, c) == Mutates(Install) {
      DispatchShape(s, inputs, c, Install);
    }
    if c == Vector("--no-download", s.held, s.pins, inputs) {
      VectorPins("--no-download", s.held, s.pins, inputs);
      PinnedIsPinned(s, inputs, c);
      assert "--no-download"[2] == 'n' && "--download-only"[2] == 'd';
    }
  }

  lemma MarkMeans(s: State, inputs: Inputs, c: seq<string>)
    requires Inv(s, inputs) && |s.log| == 4 && |c| > 2
    ensures MarkPasses(s, inputs, c) <==>
            && s.installed && (forall i, j :: 2 <= i < j < |c| ==> StringLess(c[i], c[j]))
            && forall n :: n in c[2..] <==>
                           n != "libpq5" && exists r :: r in s.log[3].gate.manifest.value.packages && r.name == n
  {
    var rows, names := s.manifest.value.packages, c[2..];
    assert forall n :: n in Column(rows, false) <==> exists r :: r in rows && r.name == n by {
      assert forall i :: 0 <= i < |rows| ==> Column(rows, false)[i] == rows[i].name && rows[i] in rows;
    }
    assert (forall i, j :: 2 <= i < j < |c| ==> StringLess(c[i], c[j])) <==>
           (forall i, j :: 0 <= i < j < |names| ==> StringLess(names[i], names[j])) by {
      assert forall i :: 0 <= i < |names| ==> names[i] == c[i + 2];
      assert forall i :: 2 <= i < |c| ==> c[i] == names[i - 2];
    }
  }

  /** The next step of the order, with the gate before an install and the names before a mark. */
  lemma VerdictMeans(s: State, inputs: Inputs, c: seq<string>, g: GateView, code: Option<int>)
    requires Inv(s, inputs)
    ensures CallEffect(s, inputs, c, g, code).1 == Dispatched <==>
            && |s.log| < 5 && Classify(s, inputs, c) == Mutates(ORDER[|s.log|])
            && (|s.log| == 3 ==> GatePasses(s, s.pins, inputs, g)) && (|s.log| == 4 ==> MarkPasses(s, inputs, c))
  {
    assert |s.done| == |s.log|;
  }

  lemma DownloadIff(s: State, inputs: Inputs, c: seq<string>, g: GateView)
    requires |s.log| == 2
    ensures Classify(s, inputs, c) == Mutates(Download) <==> MayDispatch(s, inputs, c, g)
  {
    DownloadMeans(s, inputs, c);
    forall pins ensures InTable(pins, inputs) <==>
                        forall p :: p in pins ==> exists i :: 0 <= i < |inputs.table| &&
                                                              p == inputs.table[i].name + "=" + inputs.table[i].version {
      TableMeans(pins, inputs);
    }
  }

  lemma MarkIff(s: State, inputs: Inputs, c: seq<string>, g: GateView)
    requires Inv(s, inputs) && |s.log| == 4
    ensures Classify(s, inputs, c) == Mutates(Mark) && MarkPasses(s, inputs, c) <==> MayDispatch(s, inputs, c, g)
  {
    ClassMeans(s, inputs, c);
    if |c| > 2 {
      MarkMeans(s, inputs, c);
    }
  }

  /** After any run a command is dispatched if and only if it is the one that may come next. */
  lemma DispatchIff(inputs: Inputs, actions: seq<Action>, c: seq<string>, g: GateView, code: Option<int>)
    ensures
      var s := Exec(INITIAL, inputs, actions);
      CallEffect(s, inputs, c, g, code).1 == Dispatched <==> MayDispatch(s, inputs, c, g)
  {
    RunKeepsInv(INITIAL, inputs, actions);
    NextIff(Exec(INITIAL, inputs, actions), inputs, c, g, code);
  }

  lemma NextIff(s: State, inputs: Inputs, c: seq<string>, g: GateView, code: Option<int>)
    requires Inv(s, inputs)
    ensures CallEffect(s, inputs, c, g, code).1 == Dispatched <==> MayDispatch(s, inputs, c, g)
  {
    VerdictMeans(s, inputs, c, g, code);
    if |s.log| < 2 {
      ClassMeans(s, inputs, c);
    } else if |s.log| == 2 {
      DownloadIff(s, inputs, c, g);
    } else if |s.log| == 3 {
      InstallMeans(s, inputs, c);
      GateMeans(s, s.pins, inputs, g);
    } else if |s.log| == 4 {
      MarkIff(s, inputs, c, g);
    }
  }

  /** Holds changed after the download go into the install: any, as long as the gate's conditions hold. */
  lemma LateHoldsAreInstalled(inputs: Inputs, actions: seq<Action>, held: seq<string>, g: GateView, code: Option<int>)
    requires
      var s := Exec(INITIAL, inputs, actions);
      |s.log| == 3 && GateHolds(s.before, s.pins, inputs, g)
    ensures
      var s := Exec(INITIAL, inputs, actions);
      var c := Vector("--no-download", held, s.pins, inputs);
      CallEffect(Apply(s, inputs, Prepares(held, s.before)), inputs, c, g, code).1 == Dispatched
  {
    var s := Exec(INITIAL, inputs, actions);
    var late := [Prepares(held, s.before)];
    ExecConcat(INITIAL, inputs, actions, late);
    assert late[1..] == [];
    assert Exec(s, inputs, late) == Apply(s, inputs, late[0]);
    DispatchIff(inputs, actions + late, Vector("--no-download", held, s.pins, inputs), g, code);
  }

  // ----- what runs besides

  predicate StandsAt(part: string, s: string, i: nat) {
    i <= |s| && part <= s[i..]
  }

  /** No piece of the text is a slash followed by two dots. */
  ghost predicate StaysBelow(path: string) {
    forall i :: !StandsAt("/..", path, i)
  }

  /** A file directly in a directory; extra slashes before the name do not count. */
  ghost predicate DirectlyIn(path: string, dir: string) {
    exists n :: |dir| < n <= |path| && path[..|dir|] == dir &&
                (forall i :: |dir| <= i < n ==> path[i] == '/') && '/' !in path[n..]
  }

  /** The commands that are run without being counted: each only reads. */
  ghost predicate OnlyReads(c: seq<string>, inputs: Inputs) {
    || c == ["dpkg", "--print-architecture"] || c == ["dpkg", "--verify", "libpq5"]
    || c == ["apt-get", "indextargets"] || c == ["dpkg-query", "-W", "-f=" + inputs.queryFormat]
    || c == ["dpkg-query", "-L", "libssl3t64"] || c == ["dpkg-query", "-L", "libc6"]
    || (exists path: string :: c == ["dpkg-query", "-S", path] && path != "" && path[0] == '/')
    || (exists path: string :: c == ["/usr/lib/apt/apt-helper", "cat-file", path] &&
                               "/var/lib/apt/lists/" <= path && StaysBelow(path))
    || (exists path: string :: c == ["dpkg-deb", "--field", path, "Package", "Version", "Architecture"] &&
                               DirectlyIn(path, inputs.cache))
  }

  lemma {:induction false} ContainsMeans(s: string, part: string)
    ensures Contains(s, part) <==> exists i :: StandsAt(part, s, i)
  {
    assert s[0..] == s;
    if part <= s {
      assert StandsAt(part, s, 0);
    } else if s != [] {
      var rest := s[1..];
      ContainsMeans(rest, part);
      if i: nat :| StandsAt(part, rest, i) {
        assert s[i + 1..] == rest[i..];
        assert StandsAt(part, s, i + 1);
      }
      if i: nat :| StandsAt(part, s, i) {
        assert i > 0;
        assert rest[i - 1..] == s[i..];
        assert StandsAt(part, rest, i - 1);
      }
    }
  }

  lemma {:induction false} HeadMeans(path: string)
    ensures Head(path) <= path && '/' !in path[|Head(path)|..]
    ensures Head(path) != "" ==> Head(path)[|Head(path)| - 1] == '/'
    decreases |path|
  {
    if path != "" && path[|path| - 1] != '/' {
      HeadMeans(path[..|path| - 1]);
    }
  }

  lemma {:induction false} StrippedMeans(head: string)
    ensures Stripped(head) <= head && (Stripped(head) != "" ==> Stripped(head)[|Stripped(head)| - 1] != '/')
    ensures forall i :: |Stripped(head)| <= i < |head| ==> head[i] == '/'
    decreases |head|
  {
    if head != "" && head[|head| - 1] == '/' {
      StrippedMeans(head[..|head| - 1]);
    }
  }

  /** The directory of a path, for a directory written without a slash at its end. */
  lemma DirectoryMeans(path: string, dir: string)
    requires dir != "" && dir[|dir| - 1] != '/'
    ensures Directory(path) == dir <==> DirectlyIn(path, dir)
  {
    var head := Head(path);
    var bare := Stripped(head);
    HeadMeans(path);
    StrippedMeans(head);
    if Directory(path) == dir {
      assert path[..|dir|] == dir;
      assert forall i :: |dir| <= i < |head| ==> path[i] == head[i];
    }
    if DirectlyIn(path, dir) {
      var n :| |dir| < n <= |path| && path[..|dir|] == dir &&
               (forall i :: |dir| <= i < n ==> path[i] == '/') && '/' !in path[n..];
      assert path[n - 1] == '/';
      assert |head| == n;
      assert head[|dir| - 1] == dir[|dir| - 1];
    }
  }

  lemma ThreeWords(c: seq<string>, a: string, b: string)
    ensures |c| == 3 && c[..2] == [a, b] <==> |c| == 3 && c == [a, b, c[2]]
  {
    if |c| == 3 {
      assert c == c[..2] + [c[2]];
    }
  }

  lemma QueryMeans(c: seq<string>, inputs: Inputs)
    requires inputs.cache != "" && inputs.cache[|inputs.cache| - 1] != '/'
    ensures IsQuery(c, inputs) <==> OnlyReads(c, inputs)
  {
    ThreeWords(c, "dpkg-query", "-S");
    ThreeWords(c, "dpkg-query", "-L");
    ThreeWords(c, "/usr/lib/apt/apt-helper", "cat-file");
    if |c| >= 3 {
      ContainsMeans(c[2], "/..");
      DirectoryMeans(c[2], inputs.cache);
    }
    if |c| == 6 {
      assert c == c[..2] + [c[2]] + c[3..];
    }
  }

  /**
   A command runs uncounted exactly if it only reads, and then nothing changes; a refused command changes
   nothing but the pins.
   */
  lemma QueriedIff(s: State, inputs: Inputs, c: seq<string>, g: GateView, code: Option<int>)
    requires inputs.cache != "" && inputs.cache[|inputs.cache| - 1] != '/'
    ensures
      var r := CallEffect(s, inputs, c, g, code);
      && (r.1 == Queried <==> OnlyReads(c, inputs))
      && (r.1 == Queried ==> r.0 == s)
      && (r.1 == Refused ==> r.0 == s.(pins := r.0.pins))
  {
    QueryMeans(c, inputs);
  }

  // ----- whole runs

  /** The five commands of a run for these pins and dependency names. */
  function Whole(inputs: Inputs, held: seq<string>, pins: seq<string>, names: seq<string>): (w: seq<seq<string>>)
    ensures |w| == 5
  {
    [["apt-get", "update"],
     SIMULATION + held + ["libpq5"],
     Vector("--download-only", held, pins, inputs),
     Vector("--no-download", held, pins, inputs),
     ["apt-mark", "auto"] + names]
  }

  /** The helper's choices fit the world: its pins are the manifest's, its names the sorted dependencies. */
  ghost predicate Ordinary(inputs: Inputs, before: map<string, Installed>, pins: seq<string>, names: seq<string>,
                           g: GateView) {
    && GateHolds(before, pins, inputs, g) && Distinct(pins)
    && names != [] && (forall i, j :: 0 <= i < j < |names| ==> StringLess(names[i], names[j]))
    && forall n :: n in names <==> n != "libpq5" && exists r :: r in g.manifest.value.packages && r.name == n
  }

  /** After the first `n` commands of such a run. */
  ghost predicate Reached(s: State, inputs: Inputs, held: seq<string>, before: map<string, Installed>,
                          pins: seq<string>, g: GateView, n: nat) {
    && Inv(s, inputs) && |s.log| == n && s.held == held && s.before == before
    && s.pins == (if n >= 3 then pins else [])
    && (n >= 4 ==> s.log[3].code == Some(0) && s.log[3].gate == g)
  }

  lemma PinsInTable(before: map<string, Installed>, pins: seq<string>, inputs: Inputs, g: GateView)
    requires GateHolds(before, pins, inputs, g)
    ensures pins != []
    ensures forall p :: p in pins ==> exists i :: 0 <= i < |inputs.table| &&
                                                  p == inputs.table[i].name + "=" + inputs.table[i].version
  {
    var rows := g.manifest.value.packages;
    forall p | p in pins
      ensures exists i :: 0 <= i < |inputs.table| && p == inputs.table[i].name + "=" + inputs.table[i].version
    {
      var k :| 0 <= k < |pins| && pins[k] == p;
      assert rows[k] in multiset(inputs.table);
      var i :| 0 <= i < |inputs.table| && inputs.table[i] == rows[k];
    }
  }

  lemma MarkWords(names: seq<string>)
    ensures
      var c := ["apt-mark", "auto"] + names;
      c[0] == "apt-mark" && c[1] == "auto" && c[2..] == names && forall i :: 2 <= i < |c| ==> c[i] == names[i - 2]
  {
  }

  lemma NextOfWhole(s: State, inputs: Inputs, held: seq<string>, before: map<string, Installed>, pins: seq<string>,
                    names: seq<string>, g: GateView, n: nat)
    requires n < 5 && Reached(s, inputs, held, before, pins, g, n) && Ordinary(inputs, before, pins, names, g)
    ensures MayDispatch(s, inputs, Whole(inputs, held, pins, names)[n], g)
  {
    if n == 2 {
      PinsInTable(before, pins, inputs, g);
    } else if n == 4 {
      MarkWords(names);
    }
  }

  lemma NextDispatched(s: State, inputs: Inputs, held: seq<string>, before: map<string, Installed>, pins: seq<string>,
                       names: seq<string>, g: GateView, n: nat)
    requires n < 5 && Reached(s, inputs, held, before, pins, g, n) && Ordinary(inputs, before, pins, names, g)
    ensures
      var c := Whole(inputs, held, pins, names)[n];
      CallEffect(s, inputs, c, g, Some(0)).1 == Dispatched && Classify(s, inputs, c) == Mutates(ORDER[n])
  {
    var c := Whole(inputs, held, pins, names)[n];
    NextOfWhole(s, inputs, held, before, pins, names, g, n);
    NextIff(s, inputs, c, g, Some(0));
    VerdictMeans(s, inputs, c, g, Some(0));
  }

  lemma LogGrows(s: State, inputs: Inputs, c: seq<string>, g: GateView, code: Option<int>)
    requires CallEffect(s, inputs, c, g, code).1 == Dispatched
    ensures
      var t := CallEffect(s, inputs, c, g, code).0;
      && |t.log| == |s.log| + 1 && t.log[..|s.log|] == s.log && t.log[|s.log|].argv == c
      && t.log[|s.log|].gate == g && t.log[|s.log|].code == code && t.held == s.held && t.before == s.before
      && t.pins == if Classify(s, inputs, c) == Mutates(Download) then PinsOf(c, s.held) else s.pins
  {
  }

  lemma ReachNext(s: State, inputs: Inputs, held: seq<string>, before: map<string, Installed>, pins: seq<string>,
                  names: seq<string>, g: GateView, n: nat)
    requires n < 5 && Reached(s, inputs, held, before, pins, g, n) && Ordinary(inputs, before, pins, names, g)
    ensures
      var c := Whole(inputs, held, pins, names)[n];
      var r := CallEffect(s, inputs, c, g, Some(0));
      r.1 == Dispatched && Reached(r.0, inputs, held, before, pins, g, n + 1) && |r.0.log| == n + 1
      && r.0.log[..n] == s.log && r.0.log[n].argv == c
  {
    var c := Whole(inputs, held, pins, names)[n];
    NextDispatched(s, inputs, held, before, pins, names, g, n);
    LogGrows(s, inputs, c, g, Some(0));
    CallKeepsInv(s, inputs, c, g, Some(0));
    VectorPins("--download-only", held, pins, inputs);
  }

  function CallsFrom(commands: seq<seq<string>>, g: GateView, n: nat): (calls: seq<Action>)
    requires n <= |commands|
    ensures forall a :: a in calls ==> a.Calls?
    decreases |commands| - n
  {
    if n == |commands| then [] else [Calls(commands[n], g, Some(0))] + CallsFrom(commands, g, n + 1)
  }

  /** The log is the first `n` of these commands. */
  ghost predicate RunsFirst(log: seq<Dispatch>, commands: seq<seq<string>>, n: nat) {
    |log| == n <= |commands| && forall i :: 0 <= i < n ==> log[i].argv == commands[i]
  }

  lemma RunsOneMore(log: seq<Dispatch>, more: seq<Dispatch>, commands: seq<seq<string>>, n: nat)
    requires RunsFirst(log, commands, n) && n < |commands| && |more| == n + 1
    requires more[..n] == log && more[n].argv == commands[n]
    ensures RunsFirst(more, commands, n + 1)
  {
    assert forall i :: 0 <= i < n ==> more[i] == more[..n][i];
  }

  lemma {:induction false} RestOfWhole(s: State, inputs: Inputs, held: seq<string>, before: map<string, Installed>,
                                       pins: seq<string>, names: seq<string>, g: GateView, n: nat)
    requires n <= 5 && Reached(s, inputs, held, before, pins, g, n) && Ordinary(inputs, before, pins, names, g)
    requires RunsFirst(s.log, Whole(inputs, held, pins, names), n)
    ensures
      var whole := Whole(inputs, held, pins, names);
      RunsFirst(Exec(s, inputs, CallsFrom(whole, g, n)).log, whole, 5)
    decreases 5 - n
  {
    if n < 5 {
      var whole := Whole(inputs, held, pins, names);
      ReachNext(s, inputs, held, before, pins, names, g, n);
      var t := CallEffect(s, inputs, whole[n], g, Some(0)).0;
      RunsOneMore(s.log, t.log, whole, n);
      assert CallsFrom(whole, g, n)[1..] == CallsFrom(whole, g, n + 1);
      RestOfWhole(t, inputs, held, before, pins, names, g, n + 1);
    }
  }

  /** In every world that passes the gate, the helper's five commands are all dispatched, and nothing else is. */
  lemma OrdinaryRunDispatched(inputs: Inputs, held: seq<string>, before: map<string, Installed>, pins: seq<string>,
                              names: seq<string>, g: GateView)
    requires Ordinary(inputs, before, pins, names, g)
    ensures
      var whole := Whole(inputs, held, pins, names);
      var s := Exec(INITIAL, inputs, [Prepares(held, before)] + CallsFrom(whole, g, 0));
      |s.log| == 5 && forall i :: 0 <= i < 5 ==> s.log[i].argv == whole[i]
  {
    var calls := CallsFrom(Whole(inputs, held, pins, names), g, 0);
    var s := Apply(INITIAL, inputs, Prepares(held, before));
    assert ([Prepares(held, before)] + calls)[1..] == calls;
    RestOfWhole(s, inputs, held, before, pins, names, g, 0);
  }

  // ----- such a world

  /** Two rows are the whole table and the whole selection, and both archives are cached. */
  function TwoRows(a: Row, b: Row): (w: (Inputs, GateView)) {
    (Inputs([a, b], a.version, a.architecture, "s", "/c", "f"),
     GateView(Some(Manifest("s", a.architecture, ["libpq5"], [a, b], Some(["x.deb", "y.deb"]))), Some(map[]),
              [CachedFile("x.deb", a.sha), CachedFile("y.deb", b.sha)]))
  }

  lemma TwoRowsHold(a: Row, b: Row)
    requires a.name == "libpq5" && b.name != a.name
    ensures GateHolds(map[], [a.name + "=" + a.version, b.name + "=" + b.version], TwoRows(a, b).0, TwoRows(a, b).1)
  {
    var (inputs, g) := TwoRows(a, b);
    var m, files := g.manifest.value, g.files;
    TwoRowsSelect(a, b);
    assert seq(|files|, i requires 0 <= i < |files| => files[i].name) == ["x.deb", "y.deb"];
    assert seq(|files|, i requires 0 <= i < |files| => files[i].sha) == [a.sha, b.sha];
    assert seq(|m.packages|, i requires 0 <= i < |m.packages| => m.packages[i].sha) == [a.sha, b.sha];
  }

  lemma TwoRowsSelect(a: Row, b: Row)
    requires a.name == "libpq5" && b.name != a.name
    ensures RowsHold([a, b], TwoRows(a, b).0)
  {
    assert multiset([a, b]) == multiset{a, b};
    assert a in [a, b];
  }

  /** One whole run: a library and one dependency. */
  lemma WholeRunDispatched(a: Row, b: Row)
    requires a.name == "libpq5" && b.name != a.name && |b.name + "=" + b.version| > |a.name + "=" + a.version|
    ensures
      var (inputs, g) := TwoRows(a, b);
      var pins := [a.name + "=" + a.version, b.name + "=" + b.version];
      var s := Exec(INITIAL, inputs, [Prepares([], map[])] + CallsFrom(Whole(inputs, [], pins, [b.name]), g, 0));
      |s.log| == 5 && s.log[4].argv == ["apt-mark", "auto", b.name]
  {
    var (inputs, g) := TwoRows(a, b);
    var pins := [a.name + "=" + a.version, b.name + "=" + b.version];
    TwoRowsHold(a, b);
    assert g.manifest.value.packages == [a, b] && a in [a, b] && b in [a, b];
    OrdinaryRunDispatched(inputs, [], map[], pins, [b.name], g);
  }
}
