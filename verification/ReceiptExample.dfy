/**
 One whole run and its combine. Process 7 measures but dies before it creates a marker; process 8, which
 has no token, settles with a receipt that names the shard of process 7. In the longer run process 8
 then begins to invalidate and dies before the first write.
 */
module ReceiptExample {
  import opened Wrappers
  import opened Decimals
  import opened ReceiptProtocol
  import opened ReceiptReading
  import opened ReceiptReconcile
  import opened ReceiptCustody
  import opened ShardNames

  const OTHER := Identity(7, 1, "i", "int", "r", "", "inherited-python", "", "cpython:-c")
  const WORKER := OTHER.(pid := 8)
  const SHARD := "/d/.coverage.pid7"
  const EXIT := Marker(PidKey(8), Exit)
  const SIDE := Marker(PidKey(8), Shard)

  /** Process 7 dies early; process 8 creates its markers, ... */
  const SPAWNS := [Spawn(0, OTHER), Crash(0), Spawn(1, WORKER)]
  const CREATES := [Create(1), WritePending(1), Create(1)]

  /** ... starts measuring, and settles. */
  const BOOTS := [Create(1), Bootstrap(1, true, ""), RewriteStart(1, PidKey(8), false)]
  const WRITES := [Begin(1, Settling), WriteHandle(1, EXIT, SHARD, "", "selected_hits"),
                   WriteHandle(1, SIDE, SHARD, "", "selected_hits")]

  const RUN := SPAWNS + CREATES + BOOTS + WRITES + [End(1)]

  /** The same run, and an invalidation that never reaches a file. */
  const ABANDONED := RUN + [Begin(1, Invalidating), Crash(1)]

  /** The marker directory at the end of both runs. */
  const FILES: map<Name, Content> := map[
    StartOf(8) := StartMarker(WORKER, One, ""),
    EXIT := Receipt(WORKER, SHARD, "", true, "selected_hits"),
    SIDE := ShardName(SHARD)]

  const DIRECTORY := Directory(
    "/d", {Entry(".coverage.pid7", false)}, (text: string) => Candidate(false, true, text),
    "/d/.coverage", 5, None, {}, [], None)

  const EXPECTED := Expected(Some("i"), Some("int"), Some("r"))

  const READ: map<nat, Info> := map[8 := Info(WORKER, true, true, "", SHARD, true, None)]

  const CONSUMED: map<nat, string> := map[8 := SHARD]

  // ----- the run

  lemma ExecThree(s: State, a: Action, b: Action, c: Action)
    ensures Exec(s, [a, b, c]) == Apply(Apply(Apply(s, a), b), c)
  {
    assert [a, b, c][1..] == [b, c] && [b, c][1..] == [c] && [c][1..] == [];
    assert Exec(Apply(Apply(s, a), b), [c]) == Apply(Apply(Apply(s, a), b), c);
    assert Exec(Apply(s, a), [b, c]) == Exec(Apply(Apply(s, a), b), [c]);
  }

  const DEAD := Child(OTHER, 0, Registering, false, "", Idle, false, {}, false, true)
  const FRESH := Child(WORKER, 0, Registering, false, "", Idle, false, {}, false, false)
  const MEASURING := FRESH.(made := 3, open := {EXIT, SIDE}, phase := Registered, started := true)

  /** A state with these files, created by child 1 as far as they are markers. */
  function At(files: map<Name, Content>, child: Child): State {
    State(files, map n | n in files :: 1, map[0 := DEAD, 1 := child])
  }

  const SPAWNED := At(map[], FRESH)
  const CREATED := At(map[StartOf(8) := StartMarker(WORKER, Pending, ""), EXIT := Blank], FRESH.(made := 2, open := {EXIT}))
  const BOOTED := At(map[StartOf(8) := StartMarker(WORKER, One, ""), EXIT := Blank, SIDE := Blank], MEASURING)

  lemma RunsSpawn()
    ensures Exec(INITIAL, SPAWNS) == SPAWNED
  {
    ExecThree(INITIAL, SPAWNS[0], SPAWNS[1], SPAWNS[2]);
  }

  const STARTED := At(map[StartOf(8) := Blank], FRESH.(made := 1, unwritten := true))
  const PENDING := At(map[StartOf(8) := StartMarker(WORKER, Pending, "")], FRESH.(made := 1))
  const PLANNED := At(map[StartOf(8) := StartMarker(WORKER, Pending, ""), EXIT := Blank, SIDE := Blank],
                      FRESH.(made := 3, open := {EXIT, SIDE}))

  lemma Starts()
    ensures Apply(SPAWNED, Create(1)) == STARTED
  {
    assert PlanAt(WORKER, 0) == StartOf(8);
  }

  lemma WritesPending()
    ensures Apply(STARTED, WritePending(1)) == PENDING
  {
    assert PlanAt(WORKER, 0) == StartOf(8);
  }

  lemma CreatesExit()
    ensures Apply(PENDING, Create(1)) == CREATED
  {
    assert PlanAt(WORKER, 1) == EXIT && FRESH.open + {EXIT} == {EXIT};
  }

  lemma RunsCreate()
    ensures Exec(SPAWNED, CREATES) == CREATED
  {
    ExecThree(SPAWNED, Create(1), WritePending(1), Create(1));
    Starts();
    WritesPending();
    CreatesExit();
  }

  lemma CreatesShard()
    ensures Apply(CREATED, Create(1)) == PLANNED
  {
    assert PlanAt(WORKER, 2) == SIDE && {EXIT} + {SIDE} == {EXIT, SIDE};
  }

  lemma Bootstraps()
    ensures Apply(PLANNED, Bootstrap(1, true, "")) == At(PLANNED.files, MEASURING)
  {
  }

  lemma RewritesStart()
    ensures Apply(At(PLANNED.files, MEASURING), RewriteStart(1, PidKey(8), false)) == BOOTED
  {
    assert HasMade(MEASURING, StartOf(8));
  }

  lemma RunsBoot()
    ensures Exec(CREATED, BOOTS) == BOOTED
  {
    ExecThree(CREATED, BOOTS[0], BOOTS[1], BOOTS[2]);
    CreatesShard();
    Bootstraps();
    RewritesStart();
  }

  lemma RunsWrites()
    ensures Exec(BOOTED, WRITES) == At(FILES, MEASURING.(op := Settling))
  {
    ExecThree(BOOTED, WRITES[0], WRITES[1], WRITES[2]);
    var s := Apply(BOOTED, WRITES[0]);
    assert s == At(BOOTED.files, MEASURING.(op := Settling));
    assert Apply(s, WRITES[1]).files == BOOTED.files[EXIT := FILES[EXIT]];
  }

  lemma RunsEnd()
    ensures Exec(At(FILES, MEASURING.(op := Settling)), [End(1)]) == At(FILES, MEASURING)
  {
    assert [End(1)][1..] == [];
  }

  lemma Chain(s: State, t: State, u: State, a: seq<Action>, b: seq<Action>)
    requires Exec(s, a) == t && Exec(t, b) == u
    ensures Exec(s, a + b) == u
  {
    ExecConcat(s, a, b);
  }

  lemma RunEnds()
    ensures Exec(INITIAL, RUN) == At(FILES, MEASURING)
  {
    RunsSpawn();
    RunsCreate();
    Chain(INITIAL, SPAWNED, CREATED, SPAWNS, CREATES);
    RunsBoot();
    Chain(INITIAL, CREATED, BOOTED, SPAWNS + CREATES, BOOTS);
    RunsWrites();
    Chain(INITIAL, BOOTED, At(FILES, MEASURING.(op := Settling)), SPAWNS + CREATES + BOOTS, WRITES);
    RunsEnd();
    Chain(INITIAL, At(FILES, MEASURING.(op := Settling)), At(FILES, MEASURING),
          SPAWNS + CREATES + BOOTS + WRITES, [End(1)]);
  }

  /** The invalidation begins, and the receipt it should overwrite stays complete. */
  lemma AbandonedEnds()
    ensures Exec(INITIAL, ABANDONED) == At(FILES, MEASURING.(op := Invalidating, invalidated := true, crashed := true))
  {
    RunEnds();
    var last := [Begin(1, Invalidating), Crash(1)];
    ExecConcat(INITIAL, RUN, last);
    assert last[1..] == [Crash(1)] && [Crash(1)][1..] == [];
    var s := Apply(At(FILES, MEASURING), Begin(1, Invalidating));
    assert Exec(s, [Crash(1)]) == Apply(s, Crash(1));
  }

  // ----- the combine

  lemma ShardParts()
    ensures Parts(SHARD) == ["", "coverage", "pid7"]
  {
    assert SHARD == "/d" + "/" + ".coverage.pid7";
    BaseOf("/d", ".coverage.pid7");
    assert ".coverage.pid7" == "" + "." + ("coverage" + "." + "pid7");
    ThreeParts("", "coverage", "pid7");
  }

  lemma NoSlash()
    ensures '/' !in ".coverage.pid7"
  {
  }

  lemma ShardPrefix()
    ensures ".coverage." <= ".coverage.pid7"
  {
    assert ".coverage.pid7" == ".coverage." + "pid7";
  }

  lemma ShardPath()
    ensures "/d" + "/" + ".coverage.pid7" == SHARD
  {
  }

  lemma ShardListed()
    ensures Shards(DIRECTORY) == {SHARD} && Checked(DIRECTORY) == {SHARD}
  {
    var e := Entry(".coverage.pid7", false);
    NoSlash();
    ShardPrefix();
    ShardPath();
    assert DIRECTORY.listing == {e} && e in DIRECTORY.listing;
    assert Listed(DIRECTORY, e) && PathOf(DIRECTORY, e) == SHARD;
  }

  /** The shard is neither the parent's nor of process 8, yet the attribution test passes. */
  lemma ShardOfSeven()
    ensures !ParentShard(SHARD, EnvFor(FILES, DIRECTORY, READ))
    ensures !CarriesIdentity(SHARD, 8, "") && CarriesIdentity(SHARD, 7, "")
    ensures Attributable(SHARD, 8, "")
  {
    ShardParts();
    var parts := ["", "coverage", "pid7"];
    assert Decimal(5) == "5" && Decimal(7) == "7" && Decimal(8) == "8";
    assert "pid" + Decimal(7) == "pid7" == parts[2];
    assert |parts[0]| == 0 && |parts[1]| == 8 && |parts[2]| == 4 && parts[2][3] == '7';
    assert "pid" + Decimal(8) == "pid8" && "pid8"[3] == '8';
    assert |SHARD| != |"/d/.coverage"|;
    assert "" == parts[0];
  }

  lemma ExampleReads()
    ensures Readable(FILES, map[], EXPECTED) && Reads(FILES, map[], EXPECTED, READ)
  {
    assert forall pid :: !Noted(FILES, pid);
    assert ReadPid(FILES, map[], EXPECTED, 8) == Success(READ[8]);
    forall pid: nat ensures pid in READ <==> StartOf(pid) in FILES {
    }
  }

  lemma EightWants()
    ensures
      var env := EnvFor(FILES, DIRECTORY, READ);
      Good(8, READ[8], env) && DutyOf(READ[8]) == OwesShard && Wanted(8, READ[8], env) == Some(SHARD)
  {
    ShardListed();
    ShardOfSeven();
  }

  lemma ExampleReconciles()
    ensures
      var env := EnvFor(FILES, DIRECTORY, READ);
      Reconcilable(READ, env) && Consumption(READ, env, CONSUMED)
  {
    EightWants();
    var env := EnvFor(FILES, DIRECTORY, READ);
    forall q, path ensures Wants(READ, env, q, path) <==> q == 8 && path == SHARD {
    }
    assert First(READ, env, 8, SHARD);
  }

  /** Strict combine accepts the run, and process 8 consumes the shard of process 7. */
  lemma ForeignShardConsumed()
    ensures Exec(INITIAL, RUN).files == FILES && StrictRun(EXPECTED)
    ensures CombinedAs(FILES, map[], EXPECTED, DIRECTORY, READ, CONSUMED) && Settled(FILES, DIRECTORY, CONSUMED, 8)
    ensures CONSUMED[8] == SHARD && !CarriesIdentity(SHARD, 8, WORKER.token) && CarriesIdentity(SHARD, 7, OTHER.token)
  {
    RunEnds();
    ExampleReads();
    ExampleReconciles();
    ShardListed();
    ShardOfSeven();
    assert SHARD in CONSUMED.Values by {
      assert CONSUMED[8] == SHARD;
    }
  }

  /** The same combine accepts the run in which process 8 had begun to invalidate its receipt. */
  lemma AbandonedInvalidationAccepted()
    ensures Exec(INITIAL, ABANDONED) == At(FILES, MEASURING.(op := Invalidating, invalidated := true, crashed := true))
    ensures CombinedAs(FILES, map[], EXPECTED, DIRECTORY, READ, CONSUMED) && Settled(FILES, DIRECTORY, CONSUMED, 8)
  {
    AbandonedEnds();
    ForeignShardConsumed();
  }
}
