/**
 Paired execution of the measured and abrupt legs: the recording plugin of
 tools/runner_unit_environment.py and tools/runner_integration_population.py, the abrupt
 launch evidence of tools/runner_abrupt_evidence.py, and the two-leg loop of
 tools/runner_integration_execution.py. Pytest is the caller: it may run the hooks in any
 order and number, for any node. That it runs them only for items of its session is a
 condition (`InSession`) of the results that need it, and of no others.
 */
module PairedLegs {
  import opened Wrappers
  import opened Sequences
  import opened Population

  datatype Status = Passed | Skipped | Failed

  datatype TestRecord = TestRecord(id: NodeId, status: Status, duration: real, message: string)

  datatype Phase = Setup | Call | Teardown

  function RecordIds(records: seq<TestRecord>): seq<NodeId> {
    seq(|records|, i requires 0 <= i < |records| => records[i].id)
  }

  function NonNegative(d: real): real {
    if d < 0.0 then 0.0 else d
  }

  /** A failing report for a recorded node: failed for good, durations added, the first failure text kept. */
  function MergeFailure(prior: TestRecord, duration: real, message: string): TestRecord {
    TestRecord(prior.id, Failed, prior.duration + NonNegative(duration),
               if prior.status == Failed && prior.message != "" then prior.message
               else if message != "" then message else prior.message)
  }

  function Merged(r: TestRecord, nodeid: NodeId, status: Status, duration: real, message: string): TestRecord {
    if r.id == nodeid && status == Failed then MergeFailure(r, duration, message) else r
  }

  /** Which reports leave a record. */
  predicate Recording(phase: Phase, outcome: Status) {
    phase == Call || outcome == Failed || (phase == Setup && outcome == Skipped)
  }

  /** A node added to a list unless it is there. */
  function Once(ids: seq<NodeId>, x: NodeId): seq<NodeId> {
    if x in ids then ids else ids + [x]
  }

  /** The records after one more: a first report appends, a failing one merges, any other repeat is dropped. */
  function AddTo(records: seq<TestRecord>, nodeid: NodeId, status: Status, duration: real, message: string)
    : seq<TestRecord>
  {
    if nodeid !in RecordIds(records) then records + [TestRecord(nodeid, status, NonNegative(duration), message)]
    else seq(|records|, i requires 0 <= i < |records| => Merged(records[i], nodeid, status, duration, message))
  }

  class RecordingPlugin {
    var records: seq<TestRecord>
    var executed: seq<NodeId>
    var completed: seq<NodeId>
    var teardownFailed: bool

    ghost predicate Valid()
      reads this
    {
      Distinct(RecordIds(records)) && Distinct(executed) && Distinct(completed)
    }

    constructor ()
      ensures Valid() && records == [] && executed == [] && completed == [] && !teardownFailed
    {
      records, executed, completed, teardownFailed := [], [], [], false;
    }

    /** One record per node: the loop over the records finds the one to merge into. */
    method AddRecord(nodeid: NodeId, status: Status, duration: real, message: string)
      requires Valid()
      modifies this`records
      ensures Valid() && records == AddTo(old(records), nodeid, status, duration, message)
    {
      ghost var before := records;
      ghost var after := AddTo(records, nodeid, status, duration, message);
      AddedIds(records, nodeid, status, duration, message);
      for idx := 0 to |records|
        invariant records == before
        invariant forall k :: 0 <= k < idx ==> records[k].id != nodeid
      {
        if records[idx].id == nodeid {
          assert RecordIds(before)[idx] == nodeid;
          forall k | 0 <= k < |before| && k != idx ensures before[k].id != nodeid {
            assert RecordIds(before)[k] != RecordIds(before)[idx];
          }
          if status == Failed {
            records := records[idx := MergeFailure(records[idx], duration, message)];
          }
          assert records == after;
          return;
        }
      }
      assert nodeid !in RecordIds(before);
      records := records + [TestRecord(nodeid, status, NonNegative(duration), message)];
    }

    /** Raises (returns true) when the node already ran in this leg. */
    method RuntestProtocol(nodeid: NodeId) returns (raised: bool)
      requires Valid()
      modifies this`executed
      ensures Valid() && (raised <==> nodeid in old(executed))
      ensures executed == if raised then old(executed) else old(executed) + [nodeid]
    {
      if nodeid in executed {
        return true;
      }
      executed := executed + [nodeid];
      return false;
    }

    method LogReport(nodeid: NodeId, phase: Phase, outcome: Status, duration: real, message: string)
      returns (raised: bool)
      requires Valid()
      modifies this`records, this`completed, this`teardownFailed
      ensures Valid() && (raised <==> phase == Teardown && nodeid in old(completed))
      ensures completed == if phase == Teardown && !raised then old(completed) + [nodeid] else old(completed)
      ensures teardownFailed == (old(teardownFailed) || (phase == Teardown && outcome == Failed))
      ensures records ==
        if Recording(phase, outcome) then AddTo(old(records), nodeid, outcome, duration, message) else old(records)
    {
      if Recording(phase, outcome) {
        AddRecord(nodeid, outcome, duration, message);
      }
      if phase != Teardown {
        return false;
      }
      if outcome == Failed {
        teardownFailed := true;
      }
      if nodeid in completed {
        return true;
      }
      completed := completed + [nodeid];
      return false;
    }
  }

  lemma AddedIds(records: seq<TestRecord>, nodeid: NodeId, status: Status, duration: real, message: string)
    ensures RecordIds(AddTo(records, nodeid, status, duration, message)) == Once(RecordIds(records), nodeid)
    ensures Distinct(RecordIds(records)) ==> Distinct(RecordIds(AddTo(records, nodeid, status, duration, message)))
  {
    assert RecordIds(AddTo(records, nodeid, status, duration, message)) == Once(RecordIds(records), nodeid);
  }

  // ----- abrupt launches

  datatype Declaration = Declaration(nodeid: NodeId, role: string, expectedReturn: int, checkpoint: string)

  datatype LaunchRecord = LaunchRecord(nodeid: NodeId, role: string, pid: nat, checkpoint: string, returncode: int)

  /** What a launch has shown so far. */
  datatype Shown = Shown(pid: Option<nat>, checkpoint: Option<string>)

  /** The abrupt context as a value. */
  datatype Context = Context(current: Option<NodeId>, launches: map<NodeId, Shown>, records: map<NodeId, LaunchRecord>)

  class AbruptLaunch {
    const declaration: Declaration
    var pid: Option<nat>
    var checkpoint: Option<string>

    function View(): Shown
      reads this
    {
      Shown(pid, checkpoint)
    }

    constructor (declaration: Declaration)
      ensures this.declaration == declaration && View() == Shown(None, None)
    {
      this.declaration := declaration;
      pid, checkpoint := None, None;
    }

    method Launched(newPid: int) returns (raised: bool)
      modifies this
      ensures raised <==> old(pid).Some? || newPid <= 0
      ensures View() == if raised then old(View()) else old(View()).(pid := Some(newPid))
    {
      if pid.Some? || newPid <= 0 {
        return true;
      }
      pid := Some(newPid);
      return false;
    }

    method ObservedCheckpoint(value: string) returns (raised: bool)
      modifies this`checkpoint
      ensures raised <==> pid.None? || value != declaration.checkpoint
      ensures View() == if raised then old(View()) else old(View()).(checkpoint := Some(value))
    {
      if pid.None? || value != declaration.checkpoint {
        return true;
      }
      checkpoint := Some(value);
      return false;
    }
  }

  function FindDeclaration(nodeid: NodeId, declarations: seq<Declaration>): (r: Option<Declaration>)
    ensures r.Some? ==> r.value in declarations && r.value.nodeid == nodeid
    ensures r.None? ==> forall d :: d in declarations ==> d.nodeid != nodeid
  {
    if declarations == [] then None
    else if declarations[0].nodeid == nodeid then Some(declarations[0])
    else FindDeclaration(nodeid, declarations[1..])
  }

  class AbruptRunnerContext {
    const nodeids: seq<NodeId>
    const declarations: seq<Declaration>
    var records: map<NodeId, LaunchRecord>
    var launches: map<NodeId, AbruptLaunch>
    var current: Option<NodeId>

    ghost predicate Valid()
      reads this`launches
    {
      && (forall n :: n in launches ==> FindDeclaration(n, declarations) == Some(launches[n].declaration))
      && (forall n, k :: n in launches && k in launches && n != k ==> launches[n] != launches[k])
    }

    function LaunchViews(): map<NodeId, Shown>
      reads this`launches, launches.Values
    {
      map n | n in launches :: launches[n].View()
    }

    function View(): Context
      reads this, launches.Values
    {
      Context(current, LaunchViews(), records)
    }

    constructor (nodeids: seq<NodeId>, declarations: seq<Declaration>)
      ensures Valid() && this.nodeids == nodeids && this.declarations == declarations
      ensures launches == map[] && View() == Context(None, map[], map[])
    {
      this.nodeids, this.declarations := nodeids, declarations;
      records, launches, current := map[], map[], None;
    }

    method SelectTest(nodeid: NodeId) returns (raised: bool)
      requires Valid()
      modifies this`current
      ensures Valid() && (raised <==> nodeid !in nodeids)
      ensures current == if raised then old(current) else Some(nodeid)
    {
      if nodeid !in nodeids {
        return true;
      }
      current := Some(nodeid);
      return false;
    }

    /** A launch starts only for the selected node, in its declared role, and only once. */
    method Begin(role: string, sourceUnchanged: bool) returns (raised: bool)
      requires Valid()
      modifies this`launches
      ensures Valid()
      ensures !raised <==>
        && current.Some? && current.value !in old(launches) && sourceUnchanged
        && FindDeclaration(current.value, declarations).Some?
        && FindDeclaration(current.value, declarations).value.role == role
      ensures raised ==> launches == old(launches)
      ensures fresh(launches.Values - old(launches.Values))
      ensures LaunchViews() ==
        if raised then old(LaunchViews()) else old(LaunchViews())[current.value := Shown(None, None)]
    {
      if current.None? {
        return true;
      }
      var declaration := FindDeclaration(current.value, declarations);
      if declaration.None? || declaration.value.role != role || current.value in launches || !sourceUnchanged {
        return true;
      }
      var launch := new AbruptLaunch(declaration.value);
      launches := launches[declaration.value.nodeid := launch];
      return false;
    }

    /** The launched process of a node. */
    method Register(nodeid: NodeId, pid: int)
      requires Valid() && nodeid in launches
      modifies launches[nodeid]
      ensures Valid()
      ensures
        var was := old(launches[nodeid].View());
        LaunchViews() ==
          if was.pid.None? && pid > 0 then old(LaunchViews())[nodeid := was.(pid := Some(pid))] else old(LaunchViews())
    {
      var launch := launches[nodeid];
      var _ := launch.Launched(pid);
      assert forall n :: n in launches && n != nodeid ==> launches[n].View() == old(launches[n].View());
    }

    /** A checkpoint of a node's launch. */
    method Notice(nodeid: NodeId, value: string)
      requires Valid() && nodeid in launches
      modifies launches[nodeid]
      ensures Valid()
      ensures
        var was := old(launches[nodeid].View());
        LaunchViews() ==
          if was.pid.Some? && value == launches[nodeid].declaration.checkpoint
          then old(LaunchViews())[nodeid := was.(checkpoint := Some(value))] else old(LaunchViews())
    {
      var launch := launches[nodeid];
      var _ := launch.ObservedCheckpoint(value);
      assert forall n :: n in launches && n != nodeid ==> launches[n].View() == old(launches[n].View());
    }

    /** A record is written once per node, and only for a proved launch. */
    method Settle(nodeid: NodeId, returncode: int, cleanup: bool, sourceUnchanged: bool) returns (raised: bool)
      requires Valid() && nodeid in launches
      modifies this`records
      ensures Valid()
      ensures !raised <==>
        && sourceUnchanged && cleanup && nodeid !in old(records)
        && launches[nodeid].pid.Some? && launches[nodeid].checkpoint.Some?
        && returncode == launches[nodeid].declaration.expectedReturn
      ensures records ==
        if raised then old(records)
        else old(records)[nodeid := LaunchRecord(nodeid, launches[nodeid].declaration.role, launches[nodeid].pid.value,
                                                 launches[nodeid].checkpoint.value, returncode)]
    {
      var launch := launches[nodeid];
      if !sourceUnchanged || launch.pid.None? || launch.checkpoint.None? || !cleanup
         || returncode != launch.declaration.expectedReturn || nodeid in records {
        return true;
      }
      records := records[nodeid := LaunchRecord(nodeid, launch.declaration.role, launch.pid.value,
                                                launch.checkpoint.value, returncode)];
      return false;
    }
  }

  ghost predicate Proved(r: LaunchRecord, d: Declaration) {
    r.nodeid == d.nodeid && r.role == d.role && r.checkpoint == d.checkpoint && r.returncode == d.expectedReturn
  }

  // ----- one leg

  /** What pytest may call during a leg; launch calls come from the test bodies. */
  datatype HookCall =
    | Protocol(node: NodeId)
    | Report(node: NodeId, phase: Phase, outcome: Status, duration: real, message: string)
    | Begin(role: string, sourceUnchanged: bool)
    | Launched(node: NodeId, pid: int)
    | Checkpoint(node: NodeId, value: string)
    | Settle(node: NodeId, returncode: int, cleanup: bool, sourceUnchanged: bool)

  /** Everything outside the runner's control in one leg. */
  datatype LegEnv = LegEnv(
    sourceUnchanged: bool, raw: seq<NodeId>, eligible: seq<NodeId>, calls: seq<HookCall>,
    exit: Option<int>, raised: bool, instrumentationError: bool, valid: bool)

  datatype LegEntry =
    | NotStarted
    | Ran(passed: bool, safe: bool, records: seq<TestRecord>, executed: seq<NodeId>, completed: seq<NodeId>,
          roles: map<NodeId, LaunchRecord>)

  /** The leg plugin's selection from what pytest collected; None is a collection error. */
  function SelectLeg(p: Partition, target: seq<NodeId>, scoped: bool, raw: seq<NodeId>, eligible: seq<NodeId>)
    : (r: Option<seq<NodeId>>)
    requires ValidPartition(p) && (target == p.measured || target == p.abrupt)
    ensures r.Some? <==> raw == p.collected && eligible == p.all && (target != [] || scoped)
    ensures r.Some? ==> r.value == target
  {
    var selected := Within(eligible, Elements(target));
    if raw != p.collected || eligible != p.all || (selected == [] && !scoped) then None else Some(selected)
  }

  // ----- what a sequence of calls leaves behind

  function RecordsBy(calls: seq<HookCall>): seq<TestRecord> {
    if calls == [] then []
    else
      var rest, c := RecordsBy(calls[..|calls| - 1]), calls[|calls| - 1];
      if c.Report? && Recording(c.phase, c.outcome) then AddTo(rest, c.node, c.outcome, c.duration, c.message) else rest
  }

  function ExecutedBy(calls: seq<HookCall>): seq<NodeId> {
    if calls == [] then []
    else
      var rest, c := ExecutedBy(calls[..|calls| - 1]), calls[|calls| - 1];
      if c.Protocol? then Once(rest, c.node) else rest
  }

  function CompletedBy(calls: seq<HookCall>): seq<NodeId> {
    if calls == [] then []
    else
      var rest, c := CompletedBy(calls[..|calls| - 1]), calls[|calls| - 1];
      if c.Report? && c.phase == Teardown then Once(rest, c.node) else rest
  }

  predicate TornBy(calls: seq<HookCall>) {
    exists i :: 0 <= i < |calls| && calls[i].Report? && calls[i].phase == Teardown && calls[i].outcome == Failed
  }

  /** One call to the abrupt context; `ran` are the nodes that had started before. */
  function AfterCall(nodeids: seq<NodeId>, declarations: seq<Declaration>, ran: seq<NodeId>, ctx: Context, call: HookCall)
    : Context
  {
    match call
    case Protocol(n) => if n !in ran && n in nodeids then ctx.(current := Some(n)) else ctx
    case Report(_, _, _, _, _) => ctx
    case Begin(role, sourceUnchanged) =>
      if ctx.current.None? then ctx
      else
        var n, d := ctx.current.value, FindDeclaration(ctx.current.value, declarations);
        if d.Some? && d.value.role == role && n !in ctx.launches && sourceUnchanged
        then ctx.(launches := ctx.launches[n := Shown(None, None)]) else ctx
    case Launched(n, pid) =>
      if n in ctx.launches && ctx.launches[n].pid.None? && pid > 0
      then ctx.(launches := ctx.launches[n := ctx.launches[n].(pid := Some(pid))]) else ctx
    case Checkpoint(n, value) =>
      var d := FindDeclaration(n, declarations);
      if n in ctx.launches && ctx.launches[n].pid.Some? && d.Some? && value == d.value.checkpoint
      then ctx.(launches := ctx.launches[n := ctx.launches[n].(checkpoint := Some(value))]) else ctx
    case Settle(n, returncode, cleanup, sourceUnchanged) =>
      var d := FindDeclaration(n, declarations);
      if && n in ctx.launches && ctx.launches[n].pid.Some? && ctx.launches[n].checkpoint.Some? && d.Some?
         && returncode == d.value.expectedReturn && cleanup && sourceUnchanged && n !in ctx.records
      then ctx.(records := ctx.records[n := LaunchRecord(n, d.value.role, ctx.launches[n].pid.value,
                                                        ctx.launches[n].checkpoint.value, returncode)])
      else ctx
  }

  function ContextBy(nodeids: seq<NodeId>, declarations: seq<Declaration>, calls: seq<HookCall>): Context {
    if calls == [] then Context(None, map[], map[])
    else
      var rest := calls[..|calls| - 1];
      AfterCall(nodeids, declarations, ExecutedBy(rest), ContextBy(nodeids, declarations, rest), calls[|calls| - 1])
  }

  /** Only nodes of the leg launch, with the declared checkpoint, and every settled launch proves its declaration. */
  ghost predicate ContextOk(ctx: Context, nodeids: seq<NodeId>, declarations: seq<Declaration>) {
    && (ctx.current.Some? ==> ctx.current.value in nodeids)
    && (forall n :: n in ctx.launches ==>
          && n in nodeids && FindDeclaration(n, declarations).Some?
          && (ctx.launches[n].checkpoint.Some? ==>
                ctx.launches[n].checkpoint.value == FindDeclaration(n, declarations).value.checkpoint))
    && (forall n :: n in ctx.records ==>
          n in ctx.launches && Proved(ctx.records[n], FindDeclaration(n, declarations).value))
  }

  lemma CallKeepsContext(nodeids: seq<NodeId>, declarations: seq<Declaration>, ran: seq<NodeId>, ctx: Context,
                         call: HookCall)
    requires ContextOk(ctx, nodeids, declarations)
    ensures ContextOk(AfterCall(nodeids, declarations, ran, ctx, call), nodeids, declarations)
  {
  }

  lemma {:induction false} ContextStaysOk(nodeids: seq<NodeId>, declarations: seq<Declaration>, calls: seq<HookCall>)
    ensures ContextOk(ContextBy(nodeids, declarations, calls), nodeids, declarations)
    decreases |calls|
  {
    if calls != [] {
      var rest := calls[..|calls| - 1];
      ContextStaysOk(nodeids, declarations, rest);
      CallKeepsContext(nodeids, declarations, ExecutedBy(rest), ContextBy(nodeids, declarations, rest),
                       calls[|calls| - 1]);
    }
  }

  /** The nodes pytest names to the plugin. */
  predicate Names(call: HookCall, x: NodeId) {
    (call.Protocol? || call.Report?) && call.node == x
  }

  /** Pytest's own promise: it runs hooks only for items of the session. */
  ghost predicate InSession(calls: seq<HookCall>, items: seq<NodeId>) {
    forall i, x :: 0 <= i < |calls| && Names(calls[i], x) ==> x in items
  }

  /** A call of a test body about a launch that has begun. */
  method DeliverLaunch(abrupt: AbruptRunnerContext, call: HookCall, ghost ran: seq<NodeId>)
    requires abrupt.Valid() && (call.Launched? || call.Checkpoint? || call.Settle?) && call.node in abrupt.launches
    modifies abrupt`records, abrupt.launches[call.node]
    ensures abrupt.Valid()
    ensures abrupt.View() == AfterCall(abrupt.nodeids, abrupt.declarations, ran, old(abrupt.View()), call)
  {
    match call
    case Launched(node, pid) =>
      abrupt.Register(node, pid);
    case Checkpoint(node, value) =>
      abrupt.Notice(node, value);
    case Settle(node, returncode, cleanup, sourceUnchanged) =>
      var _ := abrupt.Settle(node, returncode, cleanup, sourceUnchanged);
  }

  method DeliverToContext(abrupt: AbruptRunnerContext, call: HookCall, ghost ran: seq<NodeId>)
    requires abrupt.Valid() && (call.Protocol? ==> call.node !in ran)
    modifies abrupt, abrupt.launches.Values
    ensures abrupt.Valid() && fresh(abrupt.launches.Values - old(abrupt.launches.Values))
    ensures abrupt.View() == AfterCall(abrupt.nodeids, abrupt.declarations, ran, old(abrupt.View()), call)
  {
    if call.Protocol? {
      var _ := abrupt.SelectTest(call.node);
    } else if call.Begin? {
      var _ := abrupt.Begin(call.role, call.sourceUnchanged);
    } else if !call.Report? && call.node in abrupt.launches {
      DeliverLaunch(abrupt, call, ran);
    }
  }

  /** One call of pytest or of a test body: the plugin first, then the abrupt context if there is one. */
  method Deliver(plugin: RecordingPlugin, abrupt: AbruptRunnerContext?, call: HookCall)
    requires plugin.Valid() && (abrupt != null ==> abrupt.Valid())
    modifies plugin, abrupt, if abrupt == null then {} else abrupt.launches.Values
    ensures plugin.Valid()
    ensures abrupt != null ==> abrupt.Valid() && fresh(abrupt.launches.Values - old(abrupt.launches.Values))
    ensures abrupt != null ==>
      abrupt.View() == AfterCall(abrupt.nodeids, abrupt.declarations, old(plugin.executed), old(abrupt.View()), call)
    ensures plugin.records ==
      if call.Report? && Recording(call.phase, call.outcome)
      then AddTo(old(plugin.records), call.node, call.outcome, call.duration, call.message) else old(plugin.records)
    ensures plugin.executed == if call.Protocol? then Once(old(plugin.executed), call.node) else old(plugin.executed)
    ensures plugin.completed ==
      if call.Report? && call.phase == Teardown then Once(old(plugin.completed), call.node) else old(plugin.completed)
    ensures plugin.teardownFailed <==>
      old(plugin.teardownFailed) || (call.Report? && call.phase == Teardown && call.outcome == Failed)
  {
    var raised := false;
    if call.Protocol? {
      raised := plugin.RuntestProtocol(call.node);
    } else if call.Report? {
      raised := plugin.LogReport(call.node, call.phase, call.outcome, call.duration, call.message);
    }
    if abrupt != null && !raised {
      DeliverToContext(abrupt, call, old(plugin.executed));
    }
  }

  ghost predicate ExactlyOnce(ids: seq<NodeId>, planned: seq<NodeId>) {
    Distinct(ids) && Elements(ids) == Elements(planned)
  }

  /** Every settled launch proves the declaration of its node. */
  ghost predicate RolesProved(roles: map<NodeId, LaunchRecord>, declarations: seq<Declaration>) {
    forall n :: n in roles ==>
      FindDeclaration(n, declarations).Some? && Proved(roles[n], FindDeclaration(n, declarations).value)
  }

  /**
   What a leg's entry says, whatever pytest and the tests did. A passed leg has one record for each
   planned node if and only if every recorded node is planned.
   */
  ghost predicate LegOutcome(e: LegEntry, planned: seq<NodeId>, isAbrupt: bool, declarations: seq<Declaration>) {
    e.Ran? ==>
      && Distinct(RecordIds(e.records)) && Distinct(e.executed) && Distinct(e.completed)
      && e.roles.Keys <= Elements(planned) && RolesProved(e.roles, declarations)
      && (e.safe ==> Elements(e.executed) == Elements(e.completed))
      && (e.passed ==> e.safe && |e.records| == |planned|)
      && (e.passed ==>
            (ExactlyOnce(RecordIds(e.records), planned) <==> Elements(RecordIds(e.records)) <= Elements(planned)))
      && (e.passed && isAbrupt ==> e.roles.Keys == Elements(planned))
  }

  /** Only planned nodes are recorded or run. */
  ghost predicate Planned(e: LegEntry, planned: seq<NodeId>) {
    e.Ran? ==>
      Elements(RecordIds(e.records)) <= Elements(planned) && Elements(e.executed) <= Elements(planned)
  }

  /** As many settled launches as planned nodes, each for a planned node, is one for each. */
  lemma RolesCover(roles: set<NodeId>, planned: seq<NodeId>)
    requires Distinct(planned) && roles <= Elements(planned)
    ensures |roles| == |planned| <==> roles == Elements(planned)
  {
    DistinctCount(planned);
    if |roles| == |planned| {
      SubsetSameSize(roles, Elements(planned));
    }
  }

  /** As many records as planned nodes, one node each, is one for each. */
  lemma RecordsCover(ids: seq<NodeId>, planned: seq<NodeId>)
    requires Distinct(ids) && Distinct(planned) && forall x :: x in ids ==> x in planned
    ensures |ids| == |planned| <==> Elements(ids) == Elements(planned)
  {
    DistinctCount(ids);
    DistinctCount(planned);
    if |ids| == |planned| {
      Pigeonhole(ids, planned);
    }
  }

  method RunSession(plugin: RecordingPlugin, abrupt: AbruptRunnerContext?, calls: seq<HookCall>)
    requires plugin.Valid() && (abrupt != null ==> abrupt.Valid())
    requires plugin.records == [] && plugin.executed == [] && plugin.completed == [] && !plugin.teardownFailed
    modifies plugin, abrupt, if abrupt == null then {} else abrupt.launches.Values
    requires abrupt != null ==> abrupt.View() == Context(None, map[], map[])
    ensures plugin.Valid() && (abrupt != null ==> abrupt.Valid())
    ensures abrupt != null ==> abrupt.View() == ContextBy(abrupt.nodeids, abrupt.declarations, calls)
    ensures plugin.records == RecordsBy(calls) && plugin.executed == ExecutedBy(calls)
    ensures plugin.completed == CompletedBy(calls) && (plugin.teardownFailed <==> TornBy(calls))
  {
    for i := 0 to |calls|
      invariant plugin.Valid()
      invariant abrupt != null ==>
        abrupt.Valid() && fresh(abrupt.launches.Values - old(abrupt.launches.Values))
      invariant abrupt != null ==> abrupt.View() == ContextBy(abrupt.nodeids, abrupt.declarations, calls[..i])
      invariant plugin.records == RecordsBy(calls[..i]) && plugin.executed == ExecutedBy(calls[..i])
      invariant plugin.completed == CompletedBy(calls[..i]) && (plugin.teardownFailed <==> TornBy(calls[..i]))
    {
      assert calls[..i + 1][..i] == calls[..i] && calls[..i + 1][i] == calls[i];
      TornMore(calls, i);
      Deliver(plugin, abrupt, calls[i]);
    }
    assert calls[..|calls|] == calls;
  }

  lemma TornMore(calls: seq<HookCall>, i: nat)
    requires i < |calls|
    ensures TornBy(calls[..i + 1]) <==>
            TornBy(calls[..i]) || (calls[i].Report? && calls[i].phase == Teardown && calls[i].outcome == Failed)
  {
    assert calls[..i + 1][i] == calls[i];
    assert forall j :: 0 <= j < i ==> calls[..i][j] == calls[..i + 1][j];
  }

  /** Whatever is recorded or run was named by pytest. */
  lemma {:induction false} OnlyNamed(calls: seq<HookCall>, items: seq<NodeId>)
    requires InSession(calls, items)
    ensures Elements(RecordIds(RecordsBy(calls))) <= Elements(items) && Elements(ExecutedBy(calls)) <= Elements(items)
    decreases |calls|
  {
    if calls != [] {
      var rest, c := calls[..|calls| - 1], calls[|calls| - 1];
      forall i, x | 0 <= i < |rest| && Names(rest[i], x) ensures x in items {
        assert rest[i] == calls[i];
      }
      OnlyNamed(rest, items);
      if c.Report? {
        AddedIds(RecordsBy(rest), c.node, c.outcome, c.duration, c.message);
      }
      if c.Protocol? || c.Report? {
        assert Names(calls[|calls| - 1], c.node);
      }
    }
  }

  /** A pytest session, and what the plugin and the abrupt context kept of it. */
  method Session(planned: seq<NodeId>, isAbrupt: bool, declarations: seq<Declaration>, calls: seq<HookCall>)
    returns (records: seq<TestRecord>, executed: seq<NodeId>, completed: seq<NodeId>,
             roles: map<NodeId, LaunchRecord>, torn: bool)
    ensures Distinct(RecordIds(records)) && Distinct(executed) && Distinct(completed)
    ensures records == RecordsBy(calls) && executed == ExecutedBy(calls)
    ensures completed == CompletedBy(calls) && (torn <==> TornBy(calls))
    ensures roles.Keys <= Elements(planned) && RolesProved(roles, declarations)
    ensures roles == if isAbrupt then ContextBy(planned, declarations, calls).records else map[]
  {
    var plugin := new RecordingPlugin();
    var context := new AbruptRunnerContext(planned, declarations);
    var abrupt: AbruptRunnerContext? := if isAbrupt then context else null;
    RunSession(plugin, abrupt, calls);
    roles := if abrupt != null then abrupt.records else map[];
    ContextStaysOk(planned, declarations, calls);
    return plugin.records, plugin.executed, plugin.completed, roles, plugin.teardownFailed;
  }

  /** The counting verdict is the covering one exactly when only planned nodes are recorded. */
  lemma CountingVerdict(planned: seq<NodeId>, ids: seq<NodeId>, roles: set<NodeId>)
    requires Distinct(planned) && Distinct(ids) && roles <= Elements(planned)
    ensures |ids| == |planned| ==> (Elements(ids) == Elements(planned) <==> Elements(ids) <= Elements(planned))
    ensures Elements(ids) <= Elements(planned) ==> (|ids| == |planned| <==> Elements(ids) == Elements(planned))
    ensures |roles| == |planned| <==> roles == Elements(planned)
  {
    RolesCover(roles, planned);
    if Elements(ids) <= Elements(planned) {
      assert forall x :: x in ids ==> x in Elements(ids);
      RecordsCover(ids, planned);
    }
  }

  /** The items of the session: the selected nodes, or none when the collection was refused. */
  function SessionItems(p: Partition, isAbrupt: bool, scoped: bool, env: LegEnv): seq<NodeId>
    requires ValidPartition(p)
  {
    var selected := SelectLeg(p, if isAbrupt then p.abrupt else p.measured, scoped, env.raw, env.eligible);
    if selected.Some? then selected.value else []
  }

  /** One leg: any calls in any order, then the verdict by counting. */
  method RunLeg(p: Partition, isAbrupt: bool, scoped: bool, declarations: seq<Declaration>, env: LegEnv)
    returns (e: LegEntry)
    requires ValidPartition(p)
    ensures e.Ran? && LegOutcome(e, if isAbrupt then p.abrupt else p.measured, isAbrupt, declarations)
    ensures e.records == RecordsBy(env.calls) && e.executed == ExecutedBy(env.calls)
    ensures e.completed == CompletedBy(env.calls)
    ensures e.roles == if isAbrupt then ContextBy(p.abrupt, declarations, env.calls).records else map[]
    ensures e.safe <==>
      && !env.raised && !env.instrumentationError && !TornBy(env.calls)
      && Elements(ExecutedBy(env.calls)) == Elements(CompletedBy(env.calls))
      && (env.exit == Some(0) || env.exit == Some(1))
    ensures e.passed <==>
      && e.safe && env.exit == Some(0) && env.valid
      && |e.records| == |if isAbrupt then p.abrupt else p.measured|
      && (isAbrupt ==> e.roles.Keys == Elements(p.abrupt))
    ensures InSession(env.calls, SessionItems(p, isAbrupt, scoped, env)) ==>
      Planned(e, if isAbrupt then p.abrupt else p.measured)
  {
    var planned := if isAbrupt then p.abrupt else p.measured;
    var records, executed, completed, roles, torn := Session(planned, isAbrupt, declarations, env.calls);
    var safe := !env.raised && !env.instrumentationError && !torn && Elements(executed) == Elements(completed)
                && (env.exit == Some(0) || env.exit == Some(1));
    var passed := safe && env.exit == Some(0) && env.valid && |records| == |planned|
                  && (!isAbrupt || |roles.Keys| == |planned|);
    CountingVerdict(planned, RecordIds(records), roles.Keys);
    if InSession(env.calls, SessionItems(p, isAbrupt, scoped, env)) {
      OnlyNamed(env.calls, SessionItems(p, isAbrupt, scoped, env));
    }
    e := Ran(passed, safe, records, executed, completed, roles);
  }

  /** The records and executions of both legs together. */
  function AllRecords(m: LegEntry, a: LegEntry): seq<NodeId> {
    (if m.Ran? then RecordIds(m.records) else []) + (if a.Ran? then RecordIds(a.records) else [])
  }

  function AllExecuted(m: LegEntry, a: LegEntry): seq<NodeId> {
    (if m.Ran? then m.executed else []) + (if a.Ran? then a.executed else [])
  }

  /** No node runs or is recorded twice across the legs, and two passed legs cover the sealed population. */
  lemma PairedCoverage(p: Partition, m: LegEntry, a: LegEntry, declarations: seq<Declaration>)
    requires ValidPartition(p) && Planned(m, p.measured) && Planned(a, p.abrupt)
    requires LegOutcome(m, p.measured, false, declarations) && LegOutcome(a, p.abrupt, true, declarations)
    ensures Distinct(AllRecords(m, a)) && Elements(AllRecords(m, a)) <= Elements(p.all)
    ensures Distinct(AllExecuted(m, a)) && Elements(AllExecuted(m, a)) <= Elements(p.all)
    ensures m.Ran? && m.passed && a.Ran? && a.passed ==> ExactlyOnce(AllRecords(m, a), p.all)
  {
    var mr, ar := if m.Ran? then RecordIds(m.records) else [], if a.Ran? then RecordIds(a.records) else [];
    var me, ae := if m.Ran? then m.executed else [], if a.Ran? then a.executed else [];
    DisjointConcat(mr, ar, p);
    DisjointConcat(me, ae, p);
  }

  lemma DisjointConcat(x: seq<NodeId>, y: seq<NodeId>, p: Partition)
    requires ValidPartition(p) && Distinct(x) && Distinct(y)
    requires Elements(x) <= Elements(p.measured) && Elements(y) <= Elements(p.abrupt)
    ensures Distinct(x + y) && Elements(x + y) == Elements(x) + Elements(y) <= Elements(p.all)
  {
    forall i, j | 0 <= i < |x| && 0 <= j < |y| ensures x[i] != y[j] {
      assert x[i] in Elements(x) && y[j] in Elements(y);
    }
  }

  /** In both legs pytest runs hooks only for the items of the session. */
  ghost predicate PytestKeepsSession(p: Partition, scoped: bool, measuredEnv: LegEnv, abruptEnv: LegEnv)
    requires ValidPartition(p)
  {
    && InSession(measuredEnv.calls, SessionItems(p, false, scoped, measuredEnv))
    && InSession(abruptEnv.calls, SessionItems(p, true, scoped, abruptEnv))
  }

  /** The two-leg loop: measured first, then abrupt; never after an unsafe leg or a changed source. */
  method ExecuteLegs(p: Partition, scoped: bool, declarations: seq<Declaration>,
                     measuredEnv: LegEnv, abruptEnv: LegEnv)
    returns (m: LegEntry, a: LegEntry, aborted: bool)
    requires ValidPartition(p)
    ensures LegOutcome(m, p.measured, false, declarations) && LegOutcome(a, p.abrupt, true, declarations)
    ensures m.Ran? <==> p.measured != [] && measuredEnv.sourceUnchanged
    ensures a.Ran? <==>
      && p.abrupt != [] && abruptEnv.sourceUnchanged
      && (p.measured != [] ==> m.Ran? && m.safe)
    ensures aborted <==>
      || (p.measured != [] && !measuredEnv.sourceUnchanged)
      || (p.abrupt != [] && !abruptEnv.sourceUnchanged && (m.Ran? ==> m.safe))
    ensures PytestKeepsSession(p, scoped, measuredEnv, abruptEnv) ==>
      && Distinct(AllRecords(m, a)) && Distinct(AllExecuted(m, a))
      && (m.Ran? && m.passed && a.Ran? && a.passed ==> ExactlyOnce(AllRecords(m, a), p.all))
  {
    m, a, aborted := NotStarted, NotStarted, false;
    var safe := true;
    var legs := [false, true];
    for i := 0 to 2
      invariant !aborted
      invariant LegOutcome(m, p.measured, false, declarations) && LegOutcome(a, p.abrupt, true, declarations)
      invariant PytestKeepsSession(p, scoped, measuredEnv, abruptEnv) ==> Planned(m, p.measured) && Planned(a, p.abrupt)
      invariant i == 0 ==> m.NotStarted? && safe
      invariant i <= 1 ==> a.NotStarted?
      invariant i > 0 ==> (m.Ran? <==> p.measured != []) && (m.Ran? ==> measuredEnv.sourceUnchanged)
      invariant i == 1 ==> safe == (m.Ran? ==> m.safe)
      invariant i == 2 ==> (a.Ran? <==> p.abrupt != [] && (m.Ran? ==> m.safe))
      invariant i == 2 && a.Ran? ==> abruptEnv.sourceUnchanged
    {
      var isAbrupt := legs[i];
      var nodes := if isAbrupt then p.abrupt else p.measured;
      if nodes != [] && safe {
        var env := if isAbrupt then abruptEnv else measuredEnv;
        if !env.sourceUnchanged {
          aborted := true;
          break;
        }
        var e := RunLeg(p, isAbrupt, scoped, declarations, env);
        safe := e.safe;
        if isAbrupt {
          a := e;
        } else {
          m := e;
        }
      }
    }
    if PytestKeepsSession(p, scoped, measuredEnv, abruptEnv) {
      PairedCoverage(p, m, a, declarations);
    }
  }

  /** Without pytest's promise: one report of a node outside the session, and the leg passes without its planned node. */
  method ForeignReportPasses() returns (e: LegEntry)
    ensures e.Ran? && e.passed && RecordIds(e.records) == ["other"] && !ExactlyOnce(RecordIds(e.records), ["test"])
  {
    var p := Partition(["test"], ["test"], [], [], ["test"]);
    var report := Report("other", Call, Passed, 0.0, "");
    var env := LegEnv(true, ["test"], ["test"], [report], Some(0), false, false, true);
    OneNodePartition(p);
    e := RunLeg(p, false, false, [], env);
    assert [report][..0] == [];
    assert "other" in Elements(["other"]) && |"other"| != |"test"|;
  }

  lemma OneNodePartition(p: Partition)
    requires p == Partition(["test"], ["test"], [], [], ["test"])
    ensures ValidPartition(p)
  {
    assert p.collected[..0] == [];
    assert Elements(p.deferred) == {} && Elements(p.measured) == {"test"};
  }
}
