/**
 Child side of the coverage receipt protocol (tools/runner_coverage_template.py): any number of
 child processes, with process numbers and tokens that may repeat, register by exclusively
 creating marker files, and later settle, invalidate or finish their receipts. Each file system
 call is one step, so a run is any interleaving, with crashes and failing calls anywhere.
 */
module ReceiptProtocol {
  datatype Key = PidKey(pid: nat) | TokenKey(token: string)

  datatype Kind = Start | Exit | Shard

  datatype Name = Marker(key: Key, kind: Kind) | FailureNote(pid: nat, outer: bool)

  datatype Identity = Identity(
    pid: nat, ppid: nat, invocation: string, suite: string, revision: string, token: string,
    role: string, owner: string, launchShape: string)

  datatype CovStart = Pending | Zero | One

  /** File contents; `Blank` is a file created or truncated and not yet written. */
  datatype Content =
    | Blank
    | StartMarker(id: Identity, covStart: CovStart, bootstrapError: string)
    | Receipt(id: Identity, shard: string, error: string, complete: bool, measurement: string)
    | ShardName(shard: string)
    | Note(id: Identity)

  const AUXILIARY := "auxiliary-runtime"

  datatype Phase = Registering | Lost | Registered

  datatype Op = Idle | Settling | Invalidating | Finishing

  datatype Child = Child(
    id: Identity, made: nat, phase: Phase, started: bool, bootstrapError: string,
    op: Op, invalidated: bool, open: set<Name>, unwritten: bool, crashed: bool)

  /** `creator` records which child created each marker; no child reads it. */
  datatype State = State(files: map<Name, Content>, creator: map<Name, nat>, children: map<nat, Child>)

  const INITIAL := State(map[], map[], map[])

  function Rank(k: Kind): nat {
    match k case Start => 0 case Exit => 1 case Shard => 2
  }

  function KindAt(i: nat): Kind {
    if i == 0 then Start else if i == 1 then Exit else Shard
  }

  /** How many files a child must create: three for its process number, three for its token if any. */
  function PlanLength(id: Identity): nat {
    if id.token == "" then 3 else 6
  }

  /** The files in creation order. */
  function PlanAt(id: Identity, i: nat): Name {
    if i < 3 then Marker(PidKey(id.pid), KindAt(i)) else Marker(TokenKey(id.token), KindAt(i - 3))
  }

  /** Has the child created the file itself? */
  predicate HasMade(child: Child, n: Name) {
    n.Marker? &&
    match n.key
    case PidKey(pid) => pid == child.id.pid && Rank(n.kind) < child.made
    case TokenKey(token) => token == child.id.token && 3 + Rank(n.kind) < child.made
  }

  datatype Action =
    | Spawn(c: nat, id: Identity)
    | Create(c: nat)
    | WritePending(c: nat)
    | CreateFails(c: nat)
    | NoManifest(c: nat)
    | WriteFailure(c: nat, outer: bool, torn: bool)
    | Bootstrap(c: nat, started: bool, bootstrapError: string)
    | RewriteStart(c: nat, key: Key, torn: bool)
    | Begin(c: nat, op: Op)
    | WriteHandle(c: nat, name: Name, shard: string, error: string, measurement: string)
    | HandleFails(c: nat, name: Name)
    | End(c: nat)
    | Crash(c: nat)

  predicate Alive(s: State, c: nat) {
    c in s.children && !s.children[c].crashed
  }

  function Update(s: State, c: nat, child: Child): State {
    s.(children := s.children[c := child])
  }

  /**
   Exclusive creation: possible only while the next planned name does not exist. The file is empty
   until written, and a start marker is written before the next file is created.
   */
  function ApplyCreate(s: State, c: nat): State
    requires Alive(s, c)
  {
    var child := s.children[c];
    if child.phase != Registering || child.made >= PlanLength(child.id) || child.unwritten then s
    else
      var name := PlanAt(child.id, child.made);
      if name in s.files then s
      else
        var open := if name.kind != Start then child.open + {name} else child.open;
        State(s.files[name := Blank], s.creator[name := c],
              s.children[c := child.(made := child.made + 1, open := open, unwritten := name.kind == Start)])
  }

  /** The text of a start marker just created. */
  function ApplyWritePending(s: State, c: nat): State
    requires Alive(s, c)
  {
    var child := s.children[c];
    if child.phase != Registering || !child.unwritten || child.made == 0 then s
    else
      State(s.files[PlanAt(child.id, child.made - 1) := StartMarker(child.id, Pending, "")], s.creator,
            s.children[c := child.(unwritten := false)])
  }

  function ApplyWriteFailure(s: State, c: nat, outer: bool, torn: bool): State
    requires Alive(s, c)
  {
    var child := s.children[c];
    if child.phase != Lost || child.id.role == AUXILIARY then s
    else s.(files := s.files[FailureNote(child.id.pid, outer) := if torn then Blank else Note(child.id)])
  }

  /** Registration is complete once every planned file was created; the collector may fail to start. */
  function ApplyBootstrap(s: State, c: nat, started: bool, bootstrapError: string): State
    requires Alive(s, c)
  {
    var child := s.children[c];
    if child.phase != Registering || child.made != PlanLength(child.id) then s
    else Update(s, c, child.(phase := Registered, started := started, bootstrapError := bootstrapError))
  }

  function ApplyRewriteStart(s: State, c: nat, key: Key, torn: bool): State
    requires Alive(s, c)
  {
    var child := s.children[c];
    if child.phase != Registered || !HasMade(child, Marker(key, Start)) then s
    else
      var content := if torn then Blank
                     else StartMarker(child.id, if child.started then One else Zero, child.bootstrapError);
      s.(files := s.files[Marker(key, Start) := content])
  }

  /** Settling and finishing are refused after an invalidation began. */
  function ApplyBegin(s: State, c: nat, op: Op): State
    requires Alive(s, c)
  {
    var child := s.children[c];
    if child.phase != Registered || child.op != Idle || op == Idle then s
    else if op == Invalidating then Update(s, c, child.(op := op, invalidated := true))
    else if child.invalidated then s
    else Update(s, c, child.(op := op))
  }

  function Written(child: Child, name: Name, shard: string, error: string, measurement: string): Content {
    if name.Marker? && name.kind == Exit then
      if child.op == Invalidating then Receipt(child.id, "", "unexpected_release", false, "unavailable")
      else Receipt(child.id, shard, error, true, measurement)
    else if child.op == Invalidating then Blank
    else ShardName(shard)
  }

  /** One terminal file rewritten through a handle still open; all but settling then close it. */
  function ApplyWriteHandle(s: State, c: nat, name: Name, shard: string, error: string, measurement: string): State
    requires Alive(s, c)
  {
    var child := s.children[c];
    if child.op == Idle || name !in child.open then s
    else
      var after := if child.op == Settling then child else child.(open := child.open - {name});
      State(s.files[name := Written(child, name, shard, error, measurement)], s.creator, s.children[c := after])
  }

  /** A write that raises ends the operation; finishing still closes the handle. */
  function ApplyHandleFails(s: State, c: nat, name: Name): State
    requires Alive(s, c)
  {
    var child := s.children[c];
    if child.op == Idle || name !in child.open then s
    else Update(s, c, child.(op := Idle, open := if child.op == Finishing then child.open - {name} else child.open))
  }

  function ApplyLive(s: State, a: Action): State
    requires !a.Spawn? && Alive(s, a.c)
  {
    var child := s.children[a.c];
    match a
    case Create(c) => ApplyCreate(s, c)
    case WritePending(c) => ApplyWritePending(s, c)
    case CreateFails(c) =>
      if child.phase == Registering && child.made < PlanLength(child.id) then
        Update(s, c, child.(phase := Lost, open := {})) else s
    case NoManifest(c) =>
      if child.phase == Registering && child.made == 0 then Update(s, c, child.(phase := Lost)) else s
    case WriteFailure(c, outer, torn) => ApplyWriteFailure(s, c, outer, torn)
    case Bootstrap(c, started, bootstrapError) => ApplyBootstrap(s, c, started, bootstrapError)
    case RewriteStart(c, key, torn) => ApplyRewriteStart(s, c, key, torn)
    case Begin(c, op) => ApplyBegin(s, c, op)
    case WriteHandle(c, name, shard, error, measurement) => ApplyWriteHandle(s, c, name, shard, error, measurement)
    case HandleFails(c, name) => ApplyHandleFails(s, c, name)
    case End(c) => Update(s, c, child.(op := Idle))
    case Crash(c) => Update(s, c, child.(crashed := true))
    case Spawn(_, _) => s
  }

  /** A step that is not enabled changes nothing. */
  function Apply(s: State, a: Action): State {
    if a.Spawn? then
      if a.c in s.children then s
      else Update(s, a.c, Child(a.id, 0, Registering, false, "", Idle, false, {}, false, false))
    else if Alive(s, a.c) then ApplyLive(s, a)
    else s
  }

  function Exec(s: State, actions: seq<Action>): State
    decreases |actions|
  {
    if actions == [] then s else Exec(Apply(s, actions[0]), actions[1..])
  }

  // ----- what the terminal writes do

  /**
   A write through an open handle: settling and finishing leave a complete receipt of the child with the
   given shard, an invalidation an incomplete one that names none; only settling keeps the handle open.
   */
  lemma WriteAnswers(s: State, c: nat, name: Name, shard: string, error: string, measurement: string)
    requires Alive(s, c) && s.children[c].op != Idle && name in s.children[c].open && name.Marker?
    ensures
      var t, child := Apply(s, WriteHandle(c, name, shard, error, measurement)), s.children[c];
      && t.files.Keys == s.files.Keys + {name} && (forall n :: n in s.files && n != name ==> t.files[n] == s.files[n])
      && (name.kind == Exit && child.op != Invalidating ==>
            && t.files[name].Receipt? && t.files[name].id == child.id && t.files[name].complete
            && t.files[name].shard == shard && t.files[name].error == error && t.files[name].measurement == measurement)
      && (name.kind == Exit && child.op == Invalidating ==>
            && t.files[name].Receipt? && t.files[name].id == child.id && !t.files[name].complete
            && t.files[name].shard == "" && t.files[name].error == "unexpected_release"
            && t.files[name].measurement == "unavailable")
      && (name.kind != Exit ==> t.files[name] == if child.op == Invalidating then Blank else ShardName(shard))
      && t.children == s.children[c := child.(open := if child.op == Settling then child.open else child.open - {name})]
  {
  }

  /** A write that raises ends the operation and leaves the file; only finishing closes the handle all the same. */
  lemma WriteFails(s: State, c: nat, name: Name)
    requires Alive(s, c) && s.children[c].op != Idle && name in s.children[c].open
    ensures
      var t, child := Apply(s, HandleFails(c, name)), s.children[c];
      && t.files == s.files
      && t.children == s.children[c := child.(op := Idle, open := t.children[c].open)]
      && (child.op == Finishing ==> t.children[c].open == child.open - {name})
      && (child.op == Settling || child.op == Invalidating ==> t.children[c].open == child.open)
  {
  }

  /** What a child may begin: nothing before it registered, and after an invalidation only another one. */
  lemma BeginAnswers(s: State, c: nat, op: Op)
    requires Alive(s, c) && op != Idle
    ensures
      var t, child := Apply(s, Begin(c, op)), s.children[c];
      if child.phase != Registered || child.op != Idle || (child.invalidated && op != Invalidating) then t == s
      else t == s.(children := s.children[c := child.(op := op, invalidated := child.invalidated || op == Invalidating)])
  {
  }

  /** When registration is given up: at a file that cannot be created, or before the first without a directory for them. */
  lemma GivesUp(s: State, c: nat)
    requires Alive(s, c)
    ensures
      var t, child := Apply(s, CreateFails(c)), s.children[c];
      if child.phase == Registering && child.made < PlanLength(child.id)
      then t == s.(children := s.children[c := child.(phase := Lost, open := {})]) else t == s
    ensures
      var t, child := Apply(s, NoManifest(c)), s.children[c];
      if child.phase == Registering && child.made == 0
      then t == s.(children := s.children[c := child.(phase := Lost)]) else t == s
  {
  }

  // ----- the invariant

  /** What a marker's content can be, given the child that created it. */
  predicate OwnedContent(child: Child, name: Name, content: Content) {
    name.Marker? &&
    match name.kind
    case Start =>
      if child.phase == Registered then
        content == Blank ||
        (content.StartMarker? && content.id == child.id &&
         (content == StartMarker(child.id, Pending, "") || content.covStart == if child.started then One else Zero))
      else content == Blank || content == StartMarker(child.id, Pending, "")
    case Exit =>
      content == Blank ||
      (content.Receipt? && content.id == child.id && child.phase == Registered &&
       (!content.complete ==> name !in child.open))
    case Shard => content == Blank || (content.ShardName? && child.phase == Registered)
  }

  predicate ChildOk(child: Child) {
    && child.made <= PlanLength(child.id)
    && (child.phase == Registered ==> child.made == PlanLength(child.id))
    && (child.phase != Registered ==> child.op == Idle)
    && (child.unwritten ==> child.made > 0 && PlanAt(child.id, child.made - 1).kind == Start)
    && (forall n :: n in child.open ==> HasMade(child, n) && n.kind != Start)
    && (child.invalidated ==> child.op == Idle || child.op == Invalidating)
  }

  ghost predicate MarkersOwned(s: State) {
    forall n :: n in s.files && n.Marker? ==>
      && n in s.creator && s.creator[n] in s.children
      && HasMade(s.children[s.creator[n]], n)
      && OwnedContent(s.children[s.creator[n]], n, s.files[n])
  }

  ghost predicate MadeOwned(s: State) {
    forall c, n :: c in s.children && HasMade(s.children[c], n) ==>
      n in s.files && n in s.creator && s.creator[n] == c
  }

  ghost predicate NotesOk(s: State) {
    forall n :: n in s.files && n.FailureNote? ==>
      s.files[n] == Blank || (s.files[n].Note? && s.files[n].id.pid == n.pid)
  }

  ghost predicate Inv(s: State) {
    && MarkersOwned(s) && MadeOwned(s) && NotesOk(s)
    && (forall c :: c in s.children ==> ChildOk(s.children[c]))
  }

  /** What every later version of a child keeps, so that its files' contents stay explained. */
  predicate Follows(prior: Child, child: Child) {
    && child.id == prior.id && child.made == prior.made && child.open <= prior.open
    && (child.phase == prior.phase || prior.phase == Registering)
    && (prior.phase == Registered ==> child.started == prior.started)
  }

  lemma ContentFollows(prior: Child, child: Child, name: Name, content: Content)
    requires Follows(prior, child) && OwnedContent(prior, name, content)
    ensures OwnedContent(child, name, content)
  {
  }

  lemma UpdateKeepsInv(s: State, c: nat, child: Child)
    requires Inv(s) && c in s.children && Follows(s.children[c], child) && ChildOk(child)
    ensures Inv(Update(s, c, child))
  {
    forall n | n in s.files && n.Marker? && s.creator[n] == c ensures OwnedContent(child, n, s.files[n]) {
      ContentFollows(s.children[c], child, n, s.files[n]);
    }
  }

  /** The creator of a marker rewrites it. */
  lemma RewriteKeepsInv(s: State, c: nat, name: Name, content: Content)
    requires Inv(s) && c in s.children && HasMade(s.children[c], name)
    requires OwnedContent(s.children[c], name, content)
    ensures Inv(s.(files := s.files[name := content]))
  {
  }

  lemma CreateKeepsInv(s: State, c: nat)
    requires Inv(s) && Alive(s, c)
    ensures Inv(ApplyCreate(s, c))
  {
    var child := s.children[c];
    var name := PlanAt(child.id, child.made);
    if child.phase == Registering && child.made < PlanLength(child.id) && !child.unwritten && name !in s.files {
      CreatedOwned(s, c, name);
    }
  }

  lemma MadeByCreate(s: State, c: nat, name: Name)
    requires Inv(s) && Alive(s, c)
    requires
      var child := s.children[c];
      child.phase == Registering && child.made < PlanLength(child.id) && !child.unwritten &&
      name == PlanAt(child.id, child.made) && name !in s.files
    ensures
      var t := ApplyCreate(s, c);
      && (forall n :: HasMade(t.children[c], n) <==> HasMade(s.children[c], n) || n == name)
      && ChildOk(t.children[c])
  {
  }

  lemma CreatedOwned(s: State, c: nat, name: Name)
    requires Inv(s) && Alive(s, c)
    requires
      var child := s.children[c];
      child.phase == Registering && child.made < PlanLength(child.id) && !child.unwritten &&
      name == PlanAt(child.id, child.made) && name !in s.files
    ensures
      var t := ApplyCreate(s, c);
      && (forall n :: HasMade(t.children[c], n) <==> HasMade(s.children[c], n) || n == name)
      && ChildOk(t.children[c]) && MarkersOwned(t)
  {
    var t := ApplyCreate(s, c);
    MadeByCreate(s, c, name);
    forall n | n in t.files && n.Marker?
      ensures
        && n in t.creator && t.creator[n] in t.children && HasMade(t.children[t.creator[n]], n)
        && OwnedContent(t.children[t.creator[n]], n, t.files[n])
    {
      if n != name {
        assert n in s.files && t.creator[n] == s.creator[n];
      }
    }
  }

  lemma WriteHandleKeepsInv(s: State, c: nat, name: Name, shard: string, error: string, measurement: string)
    requires Inv(s) && Alive(s, c)
    ensures Inv(ApplyWriteHandle(s, c, name, shard, error, measurement))
  {
    var child := s.children[c];
    if child.op != Idle && name in child.open {
      var after := if child.op == Settling then child else child.(open := child.open - {name});
      UpdateKeepsInv(s, c, after);
      RewriteKeepsInv(Update(s, c, after), c, name, Written(child, name, shard, error, measurement));
    }
  }

  lemma PendingKeepsInv(s: State, c: nat)
    requires Inv(s) && Alive(s, c)
    ensures Inv(ApplyWritePending(s, c))
  {
    var child := s.children[c];
    if child.phase == Registering && child.unwritten && child.made > 0 {
      var name := PlanAt(child.id, child.made - 1);
      UpdateKeepsInv(s, c, child.(unwritten := false));
      RewriteKeepsInv(Update(s, c, child.(unwritten := false)), c, name, StartMarker(child.id, Pending, ""));
    }
  }

  lemma NoteKeepsInv(s: State, c: nat, outer: bool, torn: bool)
    requires Inv(s) && Alive(s, c)
    ensures Inv(ApplyWriteFailure(s, c, outer, torn))
  {
  }

  lemma SpawnKeepsInv(s: State, c: nat, id: Identity)
    requires Inv(s)
    ensures Inv(Apply(s, Spawn(c, id)))
  {
  }

  predicate Local(a: Action) {
    a.CreateFails? || a.NoManifest? || a.Bootstrap? || a.Begin? || a.HandleFails? || a.End? || a.Crash?
  }

  /** Such a step replaces the child, or nothing. */
  lemma LocalMoves(s: State, a: Action)
    requires Inv(s) && Local(a) && Alive(s, a.c)
    ensures
      var t := ApplyLive(s, a);
      t == s || (a.c in t.children && t == Update(s, a.c, t.children[a.c]))
    ensures
      var t := ApplyLive(s, a);
      a.c in t.children && Follows(s.children[a.c], t.children[a.c]) && ChildOk(t.children[a.c])
  {
    assert ChildOk(s.children[a.c]);
  }

  /** Steps that change only the child itself. */
  lemma LocalKeepsInv(s: State, a: Action)
    requires Inv(s) && Local(a) && Alive(s, a.c)
    ensures Inv(ApplyLive(s, a))
  {
    LocalMoves(s, a);
    UpdateKeepsInv(s, a.c, ApplyLive(s, a).children[a.c]);
  }

  lemma StepKeepsInv(s: State, a: Action)
    requires Inv(s)
    ensures Inv(Apply(s, a))
  {
    if a.Spawn? {
      SpawnKeepsInv(s, a.c, a.id);
    } else if Alive(s, a.c) {
      var child, t := s.children[a.c], ApplyLive(s, a);
      match a
      case Create(c) => CreateKeepsInv(s, c);
      case WritePending(c) => PendingKeepsInv(s, c);
      case WriteHandle(c, name, shard, error, m) => WriteHandleKeepsInv(s, c, name, shard, error, m);
      case WriteFailure(c, outer, torn) => NoteKeepsInv(s, c, outer, torn);
      case RewriteStart(c, key, torn) =>
        if t != s {
          RewriteKeepsInv(s, c, Marker(key, Start), t.files[Marker(key, Start)]);
        }
      case _ => LocalKeepsInv(s, a);
    }
  }

  /** Every run keeps the invariant. */
  lemma {:induction false} RunKeepsInv(s: State, actions: seq<Action>)
    requires Inv(s)
    ensures Inv(Exec(s, actions))
    decreases |actions|
  {
    if actions != [] {
      StepKeepsInv(s, actions[0]);
      RunKeepsInv(Apply(s, actions[0]), actions[1..]);
    }
  }

  // ----- what every run guarantees

  /** Every planned file was created by the child itself: nothing can deny it registration any more. */
  predicate HoldsRegistration(child: Child) {
    child.made == PlanLength(child.id)
  }

  /** At most one process completes registration for a given token, or for a given process number. */
  lemma OneRegistrant(actions: seq<Action>, c: nat, d: nat)
    requires
      var s := Exec(INITIAL, actions);
      && c in s.children && d in s.children
      && HoldsRegistration(s.children[c]) && HoldsRegistration(s.children[d])
      && (s.children[c].id.pid == s.children[d].id.pid ||
          (s.children[c].id.token == s.children[d].id.token && s.children[c].id.token != ""))
    ensures c == d
  {
    RunKeepsInv(INITIAL, actions);
    var s := Exec(INITIAL, actions);
    var cid, did := s.children[c].id, s.children[d].id;
    if cid.pid == did.pid {
      assert HasMade(s.children[c], PlanAt(cid, 0)) && HasMade(s.children[d], PlanAt(cid, 0));
    } else {
      assert HasMade(s.children[c], PlanAt(cid, 3)) && HasMade(s.children[d], PlanAt(cid, 3));
    }
  }

  /** Only a child that holds every planned file ever registers. */
  lemma RegisteredHolds(actions: seq<Action>, c: nat)
    requires c in Exec(INITIAL, actions).children && Exec(INITIAL, actions).children[c].phase == Registered
    ensures HoldsRegistration(Exec(INITIAL, actions).children[c])
  {
    RunKeepsInv(INITIAL, actions);
  }

  /**
   A child that created its start marker and never registered leaves it empty or pending in every
   run, and its exit marker, if there is one, empty.
   */
  lemma LoserStaysPending(actions: seq<Action>, c: nat)
    requires
      var s := Exec(INITIAL, actions);
      c in s.children && s.children[c].phase != Registered && s.children[c].made > 0
    ensures
      var s := Exec(INITIAL, actions);
      var id := s.children[c].id;
      var start, exit := Marker(PidKey(id.pid), Start), Marker(PidKey(id.pid), Exit);
      && start in s.files && (s.files[start] == Blank || s.files[start] == StartMarker(id, Pending, ""))
      && (exit in s.files ==> s.files[exit] == Blank)
  {
    RunKeepsInv(INITIAL, actions);
    var s := Exec(INITIAL, actions);
    var id := s.children[c].id;
    var start, exit := Marker(PidKey(id.pid), Start), Marker(PidKey(id.pid), Exit);
    assert HasMade(s.children[c], start);
    if exit in s.files {
      assert HasMade(s.children[s.creator[exit]], start);
    }
  }

  ghost predicate Invalidated(s: State, name: Name) {
    name in s.files && name.Marker? && s.files[name].Receipt? && !s.files[name].complete
  }

  lemma InvalidatedIsClosed(s: State, name: Name, c: nat)
    requires Inv(s) && Invalidated(s, name) && c in s.children
    ensures name !in s.children[c].open
  {
  }

  lemma StepKeepsInvalidated(s: State, a: Action, name: Name)
    requires Inv(s) && Invalidated(s, name)
    ensures Invalidated(Apply(s, a), name)
  {
    assert name.kind == Exit;
    if a.WriteHandle? && Alive(s, a.c) {
      InvalidatedIsClosed(s, name, a.c);
    }
  }

  /** An invalidated receipt stays invalidated: no later step of any child completes it again. */
  lemma {:induction false} InvalidatedForever(s: State, actions: seq<Action>, name: Name)
    requires Inv(s) && Invalidated(s, name)
    ensures Invalidated(Exec(s, actions), name)
    decreases |actions|
  {
    if actions != [] {
      StepKeepsInvalidated(s, actions[0], name);
      StepKeepsInv(s, actions[0]);
      InvalidatedForever(Apply(s, actions[0]), actions[1..], name);
    }
  }

  predicate CompleteAt(s: State, name: Name) {
    name in s.files && s.files[name].Receipt? && s.files[name].complete
  }

  /** Child `c` has begun to invalidate; `name` is one of its receipts. */
  predicate Invalidates(s: State, c: nat, name: Name) {
    c in s.children && HasMade(s.children[c], name) && name.kind == Exit && s.children[c].invalidated
  }

  /** The step overwrites the receipt on behalf of an invalidation. */
  predicate Overwrites(s: State, a: Action, c: nat, name: Name) {
    && a.WriteHandle? && a.c == c && a.name == name && Alive(s, c)
    && s.children[c].op == Invalidating && name in s.children[c].open
  }

  predicate Overwritten(s: State, actions: seq<Action>, c: nat, name: Name)
    decreases |actions|
  {
    actions != [] && (Overwrites(s, actions[0], c, name) || Overwritten(Apply(s, actions[0]), actions[1..], c, name))
  }

  lemma OpenOwner(s: State, c: nat, d: nat, name: Name)
    requires Inv(s) && c in s.children && d in s.children && HasMade(s.children[d], name)
    ensures name in s.children[c].open ==> c == d
  {
  }

  lemma StillInvalidates(s: State, a: Action, c: nat, name: Name)
    requires Invalidates(s, c, name)
    ensures Invalidates(Apply(s, a), c, name)
  {
  }

  lemma WriteOnInvalidated(s: State, a: Action, c: nat, name: Name)
    requires Inv(s) && Invalidates(s, c, name) && a.WriteHandle? && Alive(s, a.c)
    ensures CompleteAt(Apply(s, a), name) <==> CompleteAt(s, name) && !Overwrites(s, a, c, name)
  {
    OpenOwner(s, a.c, c, name);
  }

  lemma StepOnInvalidated(s: State, a: Action, c: nat, name: Name)
    requires Inv(s) && Invalidates(s, c, name)
    ensures CompleteAt(Apply(s, a), name) <==> CompleteAt(s, name) && !Overwrites(s, a, c, name)
  {
    if a.WriteHandle? && Alive(s, a.c) {
      WriteOnInvalidated(s, a, c, name);
    } else {
      assert s.creator[name] == c;
    }
  }

  /**
   After a child began to invalidate, its receipt is complete at the end of any run if and only if
   it was complete at that point and no invalidating write reached it.
   */
  lemma {:induction false} InvalidationExact(s: State, actions: seq<Action>, c: nat, name: Name)
    requires Inv(s) && Invalidates(s, c, name)
    ensures CompleteAt(Exec(s, actions), name) <==> CompleteAt(s, name) && !Overwritten(s, actions, c, name)
    decreases |actions|
  {
    if actions != [] {
      StepKeepsInv(s, actions[0]);
      StillInvalidates(s, actions[0], c, name);
      StepOnInvalidated(s, actions[0], c, name);
      InvalidationExact(Apply(s, actions[0]), actions[1..], c, name);
    }
  }
}
