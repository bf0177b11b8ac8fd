/**
 Reading the receipts back (tools/runner_coverage_receipts.py, `read_registered_children`): the
 parent reads failure notes and numbered start markers and decides what each child reported.
 */
module ReceiptReading {
  import opened Wrappers
  import opened ReceiptProtocol

  datatype Refusal = IdentityMismatch | BadStartMarker | RegistrationFailed | BootstrapFailed | SaveFailed
    | ReceiptIncomplete | ShardRejected | ShardMissing | UnknownToken | SymlinkInDirectory | UnregisteredShard

  /** What the run expects; an empty text is no expectation. */
  datatype Expected = Expected(invocation: Option<string>, suite: Option<string>, revision: Option<string>)

  datatype Victim = Victim(pid: nat, owner: string, ppid: nat, invocation: string,
                           backendDisappeared: bool, descriptorClosed: bool, processCleaned: bool, exitcode: int)

  datatype Info =
    | NotRegistered(id: Identity)
    | Info(id: Identity, exited: bool, started: bool, terminalError: string, shard: string, strict: bool,
           victim: Option<Victim>)

  predicate Given(o: Option<string>) {
    o.Some? && o.value != ""
  }

  predicate Matches(exp: Expected, id: Identity) {
    && (Given(exp.invocation) ==> id.invocation == exp.invocation.value)
    && (Given(exp.suite) ==> id.suite == exp.suite.value)
    && (Given(exp.revision) ==> id.revision == exp.revision.value)
  }

  predicate NothingAsked(exp: Expected) {
    !Given(exp.invocation) && !Given(exp.suite) && !Given(exp.revision)
  }

  function StartOf(pid: nat): Name {
    Marker(PidKey(pid), Start)
  }

  /** A numbered start marker together with the terminal receipt and victim note of the same number. */
  function ReadStart(start: Content, terminal: Content, victim: Option<Victim>, exp: Expected, pid: nat)
    : (r: Result<Info, Refusal>)
  {
    if !(if start.StartMarker? then Matches(exp, start.id) else NothingAsked(exp)) then Failure(IdentityMismatch)
    else if !start.StartMarker? || start.id.pid != pid then Failure(BadStartMarker)
    else
      var exited := terminal.Receipt? && terminal.id.pid == pid && (Given(exp.invocation) ==> terminal.complete);
      if Given(exp.invocation) && exited && terminal.id != start.id then Failure(IdentityMismatch)
      else Success(Info(start.id, exited, start.covStart == One,
                        if terminal.Receipt? then terminal.error else "",
                        if terminal.Receipt? then terminal.shard else "",
                        exp.invocation.Some? && start.id.role != AUXILIARY,
                        if victim.Some? && victim.value.pid == pid then victim else None))
  }

  function ContentAt(files: map<Name, Content>, n: Name): Content {
    if n in files then files[n] else Blank
  }

  function ReadPid(files: map<Name, Content>, victims: map<nat, Victim>, exp: Expected, pid: nat)
    : Result<Info, Refusal>
  {
    ReadStart(ContentAt(files, StartOf(pid)), ContentAt(files, Marker(PidKey(pid), Exit)),
              if pid in victims then Some(victims[pid]) else None, exp, pid)
  }

  /** A failure note that names its process. */
  predicate IsNote(files: map<Name, Content>, n: Name) {
    n in files && n.FailureNote? && files[n].Note?
  }

  predicate IsStart(files: map<Name, Content>, n: Name) {
    n in files && n.Marker? && n.key.PidKey? && n.kind == Start
  }

  ghost predicate Noted(files: map<Name, Content>, pid: nat) {
    exists n :: IsNote(files, n) && files[n].id.pid == pid
  }

  /** No note and no unnoted start marker is refused. */
  ghost predicate Readable(files: map<Name, Content>, victims: map<nat, Victim>, exp: Expected) {
    && (forall n :: IsNote(files, n) ==> Matches(exp, files[n].id))
    && (forall n :: IsStart(files, n) && !Noted(files, n.key.pid) ==> ReadPid(files, victims, exp, n.key.pid).Success?)
  }

  /** The dictionary that a readable directory gives. */
  ghost predicate Reads(files: map<Name, Content>, victims: map<nat, Victim>, exp: Expected, m: map<nat, Info>) {
    && (forall pid :: pid in m <==> Noted(files, pid) || StartOf(pid) in files)
    && (forall pid :: pid in m ==>
          if Noted(files, pid) then m[pid].NotRegistered?
          else ReadPid(files, victims, exp, pid) == Success(m[pid]))
  }

  /** The texts the run asks for, where it asks. */
  ghost predicate Agrees(exp: Expected, id: Identity) {
    && (forall x :: exp.invocation == Some(x) && x != "" ==> id.invocation == x)
    && (forall x :: exp.suite == Some(x) && x != "" ==> id.suite == x)
    && (forall x :: exp.revision == Some(x) && x != "" ==> id.revision == x)
  }

  /** A start marker of another run, or, if the run asks for anything, one without text. */
  ghost predicate ForeignStart(files: map<Name, Content>, exp: Expected, pid: nat) {
    && StartOf(pid) in files
    && if files[StartOf(pid)].StartMarker? then !Agrees(exp, files[StartOf(pid)].id)
       else exists x :: x != "" && (exp.invocation == Some(x) || exp.suite == Some(x) || exp.revision == Some(x))
  }

  /** A start marker that does not name its own number. */
  ghost predicate MisnumberedStart(files: map<Name, Content>, pid: nat) {
    StartOf(pid) in files && !(files[StartOf(pid)].StartMarker? && files[StartOf(pid)].id.pid == pid)
  }

  /** A complete receipt of this number, under a start marker with another identity. */
  ghost predicate ForeignReceipt(files: map<Name, Content>, exp: Expected, pid: nat) {
    var start, exit := ContentAt(files, StartOf(pid)), ContentAt(files, Marker(PidKey(pid), Exit));
    && Given(exp.invocation) && exit.Receipt? && exit.id.pid == pid && exit.complete
    && start.StartMarker? && exit.id != start.id
  }

  /** Why a start marker is refused: a foreign one first, then a misnumbered one, then a foreign receipt. */
  lemma StartRefused(files: map<Name, Content>, victims: map<nat, Victim>, exp: Expected, pid: nat)
    requires StartOf(pid) in files
    ensures ReadPid(files, victims, exp, pid) == Failure(IdentityMismatch) <==>
            ForeignStart(files, exp, pid) || (!MisnumberedStart(files, pid) && ForeignReceipt(files, exp, pid))
    ensures ReadPid(files, victims, exp, pid) == Failure(BadStartMarker) <==>
            !ForeignStart(files, exp, pid) && MisnumberedStart(files, pid)
  {
    var start := files[StartOf(pid)];
    assert start.StartMarker? ==> (Matches(exp, start.id) <==> Agrees(exp, start.id));
    if !NothingAsked(exp) {
      var x := if Given(exp.invocation) then exp.invocation.value
               else if Given(exp.suite) then exp.suite.value else exp.revision.value;
      assert x != "";
    }
  }

  method ReadNotes(files: map<Name, Content>, exp: Expected, listing: seq<Name>)
    returns (r: Result<map<nat, Info>, Refusal>)
    requires forall n :: n in listing <==> n in files
    ensures r.Success? <==> forall n :: IsNote(files, n) ==> Matches(exp, files[n].id)
    ensures r.Success? ==> forall pid :: pid in r.value <==> Noted(files, pid)
    ensures r.Success? ==> forall pid :: pid in r.value ==> r.value[pid].NotRegistered?
    ensures r.Failure? ==> r.error == IdentityMismatch
  {
    var registered: map<nat, Info> := map[];
    for i := 0 to |listing|
      invariant forall j :: 0 <= j < i && IsNote(files, listing[j]) ==>
        Matches(exp, files[listing[j]].id) && files[listing[j]].id.pid in registered
      invariant forall pid :: pid in registered ==> registered[pid].NotRegistered? && Noted(files, pid)
    {
      if IsNote(files, listing[i]) {
        var id := files[listing[i]].id;
        if !Matches(exp, id) {
          return Failure(IdentityMismatch);
        }
        registered := registered[id.pid := NotRegistered(id)];
      }
    }
    forall n | IsNote(files, n) ensures Matches(exp, files[n].id) && files[n].id.pid in registered {
      assert n in listing;
    }
    return Success(registered);
  }

  method ReadRegisteredChildren(
    files: map<Name, Content>, victims: map<nat, Victim>, exp: Expected, listing: seq<Name>)
    returns (r: Result<map<nat, Info>, Refusal>)
    requires forall n :: n in listing <==> n in files
    ensures r.Success? <==> Readable(files, victims, exp)
    ensures r.Success? ==> Reads(files, victims, exp, r.value)
    ensures r == Failure(IdentityMismatch) ==>
      || (exists n :: IsNote(files, n) && !Agrees(exp, files[n].id))
      || (exists pid :: ForeignStart(files, exp, pid) || ForeignReceipt(files, exp, pid))
    ensures r == Failure(BadStartMarker) ==> exists pid :: MisnumberedStart(files, pid) && !ForeignStart(files, exp, pid)
    ensures r.Failure? ==> r.error == IdentityMismatch || r.error == BadStartMarker
  {
    var notes := ReadNotes(files, exp, listing);
    if notes.Failure? {
      return Failure(notes.error);
    }
    var registered: map<nat, Info> := notes.value;
    for i := 0 to |listing|
      invariant forall pid: nat :: Noted(files, pid) ==> pid in registered && registered[pid].NotRegistered?
      invariant forall j :: 0 <= j < i && IsStart(files, listing[j]) ==> listing[j].key.pid in registered
      invariant forall pid: nat :: pid in registered && !Noted(files, pid) ==>
        StartOf(pid) in files && ReadPid(files, victims, exp, pid) == Success(registered[pid])
    {
      var n := listing[i];
      if IsStart(files, n) && n.key.pid !in notes.value {
        var info := ReadPid(files, victims, exp, n.key.pid);
        if info.Failure? {
          assert n == StartOf(n.key.pid);
          StartRefused(files, victims, exp, n.key.pid);
          return Failure(info.error);
        }
        registered := registered[n.key.pid := info.value];
      }
    }
    forall n | IsStart(files, n) ensures n.key.pid in registered {
      assert n in listing;
    }
    forall pid | StartOf(pid) in files ensures pid in registered {
      assert IsStart(files, StartOf(pid));
    }
    return Success(registered);
  }

  /** A start marker that can be read: of its own number and the expected identity, with no foreign complete receipt. */
  ghost predicate StartReads(files: map<Name, Content>, exp: Expected, pid: nat) {
    var start, exit := ContentAt(files, StartOf(pid)), ContentAt(files, Marker(PidKey(pid), Exit));
    && start.StartMarker? && start.id.pid == pid && Agrees(exp, start.id)
    && (exp.invocation.Some? && exp.invocation.value != "" && exit.Receipt? && exit.id.pid == pid && exit.complete ==>
          exit.id == start.id)
  }

  /** A directory is readable exactly if every note agrees and every start marker without a note can be read. */
  lemma ReadableIff(files: map<Name, Content>, victims: map<nat, Victim>, exp: Expected)
    ensures Readable(files, victims, exp) <==>
            && (forall n :: n in files && n.FailureNote? && files[n].Note? ==> Agrees(exp, files[n].id))
            && (forall pid :: StartOf(pid) in files && !Noted(files, pid) ==> StartReads(files, exp, pid))
  {
    forall id ensures Matches(exp, id) <==> Agrees(exp, id) {
    }
    forall pid ensures ReadPid(files, victims, exp, pid).Success? <==> StartReads(files, exp, pid) {
    }
    if forall pid :: StartOf(pid) in files && !Noted(files, pid) ==> StartReads(files, exp, pid) {
      forall n | IsStart(files, n) && !Noted(files, n.key.pid) ensures ReadPid(files, victims, exp, n.key.pid).Success? {
        assert n == StartOf(n.key.pid);
      }
    }
    if Readable(files, victims, exp) {
      forall pid | StartOf(pid) in files && !Noted(files, pid) ensures StartReads(files, exp, pid) {
        assert IsStart(files, StartOf(pid));
      }
      forall n | n in files && n.FailureNote? && files[n].Note? ensures Agrees(exp, files[n].id) {
        assert IsNote(files, n);
      }
    }
  }

  /** What is read of a child: its identity, whether it reported, whether coverage started, and its victim note. */
  lemma ChildRead(files: map<Name, Content>, victims: map<nat, Victim>, exp: Expected, m: map<nat, Info>, pid: nat)
    requires Reads(files, victims, exp, m) && pid in m && m[pid].Info?
    ensures
      var start, exit := ContentAt(files, StartOf(pid)), ContentAt(files, Marker(PidKey(pid), Exit));
      && start.StartMarker? && m[pid].id == start.id && (m[pid].started <==> start.covStart == One)
      && (m[pid].exited <==> exit.Receipt? && exit.id.pid == pid && (exit.complete || !Given(exp.invocation)))
      && m[pid].terminalError == (if exit.Receipt? then exit.error else "")
      && m[pid].shard == (if exit.Receipt? then exit.shard else "")
      && (m[pid].strict <==> exp.invocation.Some? && start.id.role != AUXILIARY)
      && m[pid].victim == (if pid in victims && victims[pid].pid == pid then Some(victims[pid]) else None)
  {
    assert ReadPid(files, victims, exp, pid) == Success(m[pid]);
  }
}
