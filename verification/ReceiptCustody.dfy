/**
 Custody of coverage receipts from end to end: what a successful strict `combine`
 (tools/runner_coverage.py) says about every child process of every interleaving.
 */
module ReceiptCustody {
  import opened Wrappers
  import opened Decimals
  import opened ReceiptProtocol
  import opened ReceiptReading
  import opened ReceiptReconcile
  import opened ShardNames

  datatype Entry = Entry(name: string, symlink: bool)

  /** What `combine` sees besides the markers: the data directory and its listing, and the parent's own data. */
  datatype Directory = Directory(root: string, listing: set<Entry>, view: string -> Candidate,
                                 parentPath: string, parentPid: nat, parentShard: Option<string>,
                                 alive: set<nat>, declarations: seq<VictimDeclaration>, tokens: Option<set<string>>)

  /** A directory entry: no name holds a slash. */
  predicate Listed(dir: Directory, e: Entry) {
    e in dir.listing && '/' !in e.name
  }

  function PathOf(dir: Directory, e: Entry): string {
    dir.root + "/" + e.name
  }

  /** The resolved paths of the shard files, none of them a link. */
  function Shards(dir: Directory): set<string> {
    set e | e in dir.listing && Listed(dir, e) && ".coverage." <= e.name :: PathOf(dir, e)
  }

  /** The paths the directory check looks at: the shards and the data file itself. */
  function Checked(dir: Directory): set<string> {
    set e | e in dir.listing && Listed(dir, e) && (e.name == ".coverage" || ".coverage." <= e.name) :: PathOf(dir, e)
  }

  predicate HasLinks(dir: Directory) {
    exists e :: e in dir.listing && ".coverage" <= e.name && e.symlink
  }

  /** The shard text a child that is not strict left in its shard or exit file. */
  function CandidateText(files: map<Name, Content>, pid: nat): string {
    var shard, exit := ContentAt(files, Marker(PidKey(pid), Shard)), ContentAt(files, Marker(PidKey(pid), Exit));
    if shard.ShardName? && shard.shard != "" then shard.shard
    else if exit.Receipt? then exit.shard
    else ""
  }

  function EnvFor(files: map<Name, Content>, dir: Directory, m: map<nat, Info>): Env {
    Env(dir.view, Shards(dir), dir.parentPath, dir.parentPid, dir.alive, dir.declarations,
        map pid | pid in m :: CandidateText(files, pid))
  }

  predicate TokensKnown(dir: Directory, m: map<nat, Info>) {
    dir.tokens.Some? ==> forall pid :: pid in m && m[pid].Info? && m[pid].id.token != "" ==>
      m[pid].id.token in dir.tokens.value
  }

  predicate Covered(dir: Directory, consumed: map<nat, string>) {
    forall e :: e in Checked(dir) ==> e in consumed.Values || dir.parentShard == Some(e)
  }

  /** A combination: every check passed, on these readings, with this consumption. */
  ghost predicate CombinedAs(files: map<Name, Content>, victims: map<nat, Victim>, exp: Expected, dir: Directory,
                             m: map<nat, Info>, consumed: map<nat, string>) {
    && Readable(files, victims, exp) && Reads(files, victims, exp, m)
    && TokensKnown(dir, m) && !HasLinks(dir)
    && Reconcilable(m, EnvFor(files, dir, m)) && Consumption(m, EnvFor(files, dir, m), consumed)
    && Covered(dir, consumed)
  }

  lemma ReadingsAgree(files: map<Name, Content>, victims: map<nat, Victim>, exp: Expected, env: Env,
                      m: map<nat, Info>, m2: map<nat, Info>)
    requires Reads(files, victims, exp, m) && Reads(files, victims, exp, m2)
    requires Reconcilable(m, env)
    ensures m == m2
  {
    forall pid | pid in m ensures pid in m2 && m[pid] == m2[pid] {
      assert Good(pid, m[pid], env);
    }
  }

  lemma ConsumptionsAgree(m: map<nat, Info>, env: Env, c: map<nat, string>, c2: map<nat, string>)
    requires Consumption(m, env, c) && Consumption(m, env, c2)
    ensures c == c2
  {
  }

  /** Why combine is refused, in the order of its checks. */
  ghost predicate CombineBlames(files: map<Name, Content>, victims: map<nat, Victim>, exp: Expected, dir: Directory,
                                why: Refusal) {
    || !Readable(files, victims, exp)
    || exists m: map<nat, Info> :: Reads(files, victims, exp, m) && ReadingBlames(files, dir, m, why)
  }

  ghost predicate ReadingBlames(files: map<Name, Content>, dir: Directory, m: map<nat, Info>, why: Refusal) {
    match why
    case UnknownToken =>
      dir.tokens.Some? && exists pid :: pid in m && m[pid].Info? && m[pid].id.token != "" &&
                                        m[pid].id.token !in dir.tokens.value
    case SymlinkInDirectory => exists e :: e in dir.listing && ".coverage" <= e.name && e.symlink
    case RegistrationFailed => exists pid :: pid in m && m[pid].NotRegistered?
    case UnregisteredShard =>
      exists consumed, e :: Consumption(m, EnvFor(files, dir, m), consumed) && e in Checked(dir) &&
                            e !in consumed.Values && dir.parentShard != Some(e)
    case _ => exists pid :: pid in m && m[pid].Info? && Blames(pid, m[pid], EnvFor(files, dir, m), why)
  }

  lemma OneReading(files: map<Name, Content>, victims: map<nat, Victim>, exp: Expected, dir: Directory, m: map<nat, Info>)
    requires Reads(files, victims, exp, m)
    ensures forall m2, consumed :: CombinedAs(files, victims, exp, dir, m2, consumed) ==> m2 == m
  {
    forall m2, consumed | CombinedAs(files, victims, exp, dir, m2, consumed) ensures m2 == m {
      ReadingsAgree(files, victims, exp, EnvFor(files, dir, m2), m2, m);
    }
  }

  /** A check that fails on the one reading: nothing can be combined, and this is to blame. */
  lemma NotCombined(files: map<Name, Content>, victims: map<nat, Victim>, exp: Expected, dir: Directory, m: map<nat, Info>,
                    why: Refusal)
    requires Reads(files, victims, exp, m) && ReadingBlames(files, dir, m, why)
    requires !TokensKnown(dir, m) || HasLinks(dir) || !Reconcilable(m, EnvFor(files, dir, m))
    ensures forall m2, consumed :: !CombinedAs(files, victims, exp, dir, m2, consumed)
    ensures CombineBlames(files, victims, exp, dir, why)
  {
    OneReading(files, victims, exp, dir, m);
  }

  /** The one possible consumption leaves a coverage file over. */
  lemma Uncovered(files: map<Name, Content>, victims: map<nat, Victim>, exp: Expected, dir: Directory, m: map<nat, Info>,
                  consumed: map<nat, string>)
    requires Reads(files, victims, exp, m) && Consumption(m, EnvFor(files, dir, m), consumed) && !Covered(dir, consumed)
    ensures forall m2, c2 :: !CombinedAs(files, victims, exp, dir, m2, c2)
    ensures CombineBlames(files, victims, exp, dir, UnregisteredShard)
  {
    assert ReadingBlames(files, dir, m, UnregisteredShard);
    OneReading(files, victims, exp, dir, m);
    forall m2, c2 | CombinedAs(files, victims, exp, dir, m2, c2) ensures false {
      ConsumptionsAgree(m, EnvFor(files, dir, m), consumed, c2);
    }
  }

  /** `combine` up to the merge itself: it succeeds exactly when a combination exists, and returns it. */
  method Combine(files: map<Name, Content>, listing: seq<Name>, victims: map<nat, Victim>, exp: Expected,
                 dir: Directory)
    returns (r: Result<(map<nat, Info>, map<nat, string>), Refusal>)
    requires forall n :: n in listing <==> n in files
    ensures r.Success? ==> CombinedAs(files, victims, exp, dir, r.value.0, r.value.1)
    ensures r.Failure? ==> forall m, consumed :: !CombinedAs(files, victims, exp, dir, m, consumed)
    ensures r.Failure? ==> CombineBlames(files, victims, exp, dir, r.error)
  {
    var read := ReadRegisteredChildren(files, victims, exp, listing);
    if read.Failure? {
      return Failure(read.error);
    }
    var m := read.value;
    if !TokensKnown(dir, m) {
      NotCombined(files, victims, exp, dir, m, UnknownToken);
      return Failure(UnknownToken);
    }
    if HasLinks(dir) {
      NotCombined(files, victims, exp, dir, m, SymlinkInDirectory);
      return Failure(SymlinkInDirectory);
    }
    var judged := ReconcileChildManifests(m, EnvFor(files, dir, m));
    if judged.Failure? {
      NotCombined(files, victims, exp, dir, m, judged.error);
      return Failure(judged.error);
    }
    if !Covered(dir, judged.value) {
      Uncovered(files, victims, exp, dir, m, judged.value);
      return Failure(UnregisteredShard);
    }
    return Success((m, judged.value));
  }

  // ----- what success means

  predicate StrictRun(exp: Expected) {
    Given(exp.invocation)
  }

  /**
   A complete, error-free receipt of the same identity as the start marker, and the shard that this
   receipt names, consumed on the child's behalf.
   */
  ghost predicate Settled(files: map<Name, Content>, dir: Directory, consumed: map<nat, string>, pid: nat) {
    var start, exit := ContentAt(files, StartOf(pid)), ContentAt(files, Marker(PidKey(pid), Exit));
    && start.StartMarker? && start.covStart == One && start.id.role != AUXILIARY
    && exit.Receipt? && exit.complete && exit.error == "" && exit.id == start.id
    && pid in consumed && exit.shard != "" && consumed[pid] == dir.view(exit.shard).path
  }

  ghost predicate AuxiliaryChild(files: map<Name, Content>, pid: nat) {
    var start := ContentAt(files, StartOf(pid));
    start.StartMarker? && start.id.role == AUXILIARY
  }

  /** The first declaration of an owner; no declaration is found for the empty owner. */
  ghost predicate DeclaredFor(dir: Directory, owner: string, d: VictimDeclaration) {
    && owner != ""
    && exists i :: 0 <= i < |dir.declarations| && dir.declarations[i] == d && d.owner == owner &&
                   forall j :: 0 <= j < i ==> dir.declarations[j].owner != owner
  }

  /**
   What a victim note must prove: the note and the start marker agree, the three cleanups happened, the
   process is gone, and the owner's declaration has the child's role and permits the exit code.
   */
  ghost predicate ProvenVictim(files: map<Name, Content>, victims: map<nat, Victim>, dir: Directory, pid: nat) {
    var start := ContentAt(files, StartOf(pid));
    && start.StartMarker? && pid in victims && pid !in dir.alive
    && var id, note := start.id, victims[pid];
    && note.pid == pid && note.owner == id.owner
    && (id.ppid != 0 ==> note.ppid == id.ppid)
    && (id.invocation != "" ==> note.invocation == id.invocation)
    && note.backendDisappeared && note.descriptorClosed && note.processCleaned
    && exists d :: DeclaredFor(dir, id.owner, d) && d.role == id.role && note.exitcode in d.permitted
  }

  /** A receipt of the child's own number, complete where the run names its invocation. */
  predicate Reported(files: map<Name, Content>, exp: Expected, pid: nat) {
    var exit := ContentAt(files, Marker(PidKey(pid), Exit));
    exit.Receipt? && exit.id.pid == pid && (exit.complete || !StrictRun(exp))
  }

  /** The registered children of one owner that did not report and are not auxiliary. */
  ghost function Unsettled(files: map<Name, Content>, exp: Expected, m: map<nat, Info>, owner: string): set<nat> {
    set q | q in m && ContentAt(files, StartOf(q)).StartMarker? && ContentAt(files, StartOf(q)).id.owner == owner &&
            ContentAt(files, StartOf(q)).id.role != AUXILIARY && !Reported(files, exp, q)
  }

  /** A verified victim: no such receipt, a note that proves it, an owner within its maximum. */
  ghost predicate VerifiedVictim(files: map<Name, Content>, victims: map<nat, Victim>, exp: Expected,
                                 dir: Directory, m: map<nat, Info>, pid: nat) {
    var start := ContentAt(files, StartOf(pid));
    && ProvenVictim(files, victims, dir, pid) && start.id.role != AUXILIARY && !Reported(files, exp, pid)
    && forall d :: DeclaredFor(dir, start.id.owner, d) ==> |Unsettled(files, exp, m, start.id.owner)| <= d.most
  }

  lemma {:induction false} FoundIsFirst(owner: string, declarations: seq<VictimDeclaration>)
    requires owner != ""
    ensures
      var found := Find(owner, declarations);
      && (found.None? <==> forall d :: d in declarations ==> d.owner != owner)
      && (found.Some? ==> exists i :: 0 <= i < |declarations| && declarations[i] == found.value &&
                                      forall j :: 0 <= j < i ==> declarations[j].owner != owner)
    decreases |declarations|
  {
    if declarations != [] && declarations[0].owner != owner {
      var rest := declarations[1..];
      FoundIsFirst(owner, rest);
      assert forall d :: d in declarations <==> d == declarations[0] || d in rest;
      if Find(owner, rest).Some? {
        var i :| 0 <= i < |rest| && rest[i] == Find(owner, rest).value && forall j :: 0 <= j < i ==> rest[j].owner != owner;
        assert declarations[i + 1] == rest[i];
        assert forall j :: 0 <= j < i + 1 ==> declarations[j].owner != owner by {
          assert forall j :: 1 <= j < i + 1 ==> declarations[j] == rest[j - 1];
        }
      }
    }
  }

  lemma FindDeclared(dir: Directory, owner: string, d: VictimDeclaration)
    ensures Find(owner, dir.declarations) == Some(d) <==> DeclaredFor(dir, owner, d)
  {
    if owner != "" {
      FoundIsFirst(owner, dir.declarations);
      if DeclaredFor(dir, owner, d) {
        var i :| 0 <= i < |dir.declarations| && dir.declarations[i] == d && d.owner == owner &&
                 forall j :: 0 <= j < i ==> dir.declarations[j].owner != owner;
        assert d in dir.declarations;
        var k :| 0 <= k < |dir.declarations| && dir.declarations[k] == Find(owner, dir.declarations).value &&
                 forall j :: 0 <= j < k ==> dir.declarations[j].owner != owner;
        assert i == k;
      }
    }
  }

  /** Where an invocation is expected, a registered child that is not auxiliary and did not report. */
  ghost predicate LeftOpen(files: map<Name, Content>, victims: map<nat, Victim>, exp: Expected, m: map<nat, Info>,
                           pid: nat) {
    && exp.invocation.Some? && Reads(files, victims, exp, m) && pid in m && m[pid].Info?
    && ContentAt(files, StartOf(pid)).StartMarker? && ContentAt(files, StartOf(pid)).id.role != AUXILIARY
    && !Reported(files, exp, pid)
  }

  lemma EligibleIsProven(files: map<Name, Content>, victims: map<nat, Victim>, exp: Expected, dir: Directory,
                         m: map<nat, Info>, pid: nat)
    requires LeftOpen(files, victims, exp, m, pid)
    ensures Eligible(pid, m[pid], EnvFor(files, dir, m)) <==> ProvenVictim(files, victims, dir, pid)
  {
    assert ReadPid(files, victims, exp, pid) == Success(m[pid]);
    var owner := m[pid].id.owner;
    var found := Find(owner, dir.declarations);
    if found.Some? {
      FindDeclared(dir, owner, found.value);
    }
    forall d | DeclaredFor(dir, owner, d) ensures found == Some(d) {
      FindDeclared(dir, owner, d);
    }
  }

  /**
   Exactly when a child that did not report passes on its own: its note proves it a victim, and if
   its coverage had started it recorded no error.
   */
  lemma OpenChildGood(files: map<Name, Content>, victims: map<nat, Victim>, exp: Expected, dir: Directory,
                      m: map<nat, Info>, pid: nat)
    requires LeftOpen(files, victims, exp, m, pid)
    ensures
      var start, exit := ContentAt(files, StartOf(pid)), ContentAt(files, Marker(PidKey(pid), Exit));
      Good(pid, m[pid], EnvFor(files, dir, m)) <==>
      && ProvenVictim(files, victims, dir, pid)
      && (start.covStart == One && exit.Receipt? ==> exit.error == "")
  {
    EligibleIsProven(files, victims, exp, dir, m, pid);
    assert ReadPid(files, victims, exp, pid) == Success(m[pid]);
  }

  /** The victims counted for an owner are its children that did not report. */
  lemma VictimsAreUnsettled(files: map<Name, Content>, victims: map<nat, Victim>, exp: Expected, dir: Directory,
                            m: map<nat, Info>, consumed: map<nat, string>, owner: string)
    requires exp.invocation.Some? && CombinedAs(files, victims, exp, dir, m, consumed)
    ensures Victims(m, m.Keys, owner) == Unsettled(files, exp, m, owner)
  {
    forall q | q in m
      ensures ReadPid(files, victims, exp, q) == Success(m[q]) && Good(q, m[q], EnvFor(files, dir, m))
    {
      assert Good(q, m[q], EnvFor(files, dir, m));
    }
  }

  lemma OpenChildVerified(files: map<Name, Content>, victims: map<nat, Victim>, exp: Expected, dir: Directory,
                          m: map<nat, Info>, consumed: map<nat, string>, pid: nat)
    requires CombinedAs(files, victims, exp, dir, m, consumed) && LeftOpen(files, victims, exp, m, pid)
    ensures VerifiedVictim(files, victims, exp, dir, m, pid)
  {
    var env, owner := EnvFor(files, dir, m), m[pid].id.owner;
    assert Good(pid, m[pid], env);
    OpenChildGood(files, victims, exp, dir, m, pid);
    assert ReadPid(files, victims, exp, pid) == Success(m[pid]);
    VictimsAreUnsettled(files, victims, exp, dir, m, consumed, owner);
    forall d | DeclaredFor(dir, owner, d) ensures Most(owner, env) == d.most {
      FindDeclared(dir, owner, d);
    }
  }

  lemma FirstWanted(m: map<nat, Info>, env: Env, consumed: map<nat, string>, pid: nat)
    requires Reconcilable(m, env) && Consumption(m, env, consumed)
    requires pid in m && m[pid].Info? && !Auxiliary(m[pid]) && DutyOf(m[pid]) == OwesShard
    ensures pid in consumed && ShardText(pid, m[pid], env) != ""
    ensures consumed[pid] == env.view(ShardText(pid, m[pid], env)).path
  {
    assert Good(pid, m[pid], env);
    assert Wants(m, env, pid, Wanted(pid, m[pid], env).value);
  }

  lemma CombineCovers(files: map<Name, Content>, victims: map<nat, Victim>, exp: Expected, dir: Directory,
                      m: map<nat, Info>, consumed: map<nat, string>, pid: nat)
    requires StrictRun(exp) && CombinedAs(files, victims, exp, dir, m, consumed) && StartOf(pid) in files
    ensures Settled(files, dir, consumed, pid) || AuxiliaryChild(files, pid) || VerifiedVictim(files, victims, exp, dir, m, pid)
  {
    var env := EnvFor(files, dir, m);
    assert pid in m && Good(pid, m[pid], env);
    assert ReadPid(files, victims, exp, pid) == Success(m[pid]);
    if !Auxiliary(m[pid]) && DutyOf(m[pid]) == OwesShard {
      FirstWanted(m, env, consumed, pid);
    } else if !Auxiliary(m[pid]) {
      OpenChildVerified(files, victims, exp, dir, m, consumed, pid);
    }
  }

  lemma ClassesExclude(files: map<Name, Content>, victims: map<nat, Victim>, exp: Expected, dir: Directory,
                       m: map<nat, Info>, consumed: map<nat, string>, pid: nat)
    requires StrictRun(exp) && CombinedAs(files, victims, exp, dir, m, consumed) && StartOf(pid) in files
    ensures !(Settled(files, dir, consumed, pid) && AuxiliaryChild(files, pid))
    ensures !(Settled(files, dir, consumed, pid) && VerifiedVictim(files, victims, exp, dir, m, pid))
    ensures !(AuxiliaryChild(files, pid) && VerifiedVictim(files, victims, exp, dir, m, pid))
  {
    assert pid in m && Good(pid, m[pid], EnvFor(files, dir, m));
    assert ReadPid(files, victims, exp, pid) == Success(m[pid]);
  }

  /** Every registered child of a strict combine is exactly one of settled, auxiliary, verified victim. */
  lemma CombineClassifies(files: map<Name, Content>, victims: map<nat, Victim>, exp: Expected, dir: Directory,
                          m: map<nat, Info>, consumed: map<nat, string>, pid: nat)
    requires StrictRun(exp) && CombinedAs(files, victims, exp, dir, m, consumed) && StartOf(pid) in files
    ensures Settled(files, dir, consumed, pid) || AuxiliaryChild(files, pid) || VerifiedVictim(files, victims, exp, dir, m, pid)
    ensures !(Settled(files, dir, consumed, pid) && AuxiliaryChild(files, pid))
    ensures !(Settled(files, dir, consumed, pid) && VerifiedVictim(files, victims, exp, dir, m, pid))
    ensures !(AuxiliaryChild(files, pid) && VerifiedVictim(files, victims, exp, dir, m, pid))
  {
    CombineCovers(files, victims, exp, dir, m, consumed, pid);
    ClassesExclude(files, victims, exp, dir, m, consumed, pid);
  }

  /** No shard goes to two children, and every shard file was consumed or is the parent's. */
  lemma CombineConsumes(files: map<Name, Content>, victims: map<nat, Victim>, exp: Expected, dir: Directory,
                        m: map<nat, Info>, consumed: map<nat, string>)
    requires CombinedAs(files, victims, exp, dir, m, consumed)
    ensures forall p, q :: p in consumed && q in consumed && consumed[p] == consumed[q] ==> p == q
    ensures forall p :: p in consumed ==> p in m && consumed[p] in Shards(dir)
    ensures forall e :: e in Checked(dir) ==> (exists p :: p in consumed && consumed[p] == e) || dir.parentShard == Some(e)
  {
    forall p | p in consumed ensures p in m && consumed[p] in Shards(dir) {
      assert First(m, EnvFor(files, dir, m), p, consumed[p]);
    }
    forall p, q | p in consumed && q in consumed && consumed[p] == consumed[q] ensures p == q {
      assert First(m, EnvFor(files, dir, m), p, consumed[p]) && First(m, EnvFor(files, dir, m), q, consumed[q]);
    }
  }

  /**
   What the other checks of combine leave: no link among the coverage files, only known tokens, and no
   coverage file that neither a child consumed nor the parent wrote.
   */
  lemma CombineChecks(files: map<Name, Content>, victims: map<nat, Victim>, exp: Expected, dir: Directory,
                      m: map<nat, Info>, consumed: map<nat, string>)
    requires CombinedAs(files, victims, exp, dir, m, consumed)
    ensures forall e :: e in dir.listing && ".coverage" <= e.name ==> !e.symlink
    ensures forall pid :: pid in m && dir.tokens.Some? && m[pid].id.token != "" ==> m[pid].id.token in dir.tokens.value
    ensures forall e :: e in dir.listing && '/' !in e.name && (e.name == ".coverage" || ".coverage." <= e.name) ==>
      (exists p :: p in consumed && consumed[p] == dir.root + "/" + e.name) || dir.parentShard == Some(dir.root + "/" + e.name)
  {
    forall pid | pid in m ensures m[pid].Info? {
      assert Good(pid, m[pid], EnvFor(files, dir, m));
    }
    forall e | e in dir.listing && '/' !in e.name && (e.name == ".coverage" || ".coverage." <= e.name)
      ensures (exists p :: p in consumed && consumed[p] == dir.root + "/" + e.name) ||
              dir.parentShard == Some(dir.root + "/" + e.name)
    {
      assert PathOf(dir, e) in Checked(dir);
    }
  }

  /** The shard text of a child: its receipt's, or in a lenient run its shard file's first. */
  lemma NamedShard(files: map<Name, Content>, victims: map<nat, Victim>, exp: Expected, dir: Directory,
                   m: map<nat, Info>, pid: nat)
    requires Reads(files, victims, exp, m) && pid in m && m[pid].Info?
    ensures
      var text := ShardText(pid, m[pid], EnvFor(files, dir, m));
      var shard, exit := ContentAt(files, Marker(PidKey(pid), Shard)), ContentAt(files, Marker(PidKey(pid), Exit));
      var own := if exit.Receipt? then exit.shard else "";
      if exp.invocation.Some? && m[pid].id.role != AUXILIARY then text == own
      else if shard.ShardName? && shard.shard != "" then text == shard.shard
      else text == own
  {
    assert ReadPid(files, victims, exp, pid) == Success(m[pid]);
  }

  // ----- across every interleaving

  /**
   In every mode, a child that left its start marker but never registered makes combine refuse,
   unless it is auxiliary or a verified victim.
   */
  lemma LoserRefused(actions: seq<Action>, c: nat, victims: map<nat, Victim>, exp: Expected, dir: Directory,
                     m: map<nat, Info>, consumed: map<nat, string>)
    requires
      var s := Exec(INITIAL, actions);
      c in s.children && s.children[c].phase != Registered && s.children[c].made > 0
    requires CombinedAs(Exec(INITIAL, actions).files, victims, exp, dir, m, consumed)
    ensures
      var s := Exec(INITIAL, actions);
      s.children[c].id.role == AUXILIARY || VerifiedVictim(s.files, victims, exp, dir, m, s.children[c].id.pid)
  {
    LoserStaysPending(actions, c);
    var s := Exec(INITIAL, actions);
    var pid := s.children[c].id.pid;
    assert StartOf(pid) in s.files;
    assert pid in m && Good(pid, m[pid], EnvFor(s.files, dir, m));
    assert ReadPid(s.files, victims, exp, pid) == Success(m[pid]);
    if s.children[c].id.role != AUXILIARY {
      assert LeftOpen(s.files, victims, exp, m, pid);
      OpenChildVerified(s.files, victims, exp, dir, m, consumed, pid);
    }
  }

  lemma {:induction false} ExecConcat(s: State, a: seq<Action>, b: seq<Action>)
    ensures Exec(s, a + b) == Exec(Exec(s, a), b)
    decreases |a|
  {
    if a == [] {
      assert a + b == b;
    } else {
      assert (a + b)[0] == a[0] && (a + b)[1..] == a[1..] + b;
      ExecConcat(Apply(s, a[0]), a[1..], b);
    }
  }

  /**
   A settled child registered, and at no point of the run was its receipt overwritten by an
   invalidation; if it had begun to invalidate, its receipt was complete before and no such write followed.
   */
  lemma SettledWasNeverInvalidated(actions: seq<Action>, k: nat, dir: Directory, consumed: map<nat, string>, pid: nat)
    requires k <= |actions| && Settled(Exec(INITIAL, actions).files, dir, consumed, pid)
    ensures !Invalidated(Exec(INITIAL, actions[..k]), Marker(PidKey(pid), Exit))
    ensures
      var s := Exec(INITIAL, actions);
      exists c :: c in s.children && s.children[c].phase == Registered && s.children[c].id.pid == pid
    ensures
      var early, name := Exec(INITIAL, actions[..k]), Marker(PidKey(pid), Exit);
      forall c :: Invalidates(early, c, name) ==> CompleteAt(early, name) && !Overwritten(early, actions[k..], c, name)
  {
    var name := Marker(PidKey(pid), Exit);
    var s, early := Exec(INITIAL, actions), Exec(INITIAL, actions[..k]);
    RunKeepsInv(INITIAL, actions);
    RunKeepsInv(INITIAL, actions[..k]);
    assert actions == actions[..k] + actions[k..];
    ExecConcat(INITIAL, actions[..k], actions[k..]);
    if Invalidated(early, name) {
      InvalidatedForever(early, actions[k..], name);
    }
    forall c | Invalidates(early, c, name)
      ensures CompleteAt(early, name) && !Overwritten(early, actions[k..], c, name)
    {
      InvalidationExact(early, actions[k..], c, name);
    }
    assert s.children[s.creator[name]].phase == Registered;
  }

  // ----- whose shard it is

  /** The name of a shard carries the child's number, or its token if it has one. */
  ghost predicate CarriesIdentity(path: string, pid: nat, token: string) {
    || Decimal(pid) in Parts(path) || ("pid" + Decimal(pid)) in Parts(path)
    || (token != "" && token in Parts(path))
  }

  /** Every shard of the directory has an empty part, because its name starts with a dot. */
  lemma ShardsHaveEmptyPart(dir: Directory, path: string)
    requires path in Shards(dir)
    ensures "" in Parts(path)
  {
    var e :| e in dir.listing && Listed(dir, e) && ".coverage." <= e.name && path == PathOf(dir, e);
    BaseOf(dir.root, e.name);
    LeadingDot(e.name);
  }

  /** The attribution test on shards of the directory: real for a child with a token, void for one without. */
  lemma AttributionOfShards(dir: Directory, path: string, pid: nat, token: string)
    requires path in Shards(dir)
    ensures Attributable(path, pid, token) <==> token == "" || CarriesIdentity(path, pid, token)
  {
    ShardsHaveEmptyPart(dir, path);
  }

  /** The parent's names: its data file, a name with `.parent.` in it, or one with its number between dots. */
  lemma ParentShardMeans(path: string, env: Env)
    ensures ParentShard(path, env) <==>
            || path == env.parentPath
            || (exists a: string, b: string :: Base(path) == a + "." + ("parent" + "." + b))
            || Decimal(env.parentPid) in Split(Base(path))
  {
    BetweenDots(Base(path), "parent");
  }

  /**
   Exactly when a measured child passes on its own: its receipt names an existing shard of the data
   directory that is not the parent's and that carries the child's identity, this last only if the
   child has a token.
   */
  lemma MeasuredChildGood(files: map<Name, Content>, dir: Directory, m: map<nat, Info>, pid: nat)
    requires pid in m && m[pid].Info? && !Auxiliary(m[pid]) && DutyOf(m[pid]) == OwesShard
    ensures
      var env := EnvFor(files, dir, m);
      var text := ShardText(pid, m[pid], env);
      var c := dir.view(text);
      Good(pid, m[pid], env) <==>
      && text != "" && !c.symlink && c.inside && c.path in Shards(dir) && !ParentShard(c.path, env)
      && (m[pid].id.token == "" || CarriesIdentity(c.path, pid, m[pid].id.token))
  {
    var env := EnvFor(files, dir, m);
    var path := dir.view(ShardText(pid, m[pid], env)).path;
    if path in Shards(dir) {
      AttributionOfShards(dir, path, pid, m[pid].id.token);
    }
  }

  /**
   After a combine every consumed shard is the one its child names, and it carries the identity of
   its child if and only if the child has a token or the name happens to hold the child's number.
   */
  lemma ConsumedIdentity(files: map<Name, Content>, victims: map<nat, Victim>, exp: Expected, dir: Directory,
                         m: map<nat, Info>, consumed: map<nat, string>, pid: nat)
    requires CombinedAs(files, victims, exp, dir, m, consumed) && pid in consumed
    ensures pid in m && m[pid].Info?
    ensures
      var id, path := m[pid].id, consumed[pid];
      && path == dir.view(ShardText(pid, m[pid], EnvFor(files, dir, m))).path
      && (CarriesIdentity(path, pid, id.token) <==> id.token != "" || CarriesIdentity(path, pid, ""))
  {
    var env := EnvFor(files, dir, m);
    assert First(m, env, pid, consumed[pid]);
    AttributionOfShards(dir, consumed[pid], pid, m[pid].id.token);
  }
}
