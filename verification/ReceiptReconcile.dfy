/**
 Reconciling receipts with coverage shards (tools/runner_coverage_receipts.py and the strict part
 of `combine` in tools/runner_coverage.py): children are judged in order of process number, each
 shard is consumed at most once, and declared victims are counted against their owner's maximum.
 */
module ReceiptReconcile {
  import opened Wrappers
  import opened Decimals
  import opened ReceiptProtocol
  import opened ReceiptReading
  import opened ShardNames

  /** How a shard text resolves on disk. */
  datatype Candidate = Candidate(symlink: bool, inside: bool, path: string)

  datatype VictimDeclaration = VictimDeclaration(owner: string, role: string, permitted: seq<int>, most: nat)

  datatype Env = Env(view: string -> Candidate, shards: set<string>, parentPath: string, parentPid: nat,
                     alive: set<nat>, declarations: seq<VictimDeclaration>, texts: map<nat, string>)

  function Find(owner: string, declarations: seq<VictimDeclaration>): (r: Option<VictimDeclaration>)
    ensures r.Some? ==> r.value.owner == owner && r.value in declarations
  {
    if owner == "" || declarations == [] then None
    else if declarations[0].owner == owner then Some(declarations[0])
    else Find(owner, declarations[1..])
  }

  /** A verified victim note, before its owner's maximum is considered. */
  predicate Eligible(pid: nat, info: Info, env: Env)
    requires info.Info?
  {
    var d := Find(info.id.owner, env.declarations);
    && d.Some? && info.id.role == d.value.role && info.victim.Some?
    && var v := info.victim.value;
    && v.owner == d.value.owner && v.owner == info.id.owner && v.pid == pid
    && (info.id.ppid == 0 || v.ppid == info.id.ppid)
    && (info.id.invocation == "" || v.invocation == info.id.invocation)
    && v.backendDisappeared && v.descriptorClosed && v.processCleaned
    && v.exitcode in d.value.permitted && pid !in env.alive
  }

  function Most(owner: string, env: Env): nat {
    var d := Find(owner, env.declarations);
    if d.Some? then d.value.most else 0
  }

  predicate Auxiliary(info: Info) {
    info.id.role == AUXILIARY
  }

  /** What a child owes the parent: nothing, a victim note, a shard; or it is refused outright. */
  datatype Duty = Free | OwesVictim | OwesShard | Refused

  function DutyOf(info: Info): Duty
    requires info.Info?
  {
    if !info.started then
      if Auxiliary(info) then Free
      else if info.strict && !info.exited then OwesVictim
      else Refused
    else if info.terminalError != "" then Refused
    else if info.strict && !info.exited then OwesVictim
    else OwesShard
  }

  function ShardText(pid: nat, info: Info, env: Env): string
    requires info.Info?
  {
    if info.strict then info.shard else if pid in env.texts then env.texts[pid] else ""
  }

  predicate Escapes(pid: nat, info: Info, env: Env)
    requires info.Info?
  {
    var text := ShardText(pid, info, env);
    text != "" && (env.view(text).symlink || !env.view(text).inside)
  }

  /** The dot-separated parts of a shard's file name. */
  function Parts(path: string): seq<string> {
    Split(Base(path))
  }

  /** A path reserved for the parent: its data file, a `.parent.` name, or its process number in the name. */
  predicate ParentShard(path: string, env: Env) {
    var parts := Parts(path);
    || path == env.parentPath
    || (exists i :: 0 < i < |parts| - 1 && parts[i] == "parent")
    || Decimal(env.parentPid) in parts
  }

  /** The attribution test: the child's number or its recorded token is a part of the name. */
  predicate Attributable(path: string, pid: nat, token: string) {
    var parts := Parts(path);
    Decimal(pid) in parts || ("pid" + Decimal(pid)) in parts || token in parts
  }

  /** The shard a child names, when it exists, is not the parent's, and is attributable to the child. */
  function Wanted(pid: nat, info: Info, env: Env): Option<string>
    requires info.Info?
  {
    var text := ShardText(pid, info, env);
    var path := env.view(text).path;
    if text != "" && path in env.shards && !ParentShard(path, env) && Attributable(path, pid, info.id.token)
    then Some(path) else None
  }

  // ----- when reconciliation succeeds

  ghost predicate Good(pid: nat, info: Info, env: Env) {
    && info.Info? && !DutyOf(info).Refused?
    && (DutyOf(info) == OwesVictim ==> Eligible(pid, info, env))
    && (DutyOf(info) == OwesShard ==>
          !Escapes(pid, info, env) && (Auxiliary(info) || Wanted(pid, info, env).Some?))
  }

  ghost predicate Wants(m: map<nat, Info>, env: Env, pid: nat, path: string) {
    pid in m && m[pid].Info? && DutyOf(m[pid]) == OwesShard && Wanted(pid, m[pid], env) == Some(path)
  }

  /** No child with a smaller number wants the same shard. */
  ghost predicate First(m: map<nat, Info>, env: Env, pid: nat, path: string) {
    Wants(m, env, pid, path) && forall q :: Wants(m, env, q, path) ==> pid <= q
  }

  ghost function Victims(m: map<nat, Info>, pids: set<nat>, owner: string): set<nat> {
    set q | q in pids && q in m && m[q].Info? && DutyOf(m[q]) == OwesVictim && m[q].id.owner == owner
  }

  /** Every child is good alone, owners stay within their maximum, and no measured child shares an earlier shard. */
  ghost predicate Reconcilable(m: map<nat, Info>, env: Env) {
    && (forall pid :: pid in m ==> Good(pid, m[pid], env))
    && (forall pid :: pid in m && m[pid].Info? && DutyOf(m[pid]) == OwesVictim ==>
          |Victims(m, m.Keys, m[pid].id.owner)| <= Most(m[pid].id.owner, env))
    && (forall pid, path :: Wants(m, env, pid, path) && !Auxiliary(m[pid]) ==> First(m, env, pid, path))
  }

  /** Which child consumed which shard. */
  ghost predicate Consumption(m: map<nat, Info>, env: Env, consumed: map<nat, string>) {
    && (forall pid :: pid in consumed ==> First(m, env, pid, consumed[pid]))
    && (forall pid, path :: First(m, env, pid, path) ==> pid in consumed && consumed[pid] == path)
  }

  lemma {:induction false} MinimumExists(s: set<nat>) returns (x: nat)
    requires s != {}
    ensures x in s && forall y: nat :: y in s ==> x <= y
    decreases |s|
  {
    x :| x in s;
    if s - {x} != {} {
      var y := MinimumExists(s - {x});
      assert forall z: nat :: z in s ==> z == x || z in s - {x};
      if y < x {
        x := y;
      }
    }
  }

  /** The next key in ascending order. */
  function Smallest(s: set<nat>): (x: nat)
    requires s != {}
    ensures x in s && forall y: nat :: y in s ==> x <= y
  {
    assert exists x: nat :: x in s && forall y: nat :: y in s ==> x <= y by {
      var x := MinimumExists(s);
    }
    var x: nat :| x in s && forall y: nat :: y in s ==> x <= y;
    x
  }

  function Count(counts: map<string, nat>, owner: string): nat {
    if owner in counts then counts[owner] else 0
  }

  /** What is known of the children `seen` so far: each is good, and who has taken which shard. */
  ghost predicate ShardsJudged(m: map<nat, Info>, env: Env, seen: set<nat>, consumed: map<nat, string>,
                               paths: set<string>) {
    && (forall q :: q in seen ==> q in m && Good(q, m[q], env))
    && PathsWanted(m, env, seen, paths) && ConsumedFirst(m, env, seen, consumed)
  }

  ghost predicate PathsWanted(m: map<nat, Info>, env: Env, seen: set<nat>, paths: set<string>) {
    forall path :: path in paths <==> exists q :: q in seen && Wants(m, env, q, path)
  }

  ghost predicate ConsumedFirst(m: map<nat, Info>, env: Env, seen: set<nat>, consumed: map<nat, string>) {
    && (forall q :: q in consumed ==> q in seen && First(m, env, q, consumed[q]))
    && (forall q, path :: q in seen && First(m, env, q, path) ==> q in consumed && consumed[q] == path)
    && (forall q, path :: q in seen && Wants(m, env, q, path) && !Auxiliary(m[q]) ==> First(m, env, q, path))
  }

  ghost predicate VictimsJudged(m: map<nat, Info>, env: Env, seen: set<nat>, counts: map<string, nat>) {
    && (forall owner :: Count(counts, owner) == |Victims(m, seen, owner)|)
    && (forall q :: q in seen && q in m && m[q].Info? && DutyOf(m[q]) == OwesVictim ==>
          |Victims(m, seen, m[q].id.owner)| <= Most(m[q].id.owner, env))
  }

  /** `pid` is the next child in order: everything seen is smaller, everything else is not. */
  ghost predicate IsNext(m: map<nat, Info>, seen: set<nat>, pid: nat) {
    && pid in m && pid !in seen && (forall q :: q in seen ==> q in m && q < pid)
    && (forall q: nat :: q in m && q !in seen ==> pid <= q)
  }

  datatype Fate = Passes | Counted(owner: string) | Consumes(path: string) | Stops(why: Refusal)

  /** Why a child is refused, in the order of the checks. */
  ghost predicate Blames(pid: nat, info: Info, env: Env, why: Refusal)
    requires info.Info?
  {
    match why
    case BootstrapFailed => !info.started && info.id.role != AUXILIARY
    case SaveFailed => info.started && info.terminalError != ""
    case ReceiptIncomplete => info.started && info.terminalError == "" && info.strict && !info.exited
    case ShardRejected =>
      && info.started && info.terminalError == "" && (info.strict ==> info.exited)
      && ShardText(pid, info, env) != ""
      && (env.view(ShardText(pid, info, env)).symlink || !env.view(ShardText(pid, info, env)).inside)
    case ShardMissing =>
      && info.started && info.terminalError == "" && (info.strict ==> info.exited) && info.id.role != AUXILIARY
      && (ShardText(pid, info, env) != "" ==>
            !env.view(ShardText(pid, info, env)).symlink && env.view(ShardText(pid, info, env)).inside)
    case _ => false
  }

  /** The judgement of one child, check by check. */
  method JudgeChild(pid: nat, info: Info, env: Env, paths: set<string>, counts: map<string, nat>)
    returns (fate: Fate)
    requires info.Info?
    ensures fate.Stops? <==>
      || !Good(pid, info, env)
      || (DutyOf(info) == OwesVictim && Count(counts, info.id.owner) >= Most(info.id.owner, env))
      || (DutyOf(info) == OwesShard && !Auxiliary(info) && Wanted(pid, info, env).value in paths)
    ensures fate.Stops? ==> Blames(pid, info, env, fate.why)
    ensures fate.Counted? <==> !fate.Stops? && DutyOf(info) == OwesVictim
    ensures fate.Counted? ==> fate.owner == info.id.owner
    ensures fate.Consumes? <==>
      !fate.Stops? && DutyOf(info) == OwesShard && Wanted(pid, info, env).Some? && Wanted(pid, info, env).value !in paths
    ensures fate.Consumes? ==> fate.path == Wanted(pid, info, env).value
  {
    var victim := Eligible(pid, info, env) && Count(counts, info.id.owner) < Most(info.id.owner, env);
    if !info.started {
      if Auxiliary(info) {
        return Passes;
      }
      if info.strict && !info.exited && victim {
        return Counted(info.id.owner);
      }
      return Stops(BootstrapFailed);
    }
    if info.terminalError != "" {
      return Stops(SaveFailed);
    }
    if info.strict && !info.exited {
      return if victim then Counted(info.id.owner) else Stops(ReceiptIncomplete);
    }
    if Escapes(pid, info, env) {
      return Stops(ShardRejected);
    }
    var shard := Wanted(pid, info, env);
    if shard.Some? && shard.value !in paths {
      return Consumes(shard.value);
    }
    return if Auxiliary(info) then Passes else Stops(ShardMissing);
  }

  /** A child that stops the loop breaks a condition of the whole. */
  lemma StopIsUnreconcilable(m: map<nat, Info>, env: Env, seen: set<nat>, consumed: map<nat, string>,
                             paths: set<string>, counts: map<string, nat>, pid: nat)
    requires ShardsJudged(m, env, seen, consumed, paths) && VictimsJudged(m, env, seen, counts)
    requires IsNext(m, seen, pid) && m[pid].Info?
    requires
      || !Good(pid, m[pid], env)
      || (DutyOf(m[pid]) == OwesVictim && Count(counts, m[pid].id.owner) >= Most(m[pid].id.owner, env))
      || (DutyOf(m[pid]) == OwesShard && !Auxiliary(m[pid]) && Wanted(pid, m[pid], env).Some? &&
          Wanted(pid, m[pid], env).value in paths)
    ensures !Reconcilable(m, env)
  {
    var info := m[pid];
    if Good(pid, info, env) {
      if DutyOf(info) == OwesVictim {
        var some, all := Victims(m, seen, info.id.owner), Victims(m, m.Keys, info.id.owner);
        assert some + {pid} <= all;
        SubsetSize(some + {pid}, all);
      } else {
        assert Wants(m, env, pid, Wanted(pid, info, env).value);
      }
    }
  }

  lemma {:induction false} SubsetSize<T>(a: set<T>, b: set<T>)
    requires a <= b
    ensures |a| <= |b|
  {
    assert b == a + (b - a);
    assert |b| == |a| + |b - a|;
  }

  lemma VictimsStep(m: map<nat, Info>, env: Env, seen: set<nat>, counts: map<string, nat>, pid: nat)
    requires VictimsJudged(m, env, seen, counts) && IsNext(m, seen, pid) && m[pid].Info?
    requires DutyOf(m[pid]) == OwesVictim && Count(counts, m[pid].id.owner) < Most(m[pid].id.owner, env)
    ensures VictimsJudged(m, env, seen + {pid}, counts[m[pid].id.owner := Count(counts, m[pid].id.owner) + 1])
  {
    var next := counts[m[pid].id.owner := Count(counts, m[pid].id.owner) + 1];
    forall owner
      ensures Count(next, owner) == |Victims(m, seen + {pid}, owner)|
      ensures |Victims(m, seen + {pid}, owner)| ==
              |Victims(m, seen, owner)| + if owner == m[pid].id.owner then 1 else 0
    {
      VictimsGrow(m, seen, pid, owner);
    }
  }

  lemma VictimsGrow(m: map<nat, Info>, seen: set<nat>, pid: nat, owner: string)
    requires pid in m && pid !in seen && m[pid].Info? && DutyOf(m[pid]) == OwesVictim
    ensures |Victims(m, seen + {pid}, owner)| ==
            |Victims(m, seen, owner)| + if owner == m[pid].id.owner then 1 else 0
  {
    var added: set<nat> := if owner == m[pid].id.owner then {pid} else {};
    assert Victims(m, seen + {pid}, owner) == Victims(m, seen, owner) + added;
  }

  lemma NoVictimStep(m: map<nat, Info>, env: Env, seen: set<nat>, counts: map<string, nat>, pid: nat)
    requires VictimsJudged(m, env, seen, counts) && IsNext(m, seen, pid) && m[pid].Info?
    requires DutyOf(m[pid]) != OwesVictim
    ensures VictimsJudged(m, env, seen + {pid}, counts)
  {
    forall owner ensures Victims(m, seen + {pid}, owner) == Victims(m, seen, owner) {
    }
  }

  lemma PathsStep(m: map<nat, Info>, env: Env, seen: set<nat>, paths: set<string>, pid: nat, more: set<string>)
    requires PathsWanted(m, env, seen, paths)
    requires forall p :: Wants(m, env, pid, p) ==> p in paths + more
    requires forall p :: p in more ==> Wants(m, env, pid, p)
    ensures PathsWanted(m, env, seen + {pid}, paths + more)
  {
    forall p | p in paths + more ensures exists q :: q in seen + {pid} && Wants(m, env, q, p) {
      if p in paths {
        var q :| q in seen && Wants(m, env, q, p);
        assert q in seen + {pid};
      } else {
        assert pid in seen + {pid};
      }
    }
  }

  /** A shard that no child before wanted is wanted first by this one. */
  lemma WantedFirst(m: map<nat, Info>, env: Env, seen: set<nat>, paths: set<string>, pid: nat, path: string)
    requires PathsWanted(m, env, seen, paths) && IsNext(m, seen, pid) && Wants(m, env, pid, path)
    ensures First(m, env, pid, path) <==> path !in paths
  {
  }

  lemma ConsumeStep(m: map<nat, Info>, env: Env, seen: set<nat>, consumed: map<nat, string>,
                    paths: set<string>, pid: nat, path: string)
    requires ShardsJudged(m, env, seen, consumed, paths) && IsNext(m, seen, pid) && Good(pid, m[pid], env)
    requires Wants(m, env, pid, path) && path !in paths
    ensures ShardsJudged(m, env, seen + {pid}, consumed[pid := path], paths + {path})
  {
    WantedFirst(m, env, seen, paths, pid, path);
    PathsStep(m, env, seen, paths, pid, {path});
    assert forall p :: Wants(m, env, pid, p) ==> p == path;
    assert ConsumedFirst(m, env, seen + {pid}, consumed[pid := path]);
  }

  lemma PassStep(m: map<nat, Info>, env: Env, seen: set<nat>, consumed: map<nat, string>,
                 paths: set<string>, pid: nat)
    requires ShardsJudged(m, env, seen, consumed, paths) && IsNext(m, seen, pid) && Good(pid, m[pid], env)
    requires DutyOf(m[pid]) == OwesShard ==>
      Auxiliary(m[pid]) && (Wanted(pid, m[pid], env).Some? ==> Wanted(pid, m[pid], env).value in paths)
    ensures ShardsJudged(m, env, seen + {pid}, consumed, paths)
  {
    forall p | Wants(m, env, pid, p) ensures p in paths && !First(m, env, pid, p) {
      WantedFirst(m, env, seen, paths, pid, p);
    }
    PathsStep(m, env, seen, paths, pid, {});
    assert paths + {} == paths;
    assert ConsumedFirst(m, env, seen + {pid}, consumed);
  }

  method JudgeNext(m: map<nat, Info>, env: Env, ghost seen: set<nat>, pid: nat,
                   consumed: map<nat, string>, paths: set<string>, counts: map<string, nat>)
    returns (stop: Option<Refusal>, newConsumed: map<nat, string>, newPaths: set<string>, newCounts: map<string, nat>)
    requires ShardsJudged(m, env, seen, consumed, paths) && VictimsJudged(m, env, seen, counts)
    requires IsNext(m, seen, pid) && m[pid].Info?
    ensures stop.Some? ==> !Reconcilable(m, env) && Blames(pid, m[pid], env, stop.value)
    ensures stop.None? ==> VictimsJudged(m, env, seen + {pid}, newCounts)
    ensures stop.None? ==> ShardsJudged(m, env, seen + {pid}, newConsumed, newPaths)
  {
    newConsumed, newPaths, newCounts := consumed, paths, counts;
    stop := None;
    var fate := JudgeChild(pid, m[pid], env, paths, counts);
    match fate {
      case Stops(why) =>
        StopIsUnreconcilable(m, env, seen, consumed, paths, counts, pid);
        stop := Some(why);
      case Counted(owner) =>
        VictimsStep(m, env, seen, counts, pid);
        PassStep(m, env, seen, consumed, paths, pid);
        newCounts := counts[owner := Count(counts, owner) + 1];
      case Consumes(path) =>
        NoVictimStep(m, env, seen, counts, pid);
        ConsumeStep(m, env, seen, consumed, paths, pid, path);
        newConsumed, newPaths := consumed[pid := path], paths + {path};
      case Passes =>
        NoVictimStep(m, env, seen, counts, pid);
        PassStep(m, env, seen, consumed, paths, pid);
    }
  }

  /** `todo` is what is left, all of it after what was seen. */
  ghost predicate Remaining(m: map<nat, Info>, seen: set<nat>, todo: set<nat>) {
    todo == m.Keys - seen && seen <= m.Keys && forall q: nat, t: nat :: q in seen && t in todo ==> q < t
  }

  method TakeNext(m: map<nat, Info>, ghost seen: set<nat>, todo: set<nat>) returns (pid: nat, rest: set<nat>)
    requires todo != {} && Remaining(m, seen, todo)
    ensures IsNext(m, seen, pid) && pid in todo && rest == todo - {pid} && Remaining(m, seen + {pid}, rest)
  {
    pid := Smallest(todo);
    rest := todo - {pid};
    forall q: nat | q in m && q !in seen ensures pid <= q {
      assert q in todo;
    }
  }

  lemma AllJudged(m: map<nat, Info>, env: Env, consumed: map<nat, string>, paths: set<string>, counts: map<string, nat>)
    requires ShardsJudged(m, env, m.Keys, consumed, paths) && VictimsJudged(m, env, m.Keys, counts)
    ensures Reconcilable(m, env) && Consumption(m, env, consumed)
  {
  }

  /** The loop over the registered children, in ascending order. */
  method JudgeAll(m: map<nat, Info>, env: Env) returns (stop: Option<Refusal>, consumed: map<nat, string>)
    requires forall pid :: pid in m ==> m[pid].Info?
    ensures stop.Some? ==> !Reconcilable(m, env)
    ensures stop.Some? ==> exists pid :: pid in m && Blames(pid, m[pid], env, stop.value)
    ensures stop.None? ==> Reconcilable(m, env) && Consumption(m, env, consumed)
  {
    var paths: set<string>, counts: map<string, nat> := {}, map[];
    consumed, stop := map[], None;
    var todo := m.Keys;
    ghost var seen: set<nat> := {};
    while todo != {}
      invariant stop.None? && Remaining(m, seen, todo)
      invariant ShardsJudged(m, env, seen, consumed, paths) && VictimsJudged(m, env, seen, counts)
      decreases |todo|
    {
      var pid, rest := TakeNext(m, seen, todo);
      stop, consumed, paths, counts := JudgeNext(m, env, seen, pid, consumed, paths, counts);
      if stop.Some? {
        return;
      }
      todo, seen := rest, seen + {pid};
    }
    assert seen == m.Keys;
    AllJudged(m, env, consumed, paths, counts);
  }

  /** Success exactly when the whole set of children is reconcilable, and then shards go to their first claimants. */
  method ReconcileChildManifests(m: map<nat, Info>, env: Env) returns (r: Result<map<nat, string>, Refusal>)
    ensures r.Success? <==> Reconcilable(m, env)
    ensures r.Success? ==> Consumption(m, env, r.value)
    ensures r == Failure(RegistrationFailed) <==> exists pid :: pid in m && m[pid].NotRegistered?
    ensures r.Failure? && r.error != RegistrationFailed ==>
      exists pid :: pid in m && m[pid].Info? && Blames(pid, m[pid], env, r.error)
  {
    if exists pid :: pid in m && m[pid].NotRegistered? {
      return Failure(RegistrationFailed);
    }
    var stop, consumed := JudgeAll(m, env);
    return if stop.Some? then Failure(stop.value) else Success(consumed);
  }
}
