/**
 What the records of a leg are evidence of: which calls of pytest and of the test bodies must have
 happened, in which order, for a test record or a settled launch to exist, and what it then says.
 */
module LegEvidence {
  import opened Wrappers
  import opened Sequences
  import opened Population
  import opened PairedLegs

  // ----- settled launches

  /** Node `n` was started at call `a` and is the last node of the leg started before call `b`. */
  ghost predicate SelectedAt(nodeids: seq<NodeId>, calls: seq<HookCall>, n: NodeId, a: nat, b: nat) {
    && a < b <= |calls| && calls[a] == Protocol(n) && n in nodeids
    && (forall i :: 0 <= i < a ==> calls[i] != Protocol(n))
    && (forall i :: a < i < b && calls[i].Protocol? && calls[i].node in nodeids ==>
          exists j :: 0 <= j < i && calls[j] == calls[i])
  }

  lemma {:induction false} ExecutedMeans(calls: seq<HookCall>, x: NodeId)
    ensures x in ExecutedBy(calls) <==> exists i :: 0 <= i < |calls| && calls[i] == Protocol(x)
    decreases |calls|
  {
    if calls != [] {
      var rest, c := calls[..|calls| - 1], calls[|calls| - 1];
      ExecutedMeans(rest, x);
      assert forall i :: 0 <= i < |rest| ==> rest[i] == calls[i];
      assert c == Protocol(x) ==> x in ExecutedBy(calls);
    }
  }

  lemma {:induction false} CompletedMeans(calls: seq<HookCall>, x: NodeId)
    ensures x in CompletedBy(calls) <==>
            exists i :: 0 <= i < |calls| && calls[i].Report? && calls[i].node == x && calls[i].phase == Teardown
    decreases |calls|
  {
    if calls != [] {
      var rest, c := calls[..|calls| - 1], calls[|calls| - 1];
      CompletedMeans(rest, x);
      assert forall i :: 0 <= i < |rest| ==> rest[i] == calls[i];
      assert c.Report? && c.node == x && c.phase == Teardown ==> x in CompletedBy(calls);
    }
  }

  lemma {:induction false} Selected(nodeids: seq<NodeId>, declarations: seq<Declaration>, calls: seq<HookCall>, n: NodeId)
    returns (a: nat)
    requires ContextBy(nodeids, declarations, calls).current == Some(n)
    ensures SelectedAt(nodeids, calls, n, a, |calls|)
    decreases |calls|
  {
    var rest, c := calls[..|calls| - 1], calls[|calls| - 1];
    if c.Protocol? && c.node in nodeids && c.node !in ExecutedBy(rest) {
      a := |rest|;
      ExecutedMeans(rest, n);
    } else {
      a := Selected(nodeids, declarations, rest, n);
      if c.Protocol? && c.node in nodeids {
        ExecutedMeans(rest, c.node);
      }
    }
    assert forall i :: 0 <= i < |rest| ==> rest[i] == calls[i];
  }

  lemma {:induction false} Began(nodeids: seq<NodeId>, declarations: seq<Declaration>, calls: seq<HookCall>, n: NodeId)
    returns (b: nat)
    requires n in ContextBy(nodeids, declarations, calls).launches
    ensures b < |calls| && FindDeclaration(n, declarations).Some?
    ensures calls[b] == Begin(FindDeclaration(n, declarations).value.role, true)
    ensures ContextBy(nodeids, declarations, calls[..b]).current == Some(n)
    decreases |calls|
  {
    var rest := calls[..|calls| - 1];
    if n in ContextBy(nodeids, declarations, rest).launches {
      b := Began(nodeids, declarations, rest, n);
      assert calls[..b] == rest[..b];
    } else {
      b := |rest|;
    }
  }

  lemma {:induction false} Started(nodeids: seq<NodeId>, declarations: seq<Declaration>, calls: seq<HookCall>, n: NodeId)
    returns (c: nat)
    requires n in ContextBy(nodeids, declarations, calls).launches
    requires ContextBy(nodeids, declarations, calls).launches[n].pid.Some?
    ensures c < |calls| && calls[c] == Launched(n, ContextBy(nodeids, declarations, calls).launches[n].pid.value)
    ensures n in ContextBy(nodeids, declarations, calls[..c]).launches && calls[c].pid > 0
    decreases |calls|
  {
    var rest := calls[..|calls| - 1];
    var ctx := ContextBy(nodeids, declarations, rest);
    if n in ctx.launches && ctx.launches[n].pid.Some? {
      c := Started(nodeids, declarations, rest, n);
      assert calls[..c] == rest[..c];
    } else {
      c := |rest|;
    }
  }

  lemma {:induction false} Noticed(nodeids: seq<NodeId>, declarations: seq<Declaration>, calls: seq<HookCall>, n: NodeId)
    returns (d: nat)
    requires n in ContextBy(nodeids, declarations, calls).launches
    requires ContextBy(nodeids, declarations, calls).launches[n].checkpoint.Some?
    ensures d < |calls|
    ensures
      var ctx, early := ContextBy(nodeids, declarations, calls), ContextBy(nodeids, declarations, calls[..d]);
      && calls[d] == Checkpoint(n, ctx.launches[n].checkpoint.value)
      && n in early.launches && early.launches[n].pid.Some? && early.launches[n].pid == ctx.launches[n].pid
    decreases |calls|
  {
    var rest := calls[..|calls| - 1];
    var ctx := ContextBy(nodeids, declarations, rest);
    if n in ctx.launches && ctx.launches[n].checkpoint == ContextBy(nodeids, declarations, calls).launches[n].checkpoint {
      d := Noticed(nodeids, declarations, rest, n);
      assert calls[..d] == rest[..d];
    } else {
      d := |rest|;
    }
  }

  lemma {:induction false} Settles(nodeids: seq<NodeId>, declarations: seq<Declaration>, calls: seq<HookCall>, n: NodeId)
    returns (e: nat)
    requires n in ContextBy(nodeids, declarations, calls).records
    ensures e < |calls| && FindDeclaration(n, declarations).Some?
    ensures
      var d, early := FindDeclaration(n, declarations).value, ContextBy(nodeids, declarations, calls[..e]);
      && calls[e] == Settle(n, d.expectedReturn, true, true)
      && n in early.launches && early.launches[n].pid.Some? && early.launches[n].checkpoint.Some?
      && ContextBy(nodeids, declarations, calls).records[n] ==
           LaunchRecord(n, d.role, early.launches[n].pid.value, early.launches[n].checkpoint.value, d.expectedReturn)
    decreases |calls|
  {
    var rest := calls[..|calls| - 1];
    if n in ContextBy(nodeids, declarations, rest).records {
      e := Settles(nodeids, declarations, rest, n);
      assert calls[..e] == rest[..e];
    } else {
      e := |rest|;
    }
  }

  lemma SelectedSooner(nodeids: seq<NodeId>, calls: seq<HookCall>, m: nat, n: NodeId, a: nat, b: nat)
    requires b <= m <= |calls| && SelectedAt(nodeids, calls[..m], n, a, b)
    ensures SelectedAt(nodeids, calls, n, a, b)
  {
    assert forall i :: 0 <= i < b ==> calls[..m][i] == calls[i];
  }

  /** A launch with a process: the node was selected when it began in its declared role. */
  lemma LaunchStarted(nodeids: seq<NodeId>, declarations: seq<Declaration>, calls: seq<HookCall>, n: NodeId)
    returns (a: nat, b: nat, c: nat)
    requires n in ContextBy(nodeids, declarations, calls).launches
    requires ContextBy(nodeids, declarations, calls).launches[n].pid.Some?
    ensures a < b < c < |calls| && FindDeclaration(n, declarations).Some? && SelectedAt(nodeids, calls, n, a, b)
    ensures calls[b] == Begin(FindDeclaration(n, declarations).value.role, true)
    ensures calls[c] == Launched(n, ContextBy(nodeids, declarations, calls).launches[n].pid.value) && calls[c].pid > 0
  {
    c := Started(nodeids, declarations, calls, n);
    b := Began(nodeids, declarations, calls[..c], n);
    assert calls[..c][..b] == calls[..b];
    a := Selected(nodeids, declarations, calls[..b], n);
    SelectedSooner(nodeids, calls, b, n, a, b);
  }

  /**
   A settled launch of a node: the node was started and was the one selected when the launch began in its
   declared role, the process was registered, the declared checkpoint seen, and the launch settled with the
   declared return code, its cleanup and an unchanged source, in this order.
   */
  lemma LaunchEvidence(nodeids: seq<NodeId>, declarations: seq<Declaration>, calls: seq<HookCall>, n: NodeId)
    returns (a: nat, b: nat, c: nat, d: nat, e: nat)
    requires n in ContextBy(nodeids, declarations, calls).records
    ensures a < b < c < d < e < |calls| && FindDeclaration(n, declarations).Some?
    ensures
      var decl, r := FindDeclaration(n, declarations).value, ContextBy(nodeids, declarations, calls).records[n];
      && SelectedAt(nodeids, calls, n, a, b) && calls[b] == Begin(decl.role, true)
      && calls[c] == Launched(n, r.pid) && r.pid > 0 && calls[d] == Checkpoint(n, decl.checkpoint)
      && calls[e] == Settle(n, decl.expectedReturn, true, true)
      && r == LaunchRecord(n, decl.role, r.pid, decl.checkpoint, decl.expectedReturn)
  {
    e := Settles(nodeids, declarations, calls, n);
    ContextStaysOk(nodeids, declarations, calls[..e]);
    d := Noticed(nodeids, declarations, calls[..e], n);
    assert calls[..e][..d] == calls[..d];
    a, b, c := LaunchStarted(nodeids, declarations, calls[..d], n);
    SelectedSooner(nodeids, calls, d, n, a, b);
  }

  /** And those calls in a row, made while the node is selected, settle its launch. */
  lemma ProvedLaunchSettles(nodeids: seq<NodeId>, declarations: seq<Declaration>, ran: seq<NodeId>, ctx: Context,
                            n: NodeId, pid: nat)
    requires ctx.current == Some(n) && n !in ctx.launches && n !in ctx.records && pid > 0
    requires FindDeclaration(n, declarations).Some?
    ensures
      var d := FindDeclaration(n, declarations).value;
      var begun := AfterCall(nodeids, declarations, ran, ctx, Begin(d.role, true));
      var launched := AfterCall(nodeids, declarations, ran, begun, Launched(n, pid));
      var noticed := AfterCall(nodeids, declarations, ran, launched, Checkpoint(n, d.checkpoint));
      var settled := AfterCall(nodeids, declarations, ran, noticed, Settle(n, d.expectedReturn, true, true));
      settled.records == ctx.records[n := LaunchRecord(n, d.role, pid, d.checkpoint, d.expectedReturn)]
  {
  }

  // ----- test records

  /** A report that leaves a record: of the call phase, of a skip in setup, or of any failure. */
  predicate Leaves(c: HookCall, x: NodeId) {
    && c.Report? && c.node == x
    && match c.phase
       case Call => true
       case Setup => c.outcome == Skipped || c.outcome == Failed
       case Teardown => c.outcome == Failed
  }

  /** The reports that leave a record of the node, in order. */
  function ReportsOf(calls: seq<HookCall>, x: NodeId): (rs: seq<HookCall>)
    ensures forall c :: c in rs ==> Leaves(c, x) && c in calls
  {
    if calls == [] then []
    else
      var rest, c := calls[..|calls| - 1], calls[|calls| - 1];
      assert forall d :: d in rest ==> d in calls;
      ReportsOf(rest, x) + if Leaves(c, x) then [c] else []
  }

  function Lasting(c: HookCall): real
    requires c.Report?
  {
    if c.duration > 0.0 then c.duration else 0.0
  }

  /** The seconds of the first report and of every later failure. */
  function Seconds(rs: seq<HookCall>): real
    requires rs != [] && forall c :: c in rs ==> c.Report?
  {
    var last := rs[|rs| - 1];
    assert last in rs;
    if |rs| == 1 then Lasting(last)
    else
      assert forall c :: c in rs[..|rs| - 1] ==> c in rs;
      Seconds(rs[..|rs| - 1]) + if last.outcome == Failed then Lasting(last) else 0.0
  }

  ghost predicate FirstFailure(rs: seq<HookCall>, f: nat) {
    && f < |rs| && rs[f].Report? && rs[f].outcome == Failed
    && forall i :: 0 <= i < f ==> !(rs[i].Report? && rs[i].outcome == Failed)
  }

  /** A failure with a text, the first there is. */
  ghost predicate FirstText(rs: seq<HookCall>, k: nat) {
    && k < |rs| && rs[k].Report? && rs[k].outcome == Failed && rs[k].message != ""
    && forall i :: 0 <= i < k && rs[i].Report? && rs[i].outcome == Failed ==> rs[i].message == ""
  }

  /** Given the first failure. */
  ghost predicate FailureText(text: string, rs: seq<HookCall>, f: nat)
    requires FirstFailure(rs, f)
  {
    if rs[f].message == "" && f > 0 && rs[0].Report? && rs[0].message != "" then text == rs[0].message
    else
      && (forall k: nat :: FirstText(rs, k) ==> text == rs[k].message)
      && ((forall k: nat :: !FirstText(rs, k)) ==> text == "")
  }

  /**
   The text of a failed record is that of the first failure that has one; but when the first failure has
   none and an earlier report of the node left a text, that text stays, whatever fails later.
   */
  ghost predicate TextSays(text: string, rs: seq<HookCall>)
    requires rs != [] && forall c :: c in rs ==> c.Report?
  {
    && ((forall f: nat :: !FirstFailure(rs, f)) ==> text == rs[0].message)
    && (forall f: nat :: FirstFailure(rs, f) ==> FailureText(text, rs, f))
  }

  /** What a record says: failed if any report failed, else the first outcome. */
  ghost predicate Says(r: TestRecord, x: NodeId, rs: seq<HookCall>)
    requires rs != [] && forall c :: c in rs ==> c.Report?
  {
    && r.id == x && r.duration == Seconds(rs)
    && (r.status == Failed <==> exists i :: 0 <= i < |rs| && rs[i].outcome == Failed)
    && (r.status != Failed ==> r.status == rs[0].outcome)
    && TextSays(r.message, rs)
  }

  lemma {:induction false} FailureExists(rs: seq<HookCall>) returns (f: nat)
    requires exists i :: 0 <= i < |rs| && rs[i].Report? && rs[i].outcome == Failed
    ensures FirstFailure(rs, f)
    decreases |rs|
  {
    var i :| 0 <= i < |rs| && rs[i].Report? && rs[i].outcome == Failed;
    if j :| 0 <= j < i && rs[j].Report? && rs[j].outcome == Failed {
      assert rs[..i][j] == rs[j];
      f := FailureExists(rs[..i]);
      assert forall k :: 0 <= k < i ==> rs[..i][k] == rs[k];
    } else {
      f := i;
    }
  }

  /** One more failure: what the first failure and the first text become. */
  lemma FirstsMore(rs: seq<HookCall>, c: HookCall)
    requires c.Report?
    ensures forall f: nat :: f < |rs| ==> (FirstFailure(rs + [c], f) <==> FirstFailure(rs, f))
    ensures forall k: nat :: k < |rs| ==> (FirstText(rs + [c], k) <==> FirstText(rs, k))
    ensures FirstFailure(rs + [c], |rs|) <==>
            c.outcome == Failed && forall i :: 0 <= i < |rs| ==> !(rs[i].Report? && rs[i].outcome == Failed)
    ensures FirstText(rs + [c], |rs|) <==>
            c.outcome == Failed && c.message != "" &&
            forall i :: 0 <= i < |rs| && rs[i].Report? && rs[i].outcome == Failed ==> rs[i].message == ""
  {
    var more := rs + [c];
    assert more[|rs|] == c;
    assert forall i :: 0 <= i < |rs| ==> more[i] == rs[i];
  }

  /** A further failure: a text that is there stays. */
  lemma FailedAgain(text: string, rs: seq<HookCall>, c: HookCall, f: nat)
    requires FirstFailure(rs, f) && FailureText(text, rs, f) && c.Report? && c.outcome == Failed
    ensures FirstFailure(rs + [c], f)
    ensures FailureText(if text != "" then text else c.message, rs + [c], f)
  {
    FirstsMore(rs, c);
    var more := rs + [c];
    assert forall i :: 0 <= i < |rs| ==> more[i] == rs[i];
    if exists k: nat :: FirstText(rs, k) {
      var k: nat :| FirstText(rs, k);
      assert FirstText(more, k);
      forall l: nat | FirstText(more, l) ensures l == k {
      }
    } else {
      TextOrNone(rs);
    }
  }

  lemma {:induction false} TextOrNone(rs: seq<HookCall>)
    ensures (exists k: nat :: FirstText(rs, k)) ||
            forall i :: 0 <= i < |rs| && rs[i].Report? && rs[i].outcome == Failed ==> rs[i].message == ""
    decreases |rs|
  {
    if rs != [] {
      var init := rs[..|rs| - 1];
      TextOrNone(init);
      assert forall i :: 0 <= i < |init| ==> init[i] == rs[i];
      if k: nat :| FirstText(init, k) {
        assert FirstText(rs, k);
      } else {
        var last := rs[|rs| - 1];
        if last.Report? && last.outcome == Failed && last.message != "" {
          assert FirstText(rs, |rs| - 1);
        }
      }
    }
  }

  lemma TextMore(r: TestRecord, rs: seq<HookCall>, c: HookCall)
    requires rs != [] && (forall d :: d in rs ==> d.Report?) && c.Report? && c.outcome == Failed
    requires TextSays(r.message, rs) && (r.status == Failed <==> exists i :: 0 <= i < |rs| && rs[i].outcome == Failed)
    requires forall d :: d in rs + [c] ==> d.Report?
    ensures TextSays(MergeFailure(r, c.duration, c.message).message, rs + [c])
  {
    var more := rs + [c];
    if r.status == Failed {
      var i :| 0 <= i < |rs| && rs[i].outcome == Failed;
      assert rs[i] in rs;
      var f := FailureExists(rs);
      FailedAgain(r.message, rs, c, f);
      forall g: nat | FirstFailure(more, g) ensures g == f {
      }
    } else {
      FirstsMore(rs, c);
      FailedFirst(r.message, rs, c);
      assert forall f: nat :: !FirstFailure(rs, f);
      forall g: nat | FirstFailure(more, g) ensures g == |rs| {
      }
    }
  }

  /** The first failure of a node that had reports before: its own text, or else the one that was there. */
  lemma FailedFirst(text: string, rs: seq<HookCall>, c: HookCall)
    requires rs != [] && rs[0].Report? && text == rs[0].message && c.Report? && c.outcome == Failed
    requires forall i :: 0 <= i < |rs| ==> !(rs[i].Report? && rs[i].outcome == Failed)
    ensures FirstFailure(rs + [c], |rs|)
    ensures FailureText(if c.message != "" then c.message else text, rs + [c], |rs|)
  {
    FirstsMore(rs, c);
    assert (rs + [c])[0] == rs[0] && (rs + [c])[|rs|] == c;
  }

  lemma SaysMore(r: TestRecord, x: NodeId, rs: seq<HookCall>, c: HookCall)
    requires rs != [] && (forall d :: d in rs ==> d.Report?) && c.Report? && c.node == x && Says(r, x, rs)
    requires forall d :: d in rs + [c] ==> d.Report?
    ensures Says(Merged(r, x, c.outcome, c.duration, c.message), x, rs + [c])
  {
    var more := rs + [c];
    assert more[..|more| - 1] == rs && more[|more| - 1] == c && more[0] == rs[0];
    assert forall i :: 0 <= i < |rs| ==> more[i] == rs[i];
    assert Seconds(more) == Seconds(rs) + if c.outcome == Failed then Lasting(c) else 0.0;
    FirstsMore(rs, c);
    if c.outcome == Failed {
      TextMore(r, rs, c);
    }
  }

  lemma TextFirst(c: HookCall)
    requires c.Report? && forall d :: d in [c] ==> d.Report?
    ensures TextSays(c.message, [c])
  {
    assert [c][0] == c;
    if c.outcome == Failed {
      assert FirstFailure([c], 0);
      assert c.message != "" ==> FirstText([c], 0);
    }
  }

  lemma SaysFirst(c: HookCall)
    requires c.Report?
    ensures forall d :: d in [c] ==> d.Report?
    ensures Says(TestRecord(c.node, c.outcome, NonNegative(c.duration), c.message), c.node, [c])
  {
    TextFirst(c);
    assert [c][0] == c;
  }

  /** Where a node's record is, and that every record says what its reports say. */
  ghost predicate RecordsSay(records: seq<TestRecord>, calls: seq<HookCall>) {
    && Distinct(RecordIds(records))
    && (forall x :: x in RecordIds(records) <==> ReportsOf(calls, x) != [])
    && (forall r :: r in records ==> ReportsOf(calls, r.id) != [] && Says(r, r.id, ReportsOf(calls, r.id)))
  }

  lemma ReportsMore(calls: seq<HookCall>, c: HookCall, x: NodeId)
    ensures ReportsOf(calls + [c], x) == ReportsOf(calls, x) + if Leaves(c, x) then [c] else []
  {
    assert (calls + [c])[..|calls|] == calls;
  }

  lemma LeavesIsRecording(c: HookCall, x: NodeId)
    ensures Leaves(c, x) <==> c.Report? && c.node == x && Recording(c.phase, c.outcome)
  {
  }

  /** One more report that leaves a record. */
  lemma RecordMore(records: seq<TestRecord>, calls: seq<HookCall>, c: HookCall)
    requires RecordsSay(records, calls) && c.Report? && Recording(c.phase, c.outcome)
    ensures RecordsSay(AddTo(records, c.node, c.outcome, c.duration, c.message), calls + [c])
  {
    var after := AddTo(records, c.node, c.outcome, c.duration, c.message);
    AddedIds(records, c.node, c.outcome, c.duration, c.message);
    forall x ensures ReportsOf(calls + [c], x) == ReportsOf(calls, x) + if c.node == x then [c] else [] {
      ReportsMore(calls, c, x);
      LeavesIsRecording(c, x);
    }
    forall r | r in after ensures ReportsOf(calls + [c], r.id) != [] && Says(r, r.id, ReportsOf(calls + [c], r.id)) {
      RecordAfter(records, calls, c, r);
    }
  }

  /** A record of another node stands. */
  lemma RecordKept(records: seq<TestRecord>, calls: seq<HookCall>, c: HookCall, r: TestRecord)
    requires RecordsSay(records, calls) && c.Report? && r in records && c.node != r.id
    ensures ReportsOf(calls + [c], r.id) != [] && Says(r, r.id, ReportsOf(calls + [c], r.id))
  {
    ReportsMore(calls, c, r.id);
    LeavesIsRecording(c, r.id);
    assert ReportsOf(calls, r.id) + [] == ReportsOf(calls, r.id);
  }

  /** The record of a node reported for the first time. */
  lemma RecordFirst(calls: seq<HookCall>, c: HookCall)
    requires c.Report? && Recording(c.phase, c.outcome) && ReportsOf(calls, c.node) == []
    ensures
      var r := TestRecord(c.node, c.outcome, NonNegative(c.duration), c.message);
      ReportsOf(calls + [c], c.node) != [] && Says(r, c.node, ReportsOf(calls + [c], c.node))
  {
    ReportsMore(calls, c, c.node);
    LeavesIsRecording(c, c.node);
    SaysFirst(c);
    assert [] + [c] == [c];
  }

  /** The record of the node reported again. */
  lemma RecordMerged(records: seq<TestRecord>, calls: seq<HookCall>, c: HookCall, was: TestRecord)
    requires RecordsSay(records, calls) && c.Report? && Recording(c.phase, c.outcome)
    requires was in records && was.id == c.node
    ensures
      var r := Merged(was, c.node, c.outcome, c.duration, c.message);
      && r.id == c.node && ReportsOf(calls + [c], r.id) != []
      && Says(r, r.id, ReportsOf(calls + [c], r.id))
  {
    ReportsMore(calls, c, c.node);
    LeavesIsRecording(c, c.node);
    SaysMore(was, c.node, ReportsOf(calls, c.node), c);
  }

  lemma RecordAfter(records: seq<TestRecord>, calls: seq<HookCall>, c: HookCall, r: TestRecord)
    requires RecordsSay(records, calls) && c.Report? && Recording(c.phase, c.outcome)
    requires r in AddTo(records, c.node, c.outcome, c.duration, c.message)
    ensures ReportsOf(calls + [c], r.id) != [] && Says(r, r.id, ReportsOf(calls + [c], r.id))
  {
    if c.node !in RecordIds(records) {
      if r in records {
        KnownId(records, r);
        RecordKept(records, calls, c, r);
      } else {
        RecordFirst(calls, c);
      }
    } else {
      var i :| 0 <= i < |records| && r == Merged(records[i], c.node, c.outcome, c.duration, c.message);
      if records[i].id == c.node {
        RecordMerged(records, calls, c, records[i]);
      } else {
        RecordKept(records, calls, c, records[i]);
      }
    }
  }

  lemma KnownId(records: seq<TestRecord>, r: TestRecord)
    requires r in records
    ensures r.id in RecordIds(records)
  {
    var i :| 0 <= i < |records| && records[i] == r;
    assert RecordIds(records)[i] == r.id;
  }

  /** The records of a session: one for each node with a report that leaves one, saying what those reports say. */
  lemma {:induction false} RecordsMean(calls: seq<HookCall>)
    ensures RecordsSay(RecordsBy(calls), calls)
    decreases |calls|
  {
    if calls != [] {
      var rest, c := calls[..|calls| - 1], calls[|calls| - 1];
      assert calls == rest + [c];
      RecordsMean(rest);
      if c.Report? && Recording(c.phase, c.outcome) {
        RecordMore(RecordsBy(rest), rest, c);
      } else {
        forall x ensures ReportsOf(calls, x) == ReportsOf(rest, x) {
          ReportsMore(rest, c, x);
          LeavesIsRecording(c, x);
          assert ReportsOf(rest, x) + [] == ReportsOf(rest, x);
        }
      }
    }
  }

  /** Records stand in the order of the reports that first left them. */
  lemma {:induction false} RecordOrder(calls: seq<HookCall>, i: nat, j: nat, q: nat)
    requires i < j < |RecordsBy(calls)| && q < |calls| && Leaves(calls[q], RecordsBy(calls)[j].id)
    ensures exists p :: 0 <= p < q && Leaves(calls[p], RecordsBy(calls)[i].id)
    decreases |calls|
  {
    var rest, c := calls[..|calls| - 1], calls[|calls| - 1];
    var before := RecordsBy(rest);
    assert forall k :: 0 <= k < |rest| ==> rest[k] == calls[k];
    RecordsMean(rest);
    LeavesIsRecording(calls[q], RecordsBy(calls)[j].id);
    if j < |before| {
      if q < |rest| {
        RecordOrder(rest, i, j, q);
      } else {
        RecordLeft(rest, before[i]);
      }
    } else {
      assert c.Report? && RecordsBy(calls)[j].id == c.node && c.node !in RecordIds(before);
      if q < |rest| {
        NotYet(rest, q, c.node);
      }
      RecordLeft(rest, before[i]);
    }
  }

  lemma RecordLeft(calls: seq<HookCall>, r: TestRecord)
    requires r in RecordsBy(calls)
    ensures exists p :: 0 <= p < |calls| && Leaves(calls[p], r.id)
  {
    RecordsMean(calls);
    var c := ReportsOf(calls, r.id)[0];
    assert c in ReportsOf(calls, r.id);
    var p :| 0 <= p < |calls| && calls[p] == c;
  }

  lemma {:induction false} NotYet(calls: seq<HookCall>, q: nat, x: NodeId)
    requires q < |calls| && Leaves(calls[q], x)
    ensures x in RecordIds(RecordsBy(calls))
    decreases |calls|
  {
    var rest, c := calls[..|calls| - 1], calls[|calls| - 1];
    assert calls == rest + [c];
    RecordsMean(calls);
    ReportsMore(rest, c, x);
    if q < |rest| {
      NotYet(rest, q, x);
      RecordsMean(rest);
    }
  }

  /** A skip with a text, a failure without one, a failure with one: the record fails with the text of the skip. */
  lemma HiddenFailureText(x: NodeId)
    ensures
      var skip, bare, told := Report(x, Setup, Skipped, 0.0, "s"), Report(x, Teardown, Failed, 0.0, ""),
                              Report(x, Call, Failed, 0.0, "t");
      RecordsBy([skip, bare, told]) == [TestRecord(x, Failed, 0.0, "s")]
  {
    var skip, bare, told := Report(x, Setup, Skipped, 0.0, "s"), Report(x, Teardown, Failed, 0.0, ""),
                            Report(x, Call, Failed, 0.0, "t");
    var calls := [skip, bare, told];
    assert calls[..2] == [skip, bare] && [skip, bare][..1] == [skip] && [skip][..0] == [];
    var first, second := TestRecord(x, Skipped, 0.0, "s"), TestRecord(x, Failed, 0.0, "s");
    assert RecordsBy([skip]) == [first];
    assert RecordIds([first])[0] == x && RecordIds([second])[0] == x;
    assert AddTo([first], x, Failed, 0.0, "") == [second];
    assert RecordsBy([skip, bare]) == [second];
    assert AddTo([second], x, Failed, 0.0, "t") == [second];
  }
}
