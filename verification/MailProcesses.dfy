// Processes that wait for each other.
//
// The wait-for relation of the server is over local ids.  Here the blocked
// processes themselves are followed along a run, and their circles compared with
// those the server can see.
module MailProcesses {
  import opened WaitGraph
  import opened MailSpec
  import opened MailInvariants
  import opened Options

  // The local id a process blocked under, and the first full mailbox it met.
  datatype Wait = Wait(id: int, box: int)

  // holder[i] is the process whose call last filled in context i; `blocked` holds
  // the senders whose deposit has not been answered.
  datatype Procs = Procs(holder: seq<int>, blocked: map<int, Wait>)

  // The notice answers the call recorded in each context it clears.
  ghost function AfterAnswers(p: Procs, ids: seq<int>): Procs
    requires |p.holder| == MAX_IDS
  {
    p.(blocked := map q | q in p.blocked && !Answered(p, ids, q) :: p.blocked[q])
  }

  ghost predicate Answered(p: Procs, ids: seq<int>, q: int)
    requires |p.holder| == MAX_IDS
  {
    exists i :: 0 <= i < MAX_IDS && i in ids && p.holder[i] == q
  }

  ghost function ProcStep(rd: Reading, s: State, p: Procs, c: Call): (r: Procs)
    requires Shape(s) && SendersFit(s) && |p.holder| == MAX_IDS
    ensures |r.holder| == MAX_IDS
  {
    if !c.Deposit? then p
    else
      var (s', full, err) := Send(rd, s, Message(c.data, c.pid), c.dests, 0, []);
      if err.Some? || full == [] then p else BlockProc(rd, s', p, c.pid, LocalId(s', c.pid), full)
  }

  ghost function BlockProc(rd: Reading, s: State, p: Procs, pid: int, l: int, full: seq<int>): (r: Procs)
    requires Shape(s) && |p.holder| == MAX_IDS && full != [] && -1 <= l < MAX_IDS
    requires forall k :: 0 <= k < |full| ==> 0 <= full[k] < MAX_MAILBOXES
    ensures |r.holder| == MAX_IDS
  {
    if l == -1 then p
    else
      var e := Edges(s.waits[l := full]);
      var p' := p.(holder := p.holder[l := pid]);
      if !OnCycle(e, l) then p'.(blocked := p.blocked[pid := Wait(l, full[0])])
      else match Woken(rd.oneAdvance, e, l)
        case None => p
        case Some(ids) => AfterAnswers(p', ids)
  }

  ghost function ProcsAfter(rd: Reading, calls: seq<Call>): (p: Procs)
    requires Run(rd, calls).Some?
    ensures |p.holder| == MAX_IDS
    decreases |calls|
  {
    if calls == [] then Procs(seq(MAX_IDS, _ => -1), map[])
    else
      var before := calls[..|calls| - 1];
      ProcStep(rd, Run(rd, before).value, ProcsAfter(rd, before), calls[|calls| - 1])
  }

  // A blocked sender makes no calls, and process numbers are not those that mark
  // empty entries.  (Destroying asks nobody's number.)
  predicate MayCall(rd: Reading, p: Procs, c: Call) {
    c.Destroy? || (c.pid !in p.blocked && c.pid != -1 && c.pid != rd.dbInit)
  }

  ghost predicate Orderly(rd: Reading, calls: seq<Call>)
    requires Run(rd, calls).Some?
    decreases |calls|
  {
    calls == [] ||
    (var before := calls[..|calls| - 1];
     Orderly(rd, before) && MayCall(rd, ProcsAfter(rd, before), calls[|calls| - 1]))
  }

  // No process creates a mailbox while it owns one.
  ghost predicate OneMailboxEach(rd: Reading, calls: seq<Call>)
    requires Run(rd, calls).Some?
    decreases |calls|
  {
    calls == [] ||
    (var before := calls[..|calls| - 1]; var c := calls[|calls| - 1];
     OneMailboxEach(rd, before) && (c.Create? ==> FindBox(Run(rd, before).value.boxes, c.pid, 0) == -1))
  }

  // ------------------------------------------------------------------ invariants

  // A blocked sender that still owns the mailbox whose number it blocked under is
  // the one recorded there; any mailbox it owns is that one or a later one.
  ghost predicate Recorded(s: State, p: Procs, q: int, w: Wait)
    requires Shape(s) && |p.holder| == MAX_IDS
  {
    && q != -1 && 0 <= w.id < MAX_IDS && 0 <= w.box < MAX_MAILBOXES
    && (w.id < MAX_MAILBOXES && Owns(s.boxes[w.id], q) ==>
          p.holder[w.id] == q && s.waits[w.id] != [] && s.waits[w.id][0] == w.box)
    && (forall j :: 0 <= j < MAX_MAILBOXES && Owns(s.boxes[j], q) ==> w.id <= j)
  }

  ghost predicate WaitInv(rd: Reading, s: State, p: Procs) {
    && Shape(s) && |p.holder| == MAX_IDS
    && (forall k :: 0 <= k < MAX_MAILBOXES ==> s.senderDB[k] == rd.dbInit)
    && (forall q :: q in p.blocked ==> Recorded(s, p, q, p.blocked[q]))
  }

  // Mailboxes have different owners, and a blocked sender owns none but the one it
  // blocked under.
  ghost predicate SingleInv(s: State, p: Procs)
    requires Shape(s)
  {
    && (forall i, j :: 0 <= i < j < MAX_MAILBOXES && s.boxes[i].Some? && s.boxes[i].value.ownerPid != -1 ==>
          !Owns(s.boxes[j], s.boxes[i].value.ownerPid))
    && (forall q, j :: q in p.blocked && 0 <= j < MAX_MAILBOXES && Owns(s.boxes[j], q) ==> j == p.blocked[q].id)
  }

  // --------------------------------------------------------- who owns what, per step

  // No mailbox has come to q.
  ghost predicate NoneGained(s: State, s': State, q: int)
    requires Shape(s) && Shape(s')
  {
    forall j :: 0 <= j < MAX_MAILBOXES && Owns(s'.boxes[j], q) ==> Owns(s.boxes[j], q)
  }

  ghost predicate SameOwners(s: State, s': State)
    requires Shape(s) && Shape(s')
  {
    forall j, q :: 0 <= j < MAX_MAILBOXES ==> (Owns(s'.boxes[j], q) <==> Owns(s.boxes[j], q))
  }

  lemma {:induction false} SendOwners(rd: Reading, s: State, msg: Message, dests: Dests, i: nat, full: seq<int>)
    requires Shape(s) && SendersFit(s) && i <= 10
    requires forall k :: 0 <= k < |full| ==> 0 <= full[k] < MAX_MAILBOXES
    ensures SameOwners(s, Send(rd, s, msg, dests, i, full).0)
    decreases 10 - i
  {
    if i < 10 && dests[i] > 0 {
      var (s', code, id) := SendOne(rd, s, msg, dests[i]);
      assert SameOwners(s, s');
      if code >= -1 {
        SendOwners(rd, s', msg, dests, i + 1, if code == -1 then full + [id] else full);
      }
    }
  }

  lemma {:induction false} FindBoxSame(a: seq<Option<Box>>, b: seq<Option<Box>>, pid: int, i: nat)
    requires |a| == |b| && i <= |a| && forall j :: 0 <= j < |a| ==> (Owns(a[j], pid) <==> Owns(b[j], pid))
    ensures FindBox(a, pid, i) == FindBox(b, pid, i)
    decreases |a| - i
  {
    if i < |a| {
      FindBoxSame(a, b, pid, i + 1);
    }
  }

  // ------------------------------------------------------------------ preservation

  // A step that adds nobody and touches no context
  lemma QuietKeeps(rd: Reading, s: State, s': State, p: Procs)
    requires WaitInv(rd, s, p) && Shape(s') && s'.waits == s.waits
    requires forall k :: 0 <= k < MAX_MAILBOXES ==> s'.senderDB[k] == s.senderDB[k]
    requires forall q :: q in p.blocked ==> NoneGained(s, s', q)
    ensures WaitInv(rd, s', p)
  {
    forall q | q in p.blocked
      ensures Recorded(s', p, q, p.blocked[q])
    {
      assert Recorded(s, p, q, p.blocked[q]);
    }
  }

  // The local id of a caller is its lowest mailbox, or lies past the mailboxes.
  lemma LocalIdIs(rd: Reading, s: State, pid: int)
    requires Shape(s) && pid != rd.dbInit && forall k :: 0 <= k < MAX_MAILBOXES ==> s.senderDB[k] == rd.dbInit
    ensures var l := LocalId(s, pid);
            && (0 <= l < MAX_MAILBOXES ==> Owns(s.boxes[l], pid))
            && (l >= 0 ==> forall j :: 0 <= j < MAX_MAILBOXES && Owns(s.boxes[j], pid) ==> l <= j)
            && (l >= MAX_MAILBOXES || l == -1 ==> forall j :: 0 <= j < MAX_MAILBOXES ==> !Owns(s.boxes[j], pid))
  {
  }

  lemma BlockKeeps(rd: Reading, s: State, p: Procs, pid: int, l: int, full: seq<int>)
    requires WaitInv(rd, s, p) && pid !in p.blocked && pid != -1 && pid != rd.dbInit
    requires full != [] && forall k :: 0 <= k < |full| ==> 0 <= full[k] < MAX_MAILBOXES
    requires l == LocalId(s, pid) && SuspendStep(rd, s, l, full).1 != Fault
    ensures WaitInv(rd, SuspendStep(rd, s, l, full).0, BlockProc(rd, s, p, pid, l, full))
  {
    LocalIdIs(rd, s, pid);
    var s1 := s.(waits := s.waits[l := full]);
    var p1 := p.(holder := p.holder[l := pid]);
    forall q | q in p.blocked
      ensures Recorded(s1, p1, q, p.blocked[q])
    {
      assert Recorded(s, p, q, p.blocked[q]);
    }
    var e := Edges(s1.waits);
    if !OnCycle(e, l) {
      assert Recorded(s1, p1, pid, Wait(l, full[0]));
    } else {
      RevivedKeeps(rd, s1, p1, Woken(rd.oneAdvance, e, l).value);
    }
  }

  lemma RevivedKeeps(rd: Reading, s: State, p: Procs, ids: seq<int>)
    requires WaitInv(rd, s, p)
    ensures Shape(AfterWaking(s, ids)) && WaitInv(rd, AfterWaking(s, ids), AfterAnswers(p, ids))
  {
    var s', p' := AfterWaking(s, ids), AfterAnswers(p, ids);
    WakingShape(s, ids);
    forall q | q in p'.blocked
      ensures Recorded(s', p', q, p'.blocked[q])
    {
      assert Recorded(s, p, q, p.blocked[q]);
    }
  }

  lemma DepositWaits(rd: Reading, s: State, p: Procs, c: Call)
    requires c.Deposit? && Inv(rd, s) && SendersFit(s) && WaitInv(rd, s, p) && MayCall(rd, p, c)
    requires Step(rd, s, c).1 != Fault
    ensures Shape(Step(rd, s, c).0) && WaitInv(rd, Step(rd, s, c).0, ProcStep(rd, s, p, c))
  {
    var msg := Message(c.data, c.pid);
    var (s', full, err) := Send(rd, s, msg, c.dests, 0, []);
    SendOwners(rd, s, msg, c.dests, 0, []);
    QuietKeeps(rd, s, s', p);
    if err.None? && full != [] {
      BlockKeeps(rd, s', p, c.pid, LocalId(s', c.pid), full);
    }
  }

  lemma StepWaits(rd: Reading, s: State, p: Procs, c: Call)
    requires Inv(rd, s) && SendersFit(s) && WaitInv(rd, s, p) && MayCall(rd, p, c)
    requires Step(rd, s, c).1 != Fault
    ensures WaitInv(rd, Step(rd, s, c).0, ProcStep(rd, s, p, c))
  {
    if c.Deposit? {
      StepKeeps(rd, s, c);
      DepositWaits(rd, s, p, c);
    } else {
      QuietStep(rd, s, c);
      forall q | q in p.blocked
        ensures NoneGained(s, Step(rd, s, c).0, q)
      {
        assert Recorded(s, p, q, p.blocked[q]);
        NotGained(rd, s, c, q);
      }
      QuietKeeps(rd, s, Step(rd, s, c).0, p);
    }
  }

  lemma QuietStep(rd: Reading, s: State, c: Call)
    requires Inv(rd, s) && SendersFit(s) && !c.Deposit? && Step(rd, s, c).1 != Fault
    ensures Shape(Step(rd, s, c).0) && Step(rd, s, c).0.waits == s.waits
    ensures forall k :: 0 <= k < MAX_MAILBOXES ==> Step(rd, s, c).0.senderDB[k] == s.senderDB[k]
  {
    StepKeeps(rd, s, c);
  }

  lemma NotGained(rd: Reading, s: State, c: Call, q: int)
    requires Shape(s) && SendersFit(s) && !c.Deposit? && q != -1 && (c.Create? ==> c.pid != q)
    requires Shape(Step(rd, s, c).0)
    ensures NoneGained(s, Step(rd, s, c).0, q)
  {
  }

  lemma {:induction false} RunWaits(rd: Reading, calls: seq<Call>)
    requires Run(rd, calls).Some? && Orderly(rd, calls)
    ensures WaitInv(rd, Run(rd, calls).value, ProcsAfter(rd, calls))
    decreases |calls|
  {
    if calls != [] {
      var before := calls[..|calls| - 1];
      RunWaits(rd, before);
      StepWaits(rd, Run(rd, before).value, ProcsAfter(rd, before), calls[|calls| - 1]);
    }
  }

  // --------------------------------------------------------------------- circles

  // Blocked sender q waits at a mailbox that r owns now.
  ghost predicate WaitsFor(s: State, p: Procs, q: int, r: int)
    requires Shape(s)
  {
    q in p.blocked && 0 <= p.blocked[q].box < MAX_MAILBOXES && Owns(s.boxes[p.blocked[q].box], r)
  }

  function Next(c: seq<int>, k: nat): (i: nat)
    requires k < |c|
    ensures i < |c|
  {
    if k + 1 < |c| then k + 1 else 0
  }

  function Before(c: seq<int>, k: nat): (i: nat)
    requires k < |c|
    ensures i < |c| && Next(c, i) == k
  {
    if k == 0 then |c| - 1 else k - 1
  }

  ghost predicate InACircle(s: State, p: Procs, c: seq<int>)
    requires Shape(s)
  {
    |c| >= 1 && forall k :: 0 <= k < |c| ==> WaitsFor(s, p, c[k], c[Next(c, k)])
  }

  function IdOf(p: Procs, q: int): int { if q in p.blocked then p.blocked[q].id else -1 }

  // A circle of waiting senders goes unseen only where one of them is waited for
  // at a mailbox other than its lowest: the one whose number it blocked under.
  lemma CircleNeedsSecondMailbox(rd: Reading, calls: seq<Call>, c: seq<int>)
    requires Run(rd, calls).Some? && Orderly(rd, calls)
    requires InACircle(Run(rd, calls).value, ProcsAfter(rd, calls), c)
    ensures var p := ProcsAfter(rd, calls);
            exists k :: 0 <= k < |c| && c[Next(c, k)] in p.blocked && c[k] in p.blocked &&
                        p.blocked[c[Next(c, k)]].id < p.blocked[c[k]].box
  {
    var s, p := Run(rd, calls).value, ProcsAfter(rd, calls);
    RunWaits(rd, calls);
    var ids := IdsOf(p, c);
    forall k | 0 <= k < |c|
      ensures 0 <= ids[k] < MAX_IDS
    {
      assert WaitsFor(s, p, c[k], c[Next(c, k)]) && Recorded(s, p, c[k], p.blocked[c[k]]);
    }
    NoCircularWait(rd, calls, ids);
    var k :| 0 <= k < |c| && (s.waits[ids[k]] == [] || s.waits[ids[k]][0] != ids[if k + 1 < |c| then k + 1 else 0]);
    Unseen(rd, s, p, c, k);
  }

  function IdsOf(p: Procs, c: seq<int>): (ids: seq<int>)
    ensures |ids| == |c| && forall k :: 0 <= k < |c| ==> ids[k] == IdOf(p, c[k])
  {
    seq(|c|, k requires 0 <= k < |c| => IdOf(p, c[k]))
  }

  // Where the ids do not lead on, the process or its successor is waited for at a
  // second mailbox.
  lemma Unseen(rd: Reading, s: State, p: Procs, c: seq<int>, k: nat)
    requires WaitInv(rd, s, p) && InACircle(s, p, c) && k < |c|
    requires var w := s.waits[if 0 <= IdOf(p, c[k]) < MAX_IDS then IdOf(p, c[k]) else 0];
             w == [] || w[0] != IdOf(p, c[Next(c, k)])
    ensures exists i :: 0 <= i < |c| && c[Next(c, i)] in p.blocked && c[i] in p.blocked &&
                        p.blocked[c[Next(c, i)]].id < p.blocked[c[i]].box
  {
    var j, n := Before(c, k), Next(c, k);
    assert WaitsFor(s, p, c[j], c[k]) && WaitsFor(s, p, c[k], c[n]) && WaitsFor(s, p, c[n], c[Next(c, n)]);
    var before, here, after := p.blocked[c[j]], p.blocked[c[k]], p.blocked[c[n]];
    assert Recorded(s, p, c[k], here) && Recorded(s, p, c[n], after);
    assert here.id <= before.box && after.id <= here.box;
    assert here.id == before.box ==> s.waits[here.id][0] == here.box;
    assert here.id < before.box || after.id < here.box;
  }

  // ----------------------------------------------------- one mailbox per process

  lemma SingleStep(rd: Reading, s: State, p: Procs, c: Call)
    requires Inv(rd, s) && SendersFit(s) && WaitInv(rd, s, p) && MayCall(rd, p, c) && SingleInv(s, p)
    requires Step(rd, s, c).1 != Fault && (c.Create? ==> FindBox(s.boxes, c.pid, 0) == -1)
    ensures Shape(Step(rd, s, c).0) && SingleInv(Step(rd, s, c).0, ProcStep(rd, s, p, c))
  {
    if c.Deposit? {
      SingleDeposit(rd, s, p, c);
    } else if c.Create? {
      SingleCreate(s, p, c);
    } else {
      QuietStep(rd, s, c);
      forall q | q != -1 ensures NoneGained(s, Step(rd, s, c).0, q) { NotGained(rd, s, c, q); }
      forall q | q in p.blocked ensures q != -1 { assert Recorded(s, p, q, p.blocked[q]); }
      SingleQuiet(s, Step(rd, s, c).0, p);
    }
  }

  lemma SingleCreate(s: State, p: Procs, c: Call)
    requires c.Create? && Shape(s) && SingleInv(s, p) && c.pid !in p.blocked
    requires FindBox(s.boxes, c.pid, 0) == -1
    ensures Shape(CreateStep(s, c.pid, c.uid, c.gid, c.perm).0)
    ensures SingleInv(CreateStep(s, c.pid, c.uid, c.gid, c.perm).0, p)
  {
  }

  lemma SingleQuiet(s: State, s': State, p: Procs)
    requires Shape(s) && Shape(s') && SingleInv(s, p) && forall q :: q != -1 ==> NoneGained(s, s', q)
    requires forall q :: q in p.blocked ==> q != -1
    ensures SingleInv(s', p)
  {
    forall i, j | 0 <= i < j < MAX_MAILBOXES && s'.boxes[i].Some? && s'.boxes[i].value.ownerPid != -1
      ensures !Owns(s'.boxes[j], s'.boxes[i].value.ownerPid)
    {
      var q := s'.boxes[i].value.ownerPid;
      assert NoneGained(s, s', q);
      assert Owns(s'.boxes[i], q) && Owns(s.boxes[i], q);
    }
    forall q, j | q in p.blocked && 0 <= j < MAX_MAILBOXES && Owns(s'.boxes[j], q)
      ensures j == p.blocked[q].id
    {
      assert NoneGained(s, s', q);
    }
  }

  lemma SingleDeposit(rd: Reading, s: State, p: Procs, c: Call)
    requires c.Deposit? && Inv(rd, s) && SendersFit(s) && WaitInv(rd, s, p) && MayCall(rd, p, c) && SingleInv(s, p)
    requires Step(rd, s, c).1 != Fault
    ensures Shape(Step(rd, s, c).0) && SingleInv(Step(rd, s, c).0, ProcStep(rd, s, p, c))
  {
    var msg := Message(c.data, c.pid);
    var (s', full, err) := Send(rd, s, msg, c.dests, 0, []);
    SendOwners(rd, s, msg, c.dests, 0, []);
    forall q | q in p.blocked ensures q != -1 { assert Recorded(s, p, q, p.blocked[q]); }
    SingleQuiet(s, s', p);
    if err.None? && full != [] {
      SingleBlock(rd, s', p, c.pid, LocalId(s', c.pid), full);
    }
  }

  lemma SingleBlock(rd: Reading, s: State, p: Procs, pid: int, l: int, full: seq<int>)
    requires Shape(s) && |p.holder| == MAX_IDS && SingleInv(s, p) && pid != rd.dbInit && pid != -1
    requires forall k :: 0 <= k < MAX_MAILBOXES ==> s.senderDB[k] == rd.dbInit
    requires full != [] && forall k :: 0 <= k < |full| ==> 0 <= full[k] < MAX_MAILBOXES
    requires l == LocalId(s, pid) && SuspendStep(rd, s, l, full).1 != Fault
    ensures Shape(SuspendStep(rd, s, l, full).0)
    ensures SingleInv(SuspendStep(rd, s, l, full).0, BlockProc(rd, s, p, pid, l, full))
  {
    LocalIdIs(rd, s, pid);
    var s1 := s.(waits := s.waits[l := full]);
    var e := Edges(s1.waits);
    if !OnCycle(e, l) {
      OwnLowest(s, pid, l);
    } else {
      WakingShape(s1, Woken(rd.oneAdvance, e, l).value);
    }
  }

  // Where mailboxes have different owners, the lowest one owned is the only one.
  lemma OwnLowest(s: State, pid: int, l: int)
    requires Shape(s) && pid != -1 && SingleInv(s, Procs([], map[]))
    requires 0 <= l < MAX_MAILBOXES ==> Owns(s.boxes[l], pid)
    requires l >= MAX_MAILBOXES ==> forall j :: 0 <= j < MAX_MAILBOXES ==> !Owns(s.boxes[j], pid)
    ensures l >= 0 ==> forall j :: 0 <= j < MAX_MAILBOXES && Owns(s.boxes[j], pid) ==> j == l
  {
  }

  lemma {:induction false} RunSingle(rd: Reading, calls: seq<Call>)
    requires Run(rd, calls).Some? && Orderly(rd, calls) && OneMailboxEach(rd, calls)
    ensures SingleInv(Run(rd, calls).value, ProcsAfter(rd, calls))
    decreases |calls|
  {
    if calls != [] {
      var before := calls[..|calls| - 1];
      RunSingle(rd, before);
      RunWaits(rd, before);
      SingleStep(rd, Run(rd, before).value, ProcsAfter(rd, before), calls[|calls| - 1]);
    }
  }

  // Where no process creates a second mailbox, no senders ever wait for each
  // other in a circle.
  lemma NoCircleOfProcesses(rd: Reading, calls: seq<Call>, c: seq<int>)
    requires Run(rd, calls).Some? && Orderly(rd, calls) && OneMailboxEach(rd, calls)
    ensures !InACircle(Run(rd, calls).value, ProcsAfter(rd, calls), c)
  {
    if InACircle(Run(rd, calls).value, ProcsAfter(rd, calls), c) {
      var s, p := Run(rd, calls).value, ProcsAfter(rd, calls);
      RunSingle(rd, calls);
      forall k | 0 <= k < |c|
        ensures c[k] in p.blocked && c[Next(c, k)] in p.blocked && p.blocked[c[Next(c, k)]].id == p.blocked[c[k]].box
      {
        assert WaitsFor(s, p, c[k], c[Next(c, k)]) && WaitsFor(s, p, c[Next(c, k)], c[Next(c, Next(c, k))]);
      }
      CircleNeedsSecondMailbox(rd, calls, c);
    }
  }
}
