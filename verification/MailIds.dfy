// The local ids under which senders block, told from the history.
module MailIds {
  import opened WaitGraph
  import opened MailSpec
  import opened MailInvariants
  import opened MailProcesses
  import opened MailHistory
  import opened Options

  const IDS_LEFT := MAX_IDS - MAX_MAILBOXES

  // The senders given an id of their own, oldest first: those registered while
  // they had no mailbox, until the ids run out.
  function GivenIds(t: Trace): seq<int> {
    match t
    case Nothing => []
    case After(past, Registered(_, p, _, _)) =>
      if MailboxOf(past, p) == -1 && |GivenIds(past)| < IDS_LEFT then GivenIds(past) + [p] else GivenIds(past)
    case After(past, _) => GivenIds(past)
  }

  // A process with a mailbox goes by the lowest.  Others go by the first id given
  // to them; but where senderDB does not start with -1 none is ever given, and one
  // process goes by 0.
  function IdTold(rd: Reading, t: Trace, pid: int): int {
    if MailboxOf(t, pid) != -1 then MailboxOf(t, pid)
    else if rd.dbInit != -1 then (if pid == rd.dbInit then 0 else -1)
    else
      var k := FindInt(GivenIds(t), pid, 0);
      if k == -1 then -1 else MAX_MAILBOXES + k
  }

  ghost predicate IdsHeld(rd: Reading, s: State) {
    && |s.senderDB| == MAX_IDS && |GivenIds(s.trace)| <= IDS_LEFT && -1 !in GivenIds(s.trace)
    && (rd.dbInit == -1 ==> forall k :: 0 <= k < MAX_IDS ==> s.senderDB[k] == Entry(GivenIds(s.trace), k))
  }

  function Entry(given: seq<int>, k: int): int
    requires 0 <= k
  {
    if k < MAX_MAILBOXES || k - MAX_MAILBOXES >= |given| then -1 else given[k - MAX_MAILBOXES]
  }

  lemma {:induction false} FindIntIs(s: seq<int>, x: int, i: nat, r: nat)
    requires i <= r < |s| && s[r] == x && forall k :: i <= k < r ==> s[k] != x
    ensures FindInt(s, x, i) == r
    decreases r - i
  {
    if i < r {
      FindIntIs(s, x, i + 1, r);
    }
  }

  lemma {:induction false} FindIntNone(s: seq<int>, x: int, i: nat)
    requires i <= |s| && forall k :: i <= k < |s| ==> s[k] != x
    ensures FindInt(s, x, i) == -1
    decreases |s| - i
  {
    if i < |s| {
      FindIntNone(s, x, i + 1);
    }
  }

  // The first free entry comes after the ids given.
  lemma NextFree(rd: Reading, s: State)
    requires Shape(s) && IdsHeld(rd, s) && rd.dbInit == -1
    ensures FindInt(s.senderDB, -1, MAX_MAILBOXES) ==
            if |GivenIds(s.trace)| < IDS_LEFT then MAX_MAILBOXES + |GivenIds(s.trace)| else -1
  {
    var given := GivenIds(s.trace);
    var n := MAX_MAILBOXES + |given|;
    forall k | MAX_MAILBOXES <= k < n
      ensures s.senderDB[k] != -1
    {
      assert s.senderDB[k] == given[k - MAX_MAILBOXES] && given[k - MAX_MAILBOXES] in given;
    }
    if |given| < IDS_LEFT {
      FindIntIs(s.senderDB, -1, MAX_MAILBOXES, n);
    } else {
      FindIntNone(s.senderDB, -1, MAX_MAILBOXES);
    }
  }

  // Giving a newly registered sender its id
  lemma GiveId(rd: Reading, s: State, s1: State, id: int, pid: int, uid: int, gid: int)
    requires Shape(s) && Shape(s1) && IdsHeld(rd, s) && pid != -1
    requires s1.senderDB == s.senderDB && s1.trace == After(s.trace, Registered(id, pid, uid, gid))
    requires FindBox(s1.boxes, pid, 0) == MailboxOf(s.trace, pid)
    requires rd.dbInit != -1 ==> forall k :: 0 <= k < MAX_IDS ==> s.senderDB[k] != -1
    ensures IdsHeld(rd, WithLocalId(s1, pid))
  {
    if rd.dbInit == -1 {
      NextFree(rd, s);
    }
  }

  lemma RegisterIds(rd: Reading, s: State, pid: int, uid: int, gid: int, id: int)
    requires Inv(rd, s) && Told(s) && IdsHeld(rd, s)
    ensures IdsHeld(rd, RegisterStep(s, pid, uid, gid, id).0)
  {
    if RegisterStep(s, pid, uid, gid, id).1 == Ret(0) {
      var s1 := AddSenderStep(s, id, pid, uid, gid).0;
      FoundIsHeld(rd, s, pid);
      FindBoxSame(s1.boxes, s.boxes, pid, 0);
      GiveId(rd, s, s1, id, pid, uid, gid);
    }
  }

  lemma {:induction false} SendIds(rd: Reading, s: State, msg: Message, dests: Dests, i: nat, full: seq<int>)
    requires Shape(s) && SendersFit(s) && i <= 10
    requires forall k :: 0 <= k < |full| ==> 0 <= full[k] < MAX_MAILBOXES
    ensures var s' := Send(rd, s, msg, dests, i, full).0;
            GivenIds(s'.trace) == GivenIds(s.trace) && s'.senderDB == s.senderDB
    decreases 10 - i
  {
    if i < 10 && dests[i] > 0 {
      SendNext(rd, s, msg, dests, i, full);
      var (s', code, id) := SendOne(rd, s, msg, dests[i]);
      assert GivenIds(s'.trace) == GivenIds(s.trace) && s'.senderDB == s.senderDB;
      if code >= -1 {
        SendIds(rd, s', msg, dests, i + 1, if code == -1 then full + [id] else full);
      }
    }
  }

  lemma {:induction false} RevivalsGive(t: Trace, ids: seq<int>)
    ensures GivenIds(LogRevived(t, ids)) == GivenIds(t)
    decreases |ids|
  {
    if ids != [] {
      RevivalsGive(t, ids[..|ids| - 1]);
    }
  }

  lemma DepositIds(rd: Reading, s: State, pid: int, data: string, dests: Dests)
    requires Shape(s) && SendersFit(s) && IdsHeld(rd, s)
    ensures IdsHeld(rd, DepositStep(rd, s, pid, data, dests).0)
  {
    SendIds(rd, s, Message(data, pid), dests, 0, []);
    var (s', full, err) := Send(rd, s, Message(data, pid), dests, 0, []);
    if err.None? && full != [] {
      var l := LocalId(s', pid);
      if l != -1 && OnCycle(Edges(s'.waits[l := full]), l) {
        var ids := Woken(rd.oneAdvance, Edges(s'.waits[l := full]), l);
        if ids.Some? {
          RevivalsGive(s'.trace, ids.value);
        }
      }
    }
  }

  lemma {:induction false} RunIds(rd: Reading, calls: seq<Call>)
    requires Run(rd, calls).Some?
    ensures IdsHeld(rd, Run(rd, calls).value)
    decreases |calls|
  {
    if calls != [] {
      var n := |calls| - 1;
      var s := Run(rd, calls[..n]).value;
      RunIds(rd, calls[..n]);
      RunTold(rd, calls[..n]);
      StepIds(rd, s, calls[n]);
    }
  }

  lemma StepIds(rd: Reading, s: State, c: Call)
    requires Inv(rd, s) && Told(s) && SendersFit(s) && IdsHeld(rd, s)
    ensures IdsHeld(rd, Step(rd, s, c).0)
  {
    match c
    case Register(pid, uid, gid, id) => RegisterIds(rd, s, pid, uid, gid, id);
    case Deposit(pid, data, dests) => DepositIds(rd, s, pid, data, dests);
    case _ =>
  }

  // After any run, every process goes by the id the history tells.
  lemma LocalIdIsTold(rd: Reading, calls: seq<Call>, pid: int)
    requires Run(rd, calls).Some? && pid != -1
    ensures var s := Run(rd, calls).value; LocalId(s, pid) == IdTold(rd, s.trace, pid)
  {
    var s := Run(rd, calls).value;
    RunTold(rd, calls);
    RunIds(rd, calls);
    FoundIsHeld(rd, s, pid);
    if MailboxOf(s.trace, pid) == -1 {
      if rd.dbInit != -1 {
        if pid == rd.dbInit { FindIntIs(s.senderDB, pid, 0, 0); } else { FindIntNone(s.senderDB, pid, 0); }
      } else {
        GivenEntry(rd, s, pid);
      }
    }
  }

  lemma GivenEntry(rd: Reading, s: State, pid: int)
    requires Shape(s) && IdsHeld(rd, s) && rd.dbInit == -1 && pid != -1
    ensures var k := FindInt(GivenIds(s.trace), pid, 0);
            FindInt(s.senderDB, pid, 0) == if k == -1 then -1 else MAX_MAILBOXES + k
  {
    var given := GivenIds(s.trace);
    var k := FindInt(given, pid, 0);
    if k == -1 {
      assert forall j :: 0 <= j < |given| ==> given[j] == given[0..][j];
      FindIntNone(s.senderDB, pid, 0);
    } else {
      assert forall j :: 0 <= j < k ==> given[j] == given[0..k][j];
      FindIntIs(s.senderDB, pid, 0, MAX_MAILBOXES + k);
    }
  }

  // So no two processes block under one id, but for the one that goes by 0 in the
  // text without having been given it.
  lemma IdsDistinct(rd: Reading, calls: seq<Call>, p: int, q: int)
    requires Run(rd, calls).Some? && p != q && p != -1 && q != -1
    requires rd.dbInit == -1 || (p != rd.dbInit && q != rd.dbInit)
    ensures var s := Run(rd, calls).value; LocalId(s, p) == LocalId(s, q) ==> LocalId(s, p) == -1
  {
    LocalIdIsTold(rd, calls, p);
    LocalIdIsTold(rd, calls, q);
  }
}
