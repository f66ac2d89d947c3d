// Whole runs of the mailbox server that end badly, built call by call.
module MailRuns {
  import opened WaitGraph
  import opened MailSpec
  import opened MailInvariants
  import opened MailProcesses
  import MailFindings
  import opened Options

  function To(pid: int): Dests { [pid, 0, 0, 0, 0, 0, 0, 0, 0, 0] }

  function Mail(from: int, to: int): Call { Deposit(from, "", To(to)) }

  function Times(c: Call, k: nat): seq<Call> { if k == 0 then [] else Times(c, k - 1) + [c] }

  ghost predicate Good(s: State) { Shape(s) && SendersFit(s) }

  // After these orderly calls the server is in state s, its processes in p.
  ghost predicate Now(rd: Reading, calls: seq<Call>, s: State, p: Procs) {
    Run(rd, calls) == Some(s) && Orderly(rd, calls) && ProcsAfter(rd, calls) == p
  }

  function NoProcs(): Procs { Procs(seq(MAX_IDS, _ => -1), map[]) }

  lemma NoCallsYet(rd: Reading)
    ensures Good(Init(rd)) && Now(rd, [], Init(rd), NoProcs())
  {
  }

  // One more call
  lemma NextCall(rd: Reading, calls: seq<Call>, s: State, p: Procs, c: Call)
    requires Now(rd, calls, s, p) && MayCall(rd, p, c) && Good(s) && |p.holder| == MAX_IDS
    requires Step(rd, s, c).1 != Fault
    ensures Good(Step(rd, s, c).0) && Now(rd, calls + [c], Step(rd, s, c).0, ProcStep(rd, s, p, c))
  {
    StepKeepsFit(rd, s, c);
    RunNext(rd, calls, s, c);
    assert (calls + [c])[..|calls + [c]| - 1] == calls;
  }

  lemma RunNext(rd: Reading, calls: seq<Call>, s: State, c: Call)
    requires Run(rd, calls) == Some(s) && Good(s) && Step(rd, s, c).1 != Fault
    ensures Run(rd, calls + [c]) == Some(Step(rd, s, c).0)
  {
    assert (calls + [c])[..|calls + [c]| - 1] == calls;
  }

  lemma StepKeepsFit(rd: Reading, s: State, c: Call)
    requires Inv(rd, s) && SendersFit(s) && Step(rd, s, c).1 != Fault
    ensures Good(Step(rd, s, c).0)
  {
    StepKeeps(rd, s, c);
    var s' := Step(rd, s, c).0;
    forall i | 0 <= i < MAX_MAILBOXES && s'.boxes[i].Some?
      ensures s'.boxes[i].value.numSenders <= MAX_SENDERS
    {
      assert BoxInv(s'.trace, i, s'.boxes[i].value);
    }
  }

  lemma NextCallFaults(rd: Reading, calls: seq<Call>, s: State, p: Procs, c: Call)
    requires Now(rd, calls, s, p) && Good(s) && Step(rd, s, c).1 == Fault
    ensures Run(rd, calls + [c]) == None
  {
    assert (calls + [c])[..|calls + [c]| - 1] == calls;
  }

  // ------------------------------------------------------------- single calls

  // A mailbox open to everyone, with its registered senders and n messages.
  ghost predicate Holds(b: Option<Box>, owner: int, registered: seq<int>, n: nat) {
    && b.Some? && b.value.ownerPid == owner && b.value.perm == 1 && !b.value.rxSuspended
    && |b.value.senders| == MAX_SENDERS && b.value.numSenders == |registered| <= 1
    && b.value.senders[..|registered|] == registered && |b.value.queue| == n
    && forall k :: |registered| <= k < MAX_SENDERS ==> b.value.senders[k] == -1
  }

  // Slots 0 to m - 1 have been taken.
  ghost predicate InUse(s: State, m: nat)
    requires Shape(s)
  {
    && (forall i :: 0 <= i < MAX_MAILBOXES ==> (s.pool[i] <==> i < m))
    && (forall i :: m <= i < MAX_MAILBOXES ==> s.boxes[i].None?)
  }

  // All boxes but one are as before.
  ghost predicate Others(s: State, s': State, id: int)
    requires Shape(s) && Shape(s')
  {
    forall i :: 0 <= i < MAX_MAILBOXES && i != id ==> s'.boxes[i] == s.boxes[i]
  }

  lemma CreateFacts(s: State, pid: int, m: nat)
    requires Good(s) && InUse(s, m) && m < MAX_MAILBOXES
    ensures var (s', o) := CreateStep(s, pid, 0, 0, 1);
            && o == Ret(m) && Good(s') && InUse(s', m + 1) && s'.waits == s.waits && s'.senderDB == s.senderDB
            && Holds(s'.boxes[m], pid, [], 0) && Others(s, s', m)
  {
    assert !s.pool[m];
    assert FindClear(s.pool, 0) == m;
  }

  lemma DoCreate(rd: Reading, calls: seq<Call>, s: State, p: Procs, pid: int, m: nat) returns (s': State)
    requires Now(rd, calls, s, p) && MayCall(rd, p, Create(pid, 0, 0, 1)) && |p.holder| == MAX_IDS
    requires Good(s) && InUse(s, m) && m < MAX_MAILBOXES
    ensures Good(s') && Now(rd, calls + [Create(pid, 0, 0, 1)], s', p) && InUse(s', m + 1) && s'.waits == s.waits
    ensures Holds(s'.boxes[m], pid, [], 0) && Others(s, s', m) && s'.senderDB == s.senderDB
  {
    CreateFacts(s, pid, m);
    NextCall(rd, calls, s, p, Create(pid, 0, 0, 1));
    s' := CreateStep(s, pid, 0, 0, 1).0;
  }

  lemma RegisterFacts(s: State, pid: int, id: int, owner: int)
    requires Good(s) && 0 <= id < MAX_MAILBOXES && Holds(s.boxes[id], owner, [], 0) && pid != -1
    ensures var (s', o) := RegisterStep(s, pid, 0, 0, id);
            && o == Ret(0) && Good(s') && s'.pool == s.pool && s'.waits == s.waits
            && Holds(s'.boxes[id], owner, [pid], 0) && Others(s, s', id)
  {
    var b := s.boxes[id].value;
    assert SenderSlot(b.senders, pid, 0) == 0;
    assert b.senders[0 := pid][..1] == [pid];
  }

  lemma DoRegister(rd: Reading, calls: seq<Call>, s: State, p: Procs, pid: int, id: int, owner: int) returns (s': State)
    requires Now(rd, calls, s, p) && MayCall(rd, p, Register(pid, 0, 0, id)) && |p.holder| == MAX_IDS
    requires Good(s) && 0 <= id < MAX_MAILBOXES && Holds(s.boxes[id], owner, [], 0) && pid != -1
    ensures Good(s') && Now(rd, calls + [Register(pid, 0, 0, id)], s', p) && s'.pool == s.pool && s'.waits == s.waits
    ensures Holds(s'.boxes[id], owner, [pid], 0) && Others(s, s', id)
  {
    RegisterFacts(s, pid, id, owner);
    NextCall(rd, calls, s, p, Register(pid, 0, 0, id));
    s' := RegisterStep(s, pid, 0, 0, id).0;
  }

  // A message to a mailbox that has room
  lemma MailFacts(rd: Reading, s: State, from: int, to: int, id: int, n: nat)
    requires Good(s) && to > 0 && FindBox(s.boxes, to, 0) == id && 0 <= id
    requires Holds(s.boxes[id], to, [from], n) && n < MB_CAPACITY
    ensures var (s', full, err) := Send(rd, s, Message("", from), To(to), 0, []);
            && full == [] && err == None && Good(s') && s'.pool == s.pool && s'.waits == s.waits
            && s'.senderDB == s.senderDB && Holds(s'.boxes[id], to, [from], n + 1) && Others(s, s', id)
  {
    var m := Message("", from);
    OneSender(s.boxes[id].value, from);
    var s1 := PutMsg(rd, s, id, m).0;
    assert SendOne(rd, s, m, to) == (s1, 0, id);
    assert Send(rd, s1, m, To(to), 1, []) == (s1, [], None);
    assert Send(rd, s, m, To(to), 0, []) == (s1, [], None);
  }

  lemma OneSender(b: Box, from: int)
    requires |b.senders| == MAX_SENDERS && b.numSenders == 1 && b.senders[..1] == [from] && b.ownerPid > 0
    ensures ValidSender(b, from) == 1
  {
  }

  // A message to a full mailbox
  lemma FullFacts(rd: Reading, s: State, from: int, to: int, id: int)
    requires Good(s) && to > 0 && FindBox(s.boxes, to, 0) == id && 0 <= id
    requires Holds(s.boxes[id], to, [from], MB_CAPACITY)
    ensures Send(rd, s, Message("", from), To(to), 0, []) == (s, [id], None)
  {
    var m := Message("", from);
    OneSender(s.boxes[id].value, from);
    assert SendOne(rd, s, m, to) == (s, -1, id);
    assert [] + [id] == [id];
    assert Send(rd, s, m, To(to), 1, [id]) == (s, [id], None);
  }

  lemma DoMail(rd: Reading, calls: seq<Call>, s: State, p: Procs, from: int, to: int, id: int, n: nat)
    returns (s': State)
    requires Now(rd, calls, s, p) && MayCall(rd, p, Mail(from, to)) && |p.holder| == MAX_IDS
    requires Good(s) && to > 0 && FindBox(s.boxes, to, 0) == id && 0 <= id
    requires Holds(s.boxes[id], to, [from], n) && n < MB_CAPACITY
    ensures Good(s') && Now(rd, calls + [Mail(from, to)], s', p) && s'.pool == s.pool && s'.waits == s.waits
    ensures s'.senderDB == s.senderDB && Holds(s'.boxes[id], to, [from], n + 1) && Others(s, s', id)
    ensures FindBox(s'.boxes, to, 0) == id
  {
    MailFacts(rd, s, from, to, id, n);
    NextCall(rd, calls, s, p, Mail(from, to));
    s' := Send(rd, s, Message("", from), To(to), 0, []).0;
    FindBoxSame(s.boxes, s'.boxes, to, 0);
  }

  lemma OneMoreTime(calls: seq<Call>, c: Call, k: nat)
    requires k > 0
    ensures (calls + Times(c, k - 1)) + [c] == calls + Times(c, k)
  {
  }

  // k messages to an empty mailbox
  lemma {:induction false} Fill(rd: Reading, calls: seq<Call>, s: State, p: Procs, from: int, to: int, id: int, k: nat)
    returns (s': State)
    requires Now(rd, calls, s, p) && MayCall(rd, p, Mail(from, to)) && |p.holder| == MAX_IDS
    requires Good(s) && to > 0 && FindBox(s.boxes, to, 0) == id && 0 <= id && k <= MB_CAPACITY
    requires Holds(s.boxes[id], to, [from], 0)
    ensures Good(s') && Now(rd, calls + Times(Mail(from, to), k), s', p) && s'.pool == s.pool && s'.waits == s.waits
    ensures s'.senderDB == s.senderDB && Holds(s'.boxes[id], to, [from], k) && Others(s, s', id)
    ensures FindBox(s'.boxes, to, 0) == id
    decreases k
  {
    if k == 0 {
      assert calls + [] == calls;
      s' := s;
    } else {
      var s1 := Fill(rd, calls, s, p, from, to, id, k - 1);
      s' := DoMail(rd, calls + Times(Mail(from, to), k - 1), s1, p, from, to, id, k - 1);
      OneMoreTime(calls, Mail(from, to), k);
    }
  }

  // The message after that blocks the sender, who has local id l.
  lemma DoBlock(rd: Reading, calls: seq<Call>, s: State, p: Procs, from: int, to: int, id: int, l: int)
    returns (s': State)
    requires Now(rd, calls, s, p) && MayCall(rd, p, Mail(from, to)) && |p.holder| == MAX_IDS
    requires Good(s) && to > 0 && FindBox(s.boxes, to, 0) == id && 0 <= id
    requires Holds(s.boxes[id], to, [from], MB_CAPACITY) && LocalId(s, from) == l >= 0
    requires !OnCycle(Edges(s.waits[l := [id]]), l)
    ensures Good(s') && s' == s.(waits := s.waits[l := [id]])
    ensures Now(rd, calls + [Mail(from, to)], s', Procs(p.holder[l := from], p.blocked[from := Wait(l, id)]))
  {
    FullFacts(rd, s, from, to, id);
    NextCall(rd, calls, s, p, Mail(from, to));
    s' := s.(waits := s.waits[l := [id]]);
  }

  lemma DoDestroy(rd: Reading, calls: seq<Call>, s: State, p: Procs, id: int) returns (s': State)
    requires Now(rd, calls, s, p) && |p.holder| == MAX_IDS && Good(s) && 0 <= id < MAX_MAILBOXES && s.boxes[id].Some?
    ensures Good(s') && Now(rd, calls + [Destroy(id)], s', p) && s'.waits == s.waits && s'.senderDB == s.senderDB
    ensures Others(s, s', id) && s'.boxes[id].Some? && s'.boxes[id].value.ownerPid == -1
  {
    NextCall(rd, calls, s, p, Destroy(id));
    s' := DestroyStep(s, id).0;
  }

  // Filling a mailbox and blocking on it: k messages and one more
  lemma FillAndBlock(rd: Reading, calls: seq<Call>, s: State, p: Procs, from: int, to: int, id: int, l: int, k: nat)
    returns (s': State)
    requires Now(rd, calls, s, p) && MayCall(rd, p, Mail(from, to)) && |p.holder| == MAX_IDS && k == MB_CAPACITY
    requires Good(s) && to > 0 && FindBox(s.boxes, to, 0) == id && 0 <= id
    requires Holds(s.boxes[id], to, [from], 0) && FindBox(s.boxes, from, 0) == l >= 0
    requires !OnCycle(Edges(s.waits[l := [id]]), l)
    ensures Good(s') && s'.waits == s.waits[l := [id]] && s'.senderDB == s.senderDB && s'.pool == s.pool
    ensures Holds(s'.boxes[id], to, [from], k) && Others(s, s', id)
    ensures Now(rd, calls + Times(Mail(from, to), k + 1), s',
              Procs(p.holder[l := from], p.blocked[from := Wait(l, id)]))
  {
    var s1 := Fill(rd, calls, s, p, from, to, id, k);
    SameId(s, s1, from, id, l);
    s' := DoBlock(rd, calls + Times(Mail(from, to), k), s1, p, from, to, id, l);
    OneMoreTime(calls, Mail(from, to), k + 1);
  }

  // A change inside one mailbox changes no local id.
  lemma SameId(s: State, s': State, pid: int, id: int, l: int)
    requires Good(s) && Good(s') && Others(s, s', id) && FindBox(s.boxes, pid, 0) == l >= 0 && 0 <= id < MAX_MAILBOXES
    requires s.boxes[id].Some? && s'.boxes[id].Some? && s.boxes[id].value.ownerPid == s'.boxes[id].value.ownerPid
    ensures FindBox(s'.boxes, pid, 0) == l && LocalId(s', pid) == l
  {
    FindBoxSame(s.boxes, s'.boxes, pid, 0);
  }

  // ------------------------------------------------------- a circle nobody sees

  // Process a owns mailboxes 0 and 1, b owns 2.  a fills 2 and blocks under id 0;
  // mailbox 0 is destroyed; b fills 1, the mailbox of a that is left, and blocks.
  // n is the capacity of a mailbox.
  function UnseenCalls(a: int, b: int, n: nat): seq<Call> {
    [Create(a, 0, 0, 1)] + [Create(a, 0, 0, 1)] + [Create(b, 0, 0, 1)] + [Register(b, 0, 0, 1)] + [Register(a, 0, 0, 2)]
    + Times(Mail(a, b), n + 1) + [Destroy(0)] + Times(Mail(b, a), n + 1)
  }

  // Whoever has two mailboxes can be in a circle that is not noticed.
  lemma UnseenCircle(rd: Reading, a: int, b: int, n: nat)
    requires n == MB_CAPACITY && a > 0 && b > 0 && a != b && a != rd.dbInit && b != rd.dbInit
    ensures Run(rd, UnseenCalls(a, b, n)).Some? && Orderly(rd, UnseenCalls(a, b, n))
    ensures InACircle(Run(rd, UnseenCalls(a, b, n)).value, ProcsAfter(rd, UnseenCalls(a, b, n)), [a, b])
  {
    var p := NoProcs();
    NoCallsYet(rd);
    var s1 := DoCreate(rd, [], Init(rd), p, a, 0);
    assert [] + [Create(a, 0, 0, 1)] == [Create(a, 0, 0, 1)];
    var c2 := [Create(a, 0, 0, 1)] + [Create(a, 0, 0, 1)];
    var s2 := DoCreate(rd, [Create(a, 0, 0, 1)], s1, p, a, 1);
    var s3 := DoCreate(rd, c2, s2, p, b, 2);
    var c3 := c2 + [Create(b, 0, 0, 1)];
    var s4 := DoRegister(rd, c3, s3, p, b, 1, a);
    var c4 := c3 + [Register(b, 0, 0, 1)];
    var s5 := DoRegister(rd, c4, s4, p, a, 2, b);
    UnseenEnd(rd, c4 + [Register(a, 0, 0, 2)], s5, p, a, b, n);
  }

  // No context leads back to l.
  lemma NoWayBack(w: seq<seq<int>>, l: int, id: int)
    requires |w| == MAX_IDS && 0 <= l < MAX_IDS && 0 <= id < MAX_IDS && id != l && IsGraph(Edges(w[l := [id]]))
    requires w[id] == []
    ensures !OnCycle(Edges(w[l := [id]]), l)
  {
    var e := Edges(w[l := [id]]);
    assert e[l] == id && e[id] == -1;
    assert Hop(e, l, 2) == Hop(e, id, 1) == Hop(e, -1, 0) == -1;
    assert Hop(e, l, 1) == Hop(e, id, 0) == id;
    ChainEnds(e, l, 2);
  }

  lemma UnseenEnd(rd: Reading, calls: seq<Call>, s: State, p: Procs, a: int, b: int, n: nat)
    requires n == MB_CAPACITY && a > 0 && b > 0 && a != b && a != rd.dbInit && b != rd.dbInit && p == NoProcs()
    requires Now(rd, calls, s, p) && Good(s) && s.waits == Init(rd).waits
    requires s.boxes[0].Some? && s.boxes[0].value.ownerPid == a
    requires Holds(s.boxes[1], a, [b], 0) && Holds(s.boxes[2], b, [a], 0)
    requires forall i :: 3 <= i < MAX_MAILBOXES ==> s.boxes[i].None?
    ensures var all := calls + Times(Mail(a, b), n + 1) + [Destroy(0)] + Times(Mail(b, a), n + 1);
            && Run(rd, all).Some? && Orderly(rd, all)
            && InACircle(Run(rd, all).value, ProcsAfter(rd, all), [a, b])
  {
    NoWayBack(s.waits, 0, 2);
    var s1 := FillAndBlock(rd, calls, s, p, a, b, 2, 0, n);
    var p1 := Procs(p.holder[0 := a], p.blocked[a := Wait(0, 2)]);
    UnseenDestroy(rd, calls + Times(Mail(a, b), n + 1), s1, p1, a, b, n);
  }

  lemma UnseenDestroy(rd: Reading, calls: seq<Call>, s: State, p: Procs, a: int, b: int, n: nat)
    requires n == MB_CAPACITY && a > 0 && b > 0 && a != b && b != rd.dbInit
    requires Now(rd, calls, s, p) && Good(s) && s.waits[1] == [] && |p.holder| == MAX_IDS
    requires p.blocked == map[a := Wait(0, 2)] && s.boxes[0].Some? && s.boxes[0].value.ownerPid == a
    requires Holds(s.boxes[1], a, [b], 0) && Holds(s.boxes[2], b, [a], n)
    ensures var all := calls + [Destroy(0)] + Times(Mail(b, a), n + 1);
            && Run(rd, all).Some? && Orderly(rd, all)
            && InACircle(Run(rd, all).value, ProcsAfter(rd, all), [a, b])
  {
    var s2 := DoDestroy(rd, calls, s, p, 0);
    UnseenLast(rd, calls + [Destroy(0)], s2, p, a, b, n);
  }

  lemma UnseenLast(rd: Reading, calls: seq<Call>, s: State, p: Procs, a: int, b: int, n: nat)
    requires n == MB_CAPACITY && a > 0 && b > 0 && a != b && b != rd.dbInit
    requires Now(rd, calls, s, p) && Good(s) && s.waits[1] == []
    requires |p.holder| == MAX_IDS && p.blocked == map[a := Wait(0, 2)]
    requires FindBox(s.boxes, a, 0) == 1 && FindBox(s.boxes, b, 0) == 2
    requires Holds(s.boxes[1], a, [b], 0)
    ensures var all := calls + Times(Mail(b, a), n + 1);
            && Run(rd, all).Some? && Orderly(rd, all)
            && InACircle(Run(rd, all).value, ProcsAfter(rd, all), [a, b])
  {
    NoWayBack(s.waits, 2, 1);
    var s' := FillAndBlock(rd, calls, s, p, b, a, 1, 2, n);
    TwoInACircle(s', Procs(p.holder[2 := b], p.blocked[b := Wait(2, 1)]), a, b);
  }

  lemma TwoInACircle(s: State, p: Procs, a: int, b: int)
    requires Good(s) && a in p.blocked && b in p.blocked && p.blocked[a].box == 2 && p.blocked[b].box == 1
    requires Owns(s.boxes[1], a) && Owns(s.boxes[2], b)
    ensures InACircle(s, p, [a, b])
  {
    assert WaitsFor(s, p, a, b) && WaitsFor(s, p, b, a);
  }

  // ---------------------------------------------------------- runs ending in a fault

  // b registers with the mailbox of a and fills it; its eleventh message would
  // block it, and it has no local id.
  function NoIdCalls(a: int, b: int, n: nat): seq<Call> {
    [Create(a, 0, 0, 1)] + [Register(b, 0, 0, 0)] + Times(Mail(b, a), n)
  }

  lemma SenderWithoutIdFaults(a: int, b: int, n: nat)
    requires n == MB_CAPACITY && a > 0 && b > 0 && a != b
    ensures Run(AS_WRITTEN, NoIdCalls(a, b, n)).Some?
    ensures Run(AS_WRITTEN, NoIdCalls(a, b, n) + [Mail(b, a)]) == None
  {
    var p := NoProcs();
    NoCallsYet(AS_WRITTEN);
    var s1 := DoCreate(AS_WRITTEN, [], Init(AS_WRITTEN), p, a, 0);
    assert [] + [Create(a, 0, 0, 1)] == [Create(a, 0, 0, 1)];
    var s2 := DoRegister(AS_WRITTEN, [Create(a, 0, 0, 1)], s1, p, b, 0, a);
    var c2 := [Create(a, 0, 0, 1)] + [Register(b, 0, 0, 0)];
    var s3 := Fill(AS_WRITTEN, c2, s2, p, b, a, 0, n);
    assert FindBox(s3.boxes, b, 0) == -1;
    NoIdFaults(c2 + Times(Mail(b, a), n), s3, p, a, b);
  }

  lemma NoIdFaults(calls: seq<Call>, s: State, p: Procs, a: int, b: int)
    requires a > 0 && b > 0 && Now(AS_WRITTEN, calls, s, p) && Good(s)
    requires FindBox(s.boxes, a, 0) == 0 && Holds(s.boxes[0], a, [b], MB_CAPACITY) && FindBox(s.boxes, b, 0) == -1
    ensures Run(AS_WRITTEN, calls + [Mail(b, a)]) == None
  {
    FullFacts(AS_WRITTEN, s, b, a, 0);
    MailFindings.NotFound(s.senderDB, b, 0);
    NextCallFaults(AS_WRITTEN, calls, s, p, Mail(b, a));
  }

  // Three owners, each sending to the next; n is the capacity of a mailbox.
  function RingCalls(a: int, b: int, c: int, n: nat): seq<Call> {
    RingOpening(a, b, c) + Times(Mail(a, b), n + 1) + Times(Mail(b, c), n + 1) + Times(Mail(c, a), n)
  }

  function RingOpening(a: int, b: int, c: int): seq<Call> {
    [Create(a, 0, 0, 1)] + [Create(b, 0, 0, 1)] + [Create(c, 0, 0, 1)]
    + [Register(a, 0, 0, 1)] + [Register(b, 0, 0, 2)] + [Register(c, 0, 0, 0)]
  }

  ghost predicate Ring(s: State, a: int, b: int, c: int) {
    && Good(s) && FindBox(s.boxes, a, 0) == 0 && FindBox(s.boxes, b, 0) == 1 && FindBox(s.boxes, c, 0) == 2
  }

  lemma RingOpens(rd: Reading, a: int, b: int, c: int) returns (s: State)
    requires a > 0 && b > 0 && c > 0 && a != b && a != c && b != c && rd.dbInit !in {a, b, c}
    ensures Now(rd, RingOpening(a, b, c), s, NoProcs()) && Ring(s, a, b, c) && s.waits == Init(rd).waits
    ensures Holds(s.boxes[0], a, [c], 0) && Holds(s.boxes[1], b, [a], 0) && Holds(s.boxes[2], c, [b], 0)
  {
    var p := NoProcs();
    NoCallsYet(rd);
    var s1 := DoCreate(rd, [], Init(rd), p, a, 0);
    assert [] + [Create(a, 0, 0, 1)] == [Create(a, 0, 0, 1)];
    var c2 := [Create(a, 0, 0, 1)] + [Create(b, 0, 0, 1)];
    var s2 := DoCreate(rd, [Create(a, 0, 0, 1)], s1, p, b, 1);
    var s3 := DoCreate(rd, c2, s2, p, c, 2);
    var c3 := c2 + [Create(c, 0, 0, 1)];
    var s4 := DoRegister(rd, c3, s3, p, a, 1, b);
    var c4 := c3 + [Register(a, 0, 0, 1)];
    var s5 := DoRegister(rd, c4, s4, p, b, 2, c);
    s := DoRegister(rd, c4 + [Register(b, 0, 0, 2)], s5, p, c, 0, a);
  }

  ghost predicate TwoBlocked(p: Procs, a: int, b: int) {
    && |p.holder| == MAX_IDS && p.holder[0] == a && p.holder[1] == b
    && p.blocked == map[a := Wait(0, 1), b := Wait(1, 2)]
  }

  // From there the first two block, and the third fills the last mailbox.
  lemma RingBlocks(rd: Reading, calls: seq<Call>, s: State, a: int, b: int, c: int, n: nat)
    returns (s': State, p: Procs)
    requires n == MB_CAPACITY
    requires a > 0 && b > 0 && c > 0 && a != b && a != c && b != c && rd.dbInit !in {a, b, c}
    requires Now(rd, calls, s, NoProcs()) && Ring(s, a, b, c) && s.waits == Init(rd).waits
    requires Holds(s.boxes[0], a, [c], 0) && Holds(s.boxes[1], b, [a], 0) && Holds(s.boxes[2], c, [b], 0)
    ensures Now(rd, calls + Times(Mail(a, b), n + 1) + Times(Mail(b, c), n + 1), s', p) && TwoBlocked(p, a, b)
    ensures Good(s') && Ring(s', a, b, c) && s'.waits == Init(rd).waits[0 := [1]][1 := [2]]
    ensures Holds(s'.boxes[0], a, [c], 0)
  {
    var s1, p1 := RingFirst(rd, calls, s, a, b, c, n);
    s', p := RingSecond(rd, calls + Times(Mail(a, b), n + 1), s1, p1, a, b, c, n);
  }

  lemma RingThird(rd: Reading, calls: seq<Call>, s: State, p: Procs, a: int, b: int, c: int, n: nat) returns (s': State)
    requires n == MB_CAPACITY && a > 0 && c > 0 && c != rd.dbInit && c !in p.blocked && |p.holder| == MAX_IDS
    requires Now(rd, calls, s, p) && Ring(s, a, b, c) && Holds(s.boxes[0], a, [c], 0)
    ensures Good(s') && Ring(s', a, b, c) && s'.waits == s.waits && Holds(s'.boxes[0], a, [c], n)
    ensures Now(rd, calls + Times(Mail(c, a), n), s', p)
  {
    s' := Fill(rd, calls, s, p, c, a, 0, n);
    RingStays(s, s', a, b, c, 0);
  }

  ghost predicate FirstBlocked(p: Procs, a: int) {
    |p.holder| == MAX_IDS && p.holder[0] == a && p.blocked == map[a := Wait(0, 1)]
  }

  lemma RingFirst(rd: Reading, calls: seq<Call>, s: State, a: int, b: int, c: int, n: nat) returns (s': State, p: Procs)
    requires n == MB_CAPACITY && a > 0 && b > 0 && a != b && a != rd.dbInit
    requires Now(rd, calls, s, NoProcs()) && Ring(s, a, b, c) && s.waits == Init(rd).waits
    requires Holds(s.boxes[1], b, [a], 0)
    ensures Good(s') && Ring(s', a, b, c) && s'.waits == Init(rd).waits[0 := [1]] && Others(s, s', 1)
    ensures Now(rd, calls + Times(Mail(a, b), n + 1), s', p) && FirstBlocked(p, a)
  {
    NoWayBack(s.waits, 0, 1);
    s' := FillAndBlock(rd, calls, s, NoProcs(), a, b, 1, 0, n);
    p := Procs(NoProcs().holder[0 := a], NoProcs().blocked[a := Wait(0, 1)]);
    RingStays(s, s', a, b, c, 1);
  }

  lemma RingSecond(rd: Reading, calls: seq<Call>, s: State, p: Procs, a: int, b: int, c: int, n: nat)
    returns (s': State, p': Procs)
    requires n == MB_CAPACITY && b > 0 && c > 0 && a != b && b != c && b != rd.dbInit
    requires Now(rd, calls, s, p) && FirstBlocked(p, a) && Ring(s, a, b, c) && Holds(s.boxes[2], c, [b], 0)
    requires s.waits == Init(rd).waits[0 := [1]]
    ensures Good(s') && Ring(s', a, b, c) && s'.waits == Init(rd).waits[0 := [1]][1 := [2]] && Others(s, s', 2)
    ensures Now(rd, calls + Times(Mail(b, c), n + 1), s', p') && TwoBlocked(p', a, b)
  {
    NoWayBack(s.waits, 1, 2);
    s' := FillAndBlock(rd, calls, s, p, b, c, 2, 1, n);
    p' := Procs(p.holder[1 := b], p.blocked[b := Wait(1, 2)]);
    RingStays(s, s', a, b, c, 2);
  }

  lemma RingStays(s: State, s': State, a: int, b: int, c: int, id: int)
    requires Ring(s, a, b, c) && Good(s') && 0 <= id < MAX_MAILBOXES && Others(s, s', id)
    requires s.boxes[id].Some? && s'.boxes[id].Some? && s.boxes[id].value.ownerPid == s'.boxes[id].value.ownerPid
    ensures Ring(s', a, b, c)
  {
    SameId(s, s', a, id, 0);
    SameId(s, s', b, id, 1);
    SameId(s, s', c, id, 2);
  }

  // The third closes the circle: the text runs over; advancing once per wake-up,
  // the notice wakes the other two.
  lemma RingOfThree(rd: Reading, a: int, b: int, c: int, n: nat)
    requires n == MB_CAPACITY
    requires a > 0 && b > 0 && c > 0 && a != b && a != c && b != c && rd.dbInit !in {a, b, c}
    ensures Run(rd, RingCalls(a, b, c, n)).Some?
    ensures Run(rd, RingCalls(a, b, c, n) + [Mail(c, a)]) == None <==> !rd.oneAdvance
    ensures rd.oneAdvance ==>
              ProcsAfter(rd, RingCalls(a, b, c, n)).blocked == map[a := Wait(0, 1), b := Wait(1, 2)]
              && ProcsAfter(rd, RingCalls(a, b, c, n) + [Mail(c, a)]).blocked == map[]
  {
    var s0 := RingOpens(rd, a, b, c);
    var s1, p := RingBlocks(rd, RingOpening(a, b, c), s0, a, b, c, n);
    var calls := RingOpening(a, b, c) + Times(Mail(a, b), n + 1) + Times(Mail(b, c), n + 1);
    var s := RingThird(rd, calls, s1, p, a, b, c, n);
    RingCloses(rd, RingCalls(a, b, c, n), s, p, a, b, c);
  }

  lemma RingCloses(rd: Reading, calls: seq<Call>, s: State, p: Procs, a: int, b: int, c: int)
    requires a > 0 && c > 0 && a != b && a != c && b != c && rd.dbInit != c
    requires Now(rd, calls, s, p) && Ring(s, a, b, c) && s.waits == Init(rd).waits[0 := [1]][1 := [2]]
    requires Holds(s.boxes[0], a, [c], MB_CAPACITY) && TwoBlocked(p, a, b)
    ensures Run(rd, calls + [Mail(c, a)]) == None <==> !rd.oneAdvance
    ensures rd.oneAdvance ==> ProcsAfter(rd, calls + [Mail(c, a)]).blocked == map[]
  {
    if rd.oneAdvance {
      var s', p' := RingWakes(rd, calls, s, p, a, b, c);
    } else {
      RingRunsOver(rd, calls, s, p, a, b, c);
    }
  }

  // The closing call, on the state alone
  lemma RingStep(rd: Reading, s: State, p: Procs, a: int, b: int, c: int)
    requires a > 0 && c > 0 && Ring(s, a, b, c) && s.waits == Init(rd).waits[0 := [1]][1 := [2]]
    requires Holds(s.boxes[0], a, [c], MB_CAPACITY) && TwoBlocked(p, a, b)
    ensures Step(rd, s, Mail(c, a)).1 == if rd.oneAdvance then Ret(0) else Fault
    ensures rd.oneAdvance ==> ProcStep(rd, s, p, Mail(c, a)).blocked == map[]
  {
    FullFacts(rd, s, c, a, 0);
    RingEdges(rd, s);
    AllAnswered(p, a, b, c);
  }

  lemma RingWakes(rd: Reading, calls: seq<Call>, s: State, p: Procs, a: int, b: int, c: int)
    returns (s': State, p': Procs)
    requires a > 0 && c > 0 && a != c && b != c && rd.dbInit != c && rd.oneAdvance
    requires Now(rd, calls, s, p) && Ring(s, a, b, c) && s.waits == Init(rd).waits[0 := [1]][1 := [2]]
    requires Holds(s.boxes[0], a, [c], MB_CAPACITY) && TwoBlocked(p, a, b)
    ensures Now(rd, calls + [Mail(c, a)], s', p') && p'.blocked == map[]
  {
    RingStep(rd, s, p, a, b, c);
    NextCall(rd, calls, s, p, Mail(c, a));
    s', p' := Step(rd, s, Mail(c, a)).0, ProcStep(rd, s, p, Mail(c, a));
  }

  lemma RingRunsOver(rd: Reading, calls: seq<Call>, s: State, p: Procs, a: int, b: int, c: int)
    requires a > 0 && c > 0 && !rd.oneAdvance
    requires Now(rd, calls, s, p) && Ring(s, a, b, c) && s.waits == Init(rd).waits[0 := [1]][1 := [2]]
    requires Holds(s.boxes[0], a, [c], MB_CAPACITY) && TwoBlocked(p, a, b)
    ensures Run(rd, calls + [Mail(c, a)]) == None
  {
    RingStep(rd, s, p, a, b, c);
    NextCallFaults(rd, calls, s, p, Mail(c, a));
  }

  lemma RingEdges(rd: Reading, s: State)
    requires Good(s) && s.waits == Init(rd).waits[0 := [1]][1 := [2]]
    ensures var e := Edges(s.waits[2 := [0]]);
            && IsGraph(e) && OnCycle(e, 2)
            && Woken(rd.oneAdvance, e, 2) == if rd.oneAdvance then Some([0, 1]) else None
  {
    var e := Edges(s.waits[2 := [0]]);
    assert e[0] == 1 && e[1] == 2 && e[2] == 0;
    MailFindings.ThreeRunsOver(e, 2, 0, 1);
  }

  lemma AllAnswered(p: Procs, a: int, b: int, c: int)
    requires TwoBlocked(p, a, b)
    ensures AfterAnswers(p.(holder := p.holder[2 := c]), [0, 1]).blocked == map[]
  {
    var p' := p.(holder := p.holder[2 := c]);
    var ids := [0, 1];
    assert ids[0] == 0 && ids[1] == 1;
    assert 0 in ids && p'.holder[0] == a && 1 in ids && p'.holder[1] == b;
    assert Answered(p', ids, a) && Answered(p', ids, b);
  }

  // Exactly when a deposit made after a run of the text goes outside the tables:
  // it has to block, and the sender owns no mailbox or closes an odd circle of
  // three or more.
  lemma DepositFaultsInRun(calls: seq<Call>, pid: int, data: string, dests: Dests)
    requires Run(AS_WRITTEN, calls).Some? && pid != 0
    ensures SendersFit(Run(AS_WRITTEN, calls).value)
    ensures var s := Run(AS_WRITTEN, calls).value;
            var (s', full, err) := Send(AS_WRITTEN, s, Message(data, pid), dests, 0, []);
            Run(AS_WRITTEN, calls + [Deposit(pid, data, dests)]) == None <==>
              err == None && full != [] && (OwnsNone(s, pid) || ClosesOddCircle(s, FindBox(s.boxes, pid, 0), full[0]))
  {
    var s := Run(AS_WRITTEN, calls).value;
    RunFits(AS_WRITTEN, calls);
    FaultEndsRun(AS_WRITTEN, calls, s, Deposit(pid, data, dests));
    DepositFaultsAt(s, pid, data, dests);
  }

  lemma RunFits(rd: Reading, calls: seq<Call>)
    requires Run(rd, calls).Some?
    ensures Inv(rd, Run(rd, calls).value) && SendersFit(Run(rd, calls).value)
  {
    StepKeeps(rd, Run(rd, calls).value, Retrieve(0));
  }

  lemma FaultEndsRun(rd: Reading, calls: seq<Call>, s: State, c: Call)
    requires Run(rd, calls) == Some(s) && SendersFit(s)
    ensures Run(rd, calls + [c]) == None <==> Step(rd, s, c).1 == Fault
  {
    assert (calls + [c])[..|calls + [c]| - 1] == calls;
  }

  lemma DepositFaultsAt(s: State, pid: int, data: string, dests: Dests)
    requires Inv(AS_WRITTEN, s) && SendersFit(s) && pid != 0
    ensures var (s', full, err) := Send(AS_WRITTEN, s, Message(data, pid), dests, 0, []);
            DepositStep(AS_WRITTEN, s, pid, data, dests).1 == Fault <==>
              err == None && full != [] && (OwnsNone(s, pid) || ClosesOddCircle(s, FindBox(s.boxes, pid, 0), full[0]))
  {
    var (s', full, err) := Send(AS_WRITTEN, s, Message(data, pid), dests, 0, []);
    MailFindings.DepositFaultsIff(AS_WRITTEN, s, pid, data, dests, s', full, err);
    if err == None && full != [] {
      IdAfterSending(s, pid, data, dests);
      if LocalId(s', pid) >= 0 {
        SameEdges(s.waits, LocalId(s', pid), full);
      }
    }
  }

  // The sender's local id is its lowest mailbox, before the messages and after.
  lemma IdAfterSending(s: State, pid: int, data: string, dests: Dests)
    requires Inv(AS_WRITTEN, s) && SendersFit(s) && pid != 0
    ensures var s' := Send(AS_WRITTEN, s, Message(data, pid), dests, 0, []).0;
            LocalId(s', pid) == FindBox(s.boxes, pid, 0) < MAX_MAILBOXES
  {
    var s' := Send(AS_WRITTEN, s, Message(data, pid), dests, 0, []).0;
    SendOwners(AS_WRITTEN, s, Message(data, pid), dests, 0, []);
    FindBoxSame(s'.boxes, s.boxes, pid, 0);
    MailFindings.NotFound(s'.senderDB, pid, 0);
  }

  lemma SameEdges(w: seq<seq<int>>, l: int, full: seq<int>)
    requires 0 <= l < |w| && full != []
    ensures Edges(w[l := full]) == Edges(w[l := [full[0]]])
  {
  }

  ghost predicate OwnsNone(s: State, pid: int)
    requires Shape(s)
  {
    forall i :: 0 <= i < MAX_MAILBOXES ==> !Owns(s.boxes[i], pid)
  }

  ghost predicate ClosesOddCircle(s: State, l: int, box: int)
    requires Shape(s)
  {
    && 0 <= l < MAX_IDS && 0 <= box < MAX_MAILBOXES
    && (var e := Edges(s.waits[l := [box]]);
        OnCycle(e, l) && CycleLen(e, l) >= 3 && CycleLen(e, l) % 2 == 1)
  }
}
