// What the server answers, told from its history alone.
//
// The functions below look only at the trace of events.  After any run they give
// the answer of every call, without a look at the server's tables.
module MailHistory {
  import opened WaitGraph
  import opened MailSpec
  import opened MailInvariants
  import opened MailProcesses
  import opened Options

  // ------------------------------------------------------- reading the history

  datatype Founder = Founder(pid: int, uid: int, gid: int, perm: int)

  // Who created the mailbox last put in the slot, destroyed since or not.
  function FounderOf(t: Trace, slot: int): Option<Founder> {
    match t
    case Nothing => None
    case After(past, Created(i, p, u, g, m)) => if i == slot then Some(Founder(p, u, g, m)) else FounderOf(past, slot)
    case After(past, _) => FounderOf(past, slot)
  }

  predicate Alive(t: Trace, slot: int) {
    match t
    case Nothing => false
    case After(past, Created(i, _, _, _, _)) => i == slot || Alive(past, slot)
    case After(past, Destroyed(i)) => i != slot && Alive(past, slot)
    case After(past, _) => Alive(past, slot)
  }

  // The senders registered since the slot was last filled, oldest first.
  function Roll(t: Trace, slot: int): seq<int> {
    match t
    case Nothing => []
    case After(past, Created(i, _, _, _, _)) => if i == slot then [] else Roll(past, slot)
    case After(past, Registered(i, p, _, _)) => if i == slot then Roll(past, slot) + [p] else Roll(past, slot)
    case After(past, _) => Roll(past, slot)
  }

  // Messages accepted and not yet copied to the receiver, oldest first.
  function Backlog(t: Trace, slot: int): seq<Message> {
    var a, c := AcceptedIn(t, slot), CopiedIn(t, slot);
    if |c| <= |a| then a[|c|..] else []
  }

  // The next message will be handed to the receiver, waiting or not.
  predicate HandsOver(rd: Reading, t: Trace, slot: int) {
    if rd.clearsFlag then Waiting(t, slot) else EverWaited(t, slot)
  }

  predicate Holds(t: Trace, slot: int, pid: int) {
    Alive(t, slot) && FounderOf(t, slot).Some? && FounderOf(t, slot).value.pid == pid
  }

  // The lowest living mailbox of a process, from slot i on.
  function HolderFrom(t: Trace, pid: int, i: nat): (r: int)
    requires i <= MAX_MAILBOXES
    ensures -1 <= r < MAX_MAILBOXES
    ensures r == -1 ==> forall k :: i <= k < MAX_MAILBOXES ==> !Holds(t, k, pid)
    ensures r >= 0 ==> i <= r && Holds(t, r, pid) && forall k :: i <= k < r ==> !Holds(t, k, pid)
    decreases MAX_MAILBOXES - i
  {
    if i == MAX_MAILBOXES then -1 else if Holds(t, i, pid) then i else HolderFrom(t, pid, i + 1)
  }

  function MailboxOf(t: Trace, pid: int): int { HolderFrom(t, pid, 0) }

  // ------------------------------------------------ the tables hold the history

  ghost predicate BoxTold(t: Trace, i: int, b: Option<Box>) {
    && (b.None? <==> FounderOf(t, i).None?)
    && (b.Some? ==>
          var f := FounderOf(t, i).value;
          && b.value.ownerUid == f.uid && b.value.ownerGid == f.gid && b.value.perm == f.perm
          && (Alive(t, i) ==> b.value.ownerPid == f.pid)
          && |Roll(t, i)| <= |b.value.senders| && b.value.senders[..|Roll(t, i)|] == Roll(t, i)
          && Filled(b.value.senders) == |Roll(t, i)|)
  }

  ghost predicate Told(s: State) {
    && Shape(s)
    && forall i :: 0 <= i < MAX_MAILBOXES ==> (s.pool[i] <==> Alive(s.trace, i)) && BoxTold(s.trace, i, s.boxes[i])
  }

  lemma InitTold(rd: Reading)
    ensures Told(Init(rd))
  {
  }

  lemma ElsewhereTold(t: Trace, ev: Event, i: int, b: Option<Box>)
    requires BoxTold(t, i, b) && Elsewhere(ev, i)
    ensures BoxTold(After(t, ev), i, b) && Alive(After(t, ev), i) == Alive(t, i)
  {
  }

  // Events that neither create, destroy nor register change none of this.
  predicate Passing(ev: Event) { !ev.Created? && !ev.Destroyed? && !ev.Registered? }

  lemma PassingTold(t: Trace, ev: Event, i: int)
    requires Passing(ev)
    ensures FounderOf(After(t, ev), i) == FounderOf(t, i) && Roll(After(t, ev), i) == Roll(t, i)
    ensures Alive(After(t, ev), i) == Alive(t, i)
  {
  }

  lemma CreateTold(s: State, pid: int, uid: int, gid: int, perm: int)
    requires Told(s)
    ensures Told(CreateStep(s, pid, uid, gid, perm).0)
  {
    var id := FindClear(s.pool, 0);
    if id != -1 {
      var s' := CreateStep(s, pid, uid, gid, perm).0;
      var ev := Created(id, pid, uid, gid, perm);
      FilledIs(seq(MAX_SENDERS, _ => -1), 0);
      forall i | 0 <= i < MAX_MAILBOXES
        ensures (s'.pool[i] <==> Alive(s'.trace, i)) && BoxTold(s'.trace, i, s'.boxes[i])
      {
        if i != id { ElsewhereTold(s.trace, ev, i, s.boxes[i]); }
      }
    }
  }

  lemma DestroyTold(s: State, id: int)
    requires Told(s)
    ensures Told(DestroyStep(s, id).0)
  {
    if 0 <= id < MAX_MAILBOXES && s.boxes[id].Some? {
      var s' := DestroyStep(s, id).0;
      forall i | 0 <= i < MAX_MAILBOXES
        ensures (s'.pool[i] <==> Alive(s'.trace, i)) && BoxTold(s'.trace, i, s'.boxes[i])
      {
        if i != id { ElsewhereTold(s.trace, Destroyed(id), i, s.boxes[i]); }
      }
    }
  }

  // The table of a mailbox is its roll, then free entries.
  lemma SlotIs(rd: Reading, s: State, id: int, pid: int)
    requires Inv(rd, s) && Told(s) && 0 <= id < MAX_MAILBOXES && s.boxes[id].Some? && pid != -1
    ensures var senders, roll := s.boxes[id].value.senders, Roll(s.trace, id); var k := SenderSlot(senders, pid, 0);
            && |roll| <= MAX_SENDERS && (k == -1 <==> pid !in roll && |roll| == MAX_SENDERS)
            && (k >= 0 ==> (senders[k] == pid <==> pid in roll) && (pid !in roll ==> k == |roll|))
  {
    var b, roll := s.boxes[id].value, Roll(s.trace, id);
    assert BoxInv(s.trace, id, b) && BoxTold(s.trace, id, s.boxes[id]);
    var k := SenderSlot(b.senders, pid, 0);
    assert forall j :: 0 <= j < |roll| ==> b.senders[j] == roll[j] != -1;
    assert forall j :: |roll| <= j < MAX_SENDERS ==> b.senders[j] == -1;
    if pid in roll {
      var j :| 0 <= j < |roll| && roll[j] == pid;
      assert b.senders[j] == pid;
      assert 0 <= k <= j;
    }
  }

  lemma AddSenderTold(rd: Reading, s: State, id: int, pid: int, uid: int, gid: int)
    requires Inv(rd, s) && Told(s) && 0 <= id < MAX_MAILBOXES && s.boxes[id].Some?
    ensures Told(AddSenderStep(s, id, pid, uid, gid).0)
  {
    var b := s.boxes[id].value;
    var k := SenderSlot(b.senders, pid, 0);
    if k != -1 && b.senders[k] != pid {
      assert BoxInv(s.trace, id, b);
      TableGrows(b, pid, k);
      var s' := AddSenderStep(s, id, pid, uid, gid).0;
      assert b.senders[k := pid][..k + 1] == b.senders[..k] + [pid];
      forall i | 0 <= i < MAX_MAILBOXES
        ensures (s'.pool[i] <==> Alive(s'.trace, i)) && BoxTold(s'.trace, i, s'.boxes[i])
      {
        if i != id { ElsewhereTold(s.trace, Registered(id, pid, uid, gid), i, s.boxes[i]); }
      }
    }
  }

  // A passing event, with at most the queue or the flag of a mailbox changed.
  lemma QueueTold(s: State, id: int, b: Box, ev: Event)
    requires Told(s) && 0 <= id < MAX_MAILBOXES && s.boxes[id].Some? && Passing(ev)
    requires b == s.boxes[id].value.(queue := b.queue, rxSuspended := b.rxSuspended)
    ensures Told(Log(PutBox(s, id, b), ev))
  {
    var s' := Log(PutBox(s, id, b), ev);
    forall i | 0 <= i < MAX_MAILBOXES
      ensures (s'.pool[i] <==> Alive(s'.trace, i)) && BoxTold(s'.trace, i, s'.boxes[i])
    {
      PassingTold(s.trace, ev, i);
    }
  }

  lemma LogTold(s: State, ev: Event)
    requires Told(s) && Passing(ev)
    ensures Told(Log(s, ev))
  {
    forall i | 0 <= i < MAX_MAILBOXES
      ensures (s.pool[i] <==> Alive(After(s.trace, ev), i)) && BoxTold(After(s.trace, ev), i, s.boxes[i])
    {
      PassingTold(s.trace, ev, i);
    }
  }

  lemma RetrieveTold(s: State, pid: int)
    requires Told(s)
    ensures Told(RetrieveStep(s, pid).0)
  {
    var id := FindBox(s.boxes, pid, 0);
    if id >= 0 {
      var b := s.boxes[id].value;
      if b.queue == [] {
        QueueTold(s, id, b.(rxSuspended := true), Waits(id));
      } else {
        QueueTold(s, id, b.(rxSuspended := false, queue := b.queue[1..]), Copied(id, b.queue[0]));
      }
    }
  }

  lemma PutTold(rd: Reading, s: State, id: int, msg: Message)
    requires Told(s) && 0 <= id < MAX_MAILBOXES && s.boxes[id].Some?
    ensures Told(PutMsg(rd, s, id, msg).0)
  {
    var b := s.boxes[id].value;
    var (b', code) := PutInBox(rd, b, msg);
    if code != -1 {
      QueueTold(s, id, b', Accepted(id, msg));
      LogTold(Log(PutBox(s, id, b'), Accepted(id, msg)), Copied(id, msg));
    }
  }

  lemma {:induction false} RevivalsTold(s: State, ids: seq<int>)
    requires Told(s)
    ensures Told(s.(trace := LogRevived(s.trace, ids)))
    decreases |ids|
  {
    if ids != [] {
      var n := |ids| - 1;
      RevivalsTold(s, ids[..n]);
      LogTold(s.(trace := LogRevived(s.trace, ids[..n])), Revived(ids[n]));
    }
  }

  // --------------------------------------------------------- one destination

  // The mailbox the server finds for a process is the one the history tells of.
  lemma FoundIsHeld(rd: Reading, s: State, pid: int)
    requires Inv(rd, s) && Told(s) && pid != -1
    ensures FindBox(s.boxes, pid, 0) == MailboxOf(s.trace, pid)
  {
    forall i | 0 <= i < MAX_MAILBOXES
      ensures Owns(s.boxes[i], pid) <==> Holds(s.trace, i, pid)
    {
      assert BoxTold(s.trace, i, s.boxes[i]);
      if s.boxes[i].Some? {
        assert BoxInv(s.trace, i, s.boxes[i].value);
      }
    }
  }

  lemma QueueIsBacklog(rd: Reading, s: State, i: int)
    requires Inv(rd, s) && 0 <= i < MAX_MAILBOXES && s.boxes[i].Some?
    ensures s.boxes[i].value.queue == Backlog(s.trace, i) && |Backlog(s.trace, i)| <= MB_CAPACITY
    ensures s.boxes[i].value.rxSuspended <==> HandsOver(rd, s.trace, i)
  {
    assert BoxInv(s.trace, i, s.boxes[i].value) && FlagInv(rd, s.trace, i, s.boxes[i].value);
  }

  // A living mailbox takes messages from those on its roll, and from them alone.
  lemma SenderIsOnRoll(rd: Reading, s: State, id: int, pid: int)
    requires Inv(rd, s) && Told(s) && SendersFit(s) && 0 <= id < MAX_MAILBOXES && s.boxes[id].Some?
    requires s.boxes[id].value.ownerPid != -1
    ensures ValidSender(s.boxes[id].value, pid) == if pid in Roll(s.trace, id) then 1 else 0
  {
    var b := s.boxes[id].value;
    assert BoxInv(s.trace, id, b) && BoxTold(s.trace, id, s.boxes[id]);
    assert b.senders[..b.numSenders] == Roll(s.trace, id);
  }

  // One more message accepted at slot x
  ghost predicate Took(rd: Reading, t: Trace, t': Trace, x: int, m: Message) {
    t' == if HandsOver(rd, t, x) then After(After(t, Accepted(x, m)), Copied(x, m)) else After(t, Accepted(x, m))
  }

  // The answer for one destination: -3 when the process has no mailbox, -5 when the
  // sender has not been registered with it since it was created, -1 when ten
  // messages are queued and no receiver is thought to wait; else it is accepted.
  lemma OneAnswer(rd: Reading, s: State, msg: Message, dest: int)
    requires Inv(rd, s) && Told(s) && SendersFit(s) && dest > 0
    ensures var (s', code, id) := SendOne(rd, s, msg, dest); var t := s.trace;
            && id == MailboxOf(t, dest)
            && (code == -3 <==> id == -1)
            && (code == -5 <==> id != -1 && msg.senderId !in Roll(t, id))
            && (code == -1 <==> id != -1 && msg.senderId in Roll(t, id) && |Backlog(t, id)| == MB_CAPACITY)
            && (code == 0 <==> id != -1 && msg.senderId in Roll(t, id) && |Backlog(t, id)| < MB_CAPACITY)
            && code in {0, -1, -3, -5} && (code != 0 ==> s' == s)
            && (code == 0 ==> Took(rd, t, s'.trace, id, msg))
  {
    var id := FindBox(s.boxes, dest, 0);
    FoundIsHeld(rd, s, dest);
    if id >= 0 {
      SenderIsOnRoll(rd, s, id, msg.senderId);
      QueueIsBacklog(rd, s, id);
    }
  }

  lemma OneTold(rd: Reading, s: State, msg: Message, dest: int)
    requires Inv(rd, s) && Told(s) && SendersFit(s) && dest > 0
    ensures Inv(rd, SendOne(rd, s, msg, dest).0) && Told(SendOne(rd, s, msg, dest).0)
  {
    SendOneKeeps(rd, s, msg, dest);
    var id := FindBox(s.boxes, dest, 0);
    if id >= 0 && ValidSender(s.boxes[id].value, msg.senderId) == 1 {
      PutTold(rd, s, id, msg);
    }
  }

  // ------------------------------------------------------ a list of destinations

  predicate Refuses(t: Trace, pid: int, dest: int) {
    MailboxOf(t, dest) == -1 || pid !in Roll(t, MailboxOf(t, dest))
  }

  // Where the list ends, or is cut short by a refusal.
  function Stop(t: Trace, pid: int, dests: Dests, i: nat): (r: nat)
    requires i <= 10
    ensures i <= r <= 10
    ensures forall k :: i <= k < r ==> dests[k] > 0 && !Refuses(t, pid, dests[k])
    ensures r < 10 ==> dests[r] <= 0 || Refuses(t, pid, dests[r])
    decreases 10 - i
  {
    if i == 10 || dests[i] <= 0 || Refuses(t, pid, dests[i]) then i else Stop(t, pid, dests, i + 1)
  }

  // The answer when the list is cut short at position e.
  function Refusal(t: Trace, dests: Dests, e: nat): Option<int> {
    if e < 10 && dests[e] > 0 then Some(if MailboxOf(t, dests[e]) == -1 then -3 else -5) else None
  }

  // How often the destinations from i up to k, k excluded, mean the slot.
  function Meant(t: Trace, dests: Dests, i: nat, k: nat, slot: int): (r: nat)
    requires k <= 10
    ensures r <= if i <= k then k - i else 0
    decreases k - i
  {
    if i >= k then 0 else (if MailboxOf(t, dests[i]) == slot then 1 else 0) + Meant(t, dests, i + 1, k, slot)
  }

  // How many more messages the slot takes: a receiver is handed any number.
  function Room(rd: Reading, t: Trace, slot: int): int {
    if HandsOver(rd, t, slot) then 10 else MB_CAPACITY - |Backlog(t, slot)|
  }

  // Of a list that is at position i, the destination at k finds its mailbox full.
  predicate FullAt(rd: Reading, t: Trace, dests: Dests, i: nat, k: nat)
    requires k < 10
  {
    Meant(t, dests, i, k, MailboxOf(t, dests[k])) >= Room(rd, t, MailboxOf(t, dests[k]))
  }

  // The mailboxes that destinations from k up to e find full, in order.
  function FullFrom(rd: Reading, t: Trace, dests: Dests, i: nat, k: nat, e: nat): (r: seq<int>)
    requires e <= 10
    ensures forall j :: 0 <= j < |r| ==> -1 <= r[j] < MAX_MAILBOXES
    decreases e - k
  {
    if k >= e then []
    else (if FullAt(rd, t, dests, i, k) then [MailboxOf(t, dests[k])] else []) + FullFrom(rd, t, dests, i, k + 1, e)
  }

  function Copies(m: Message, n: nat): seq<Message> { seq(n, _ => m) }

  function AtMost(a: nat, b: int): nat { if a <= b then a else if b <= 0 then 0 else b }

  // Rolls and owners are the same in both histories.
  ghost predicate SameRolls(t: Trace, t': Trace) {
    forall i :: FounderOf(t', i) == FounderOf(t, i) && Roll(t', i) == Roll(t, i) && Alive(t', i) == Alive(t, i)
  }

  lemma {:induction false} SameHolder(t: Trace, t': Trace, pid: int, i: nat)
    requires SameRolls(t, t') && i <= MAX_MAILBOXES
    ensures HolderFrom(t', pid, i) == HolderFrom(t, pid, i)
    decreases MAX_MAILBOXES - i
  {
    if i < MAX_MAILBOXES {
      SameHolder(t, t', pid, i + 1);
    }
  }

  lemma {:induction false} SameMeaning(t: Trace, t': Trace, dests: Dests, i: nat, k: nat, slot: int)
    requires SameRolls(t, t') && k <= 10
    ensures Meant(t', dests, i, k, slot) == Meant(t, dests, i, k, slot)
    decreases k - i
  {
    if i < k {
      SameHolder(t, t', dests[i], 0);
      SameMeaning(t, t', dests, i + 1, k, slot);
    }
  }

  lemma {:induction false} SameStop(t: Trace, t': Trace, pid: int, dests: Dests, i: nat)
    requires SameRolls(t, t') && i <= 10
    ensures Stop(t', pid, dests, i) == Stop(t, pid, dests, i)
    decreases 10 - i
  {
    if i < 10 {
      SameHolder(t, t', dests[i], 0);
      SameStop(t, t', pid, dests, i + 1);
    }
  }

  lemma TookMeans(rd: Reading, t: Trace, t': Trace, x: int, m: Message)
    requires Took(rd, t, t', x, m) && |CopiedIn(t, x)| <= |AcceptedIn(t, x)|
    requires HandsOver(rd, t, x) ==> Backlog(t, x) == []
    ensures SameRolls(t, t')
    ensures forall i :: AcceptedIn(t', i) == if i == x then AcceptedIn(t, i) + [m] else AcceptedIn(t, i)
    ensures forall i :: i != x ==> Room(rd, t', i) == Room(rd, t, i)
    ensures !HandsOver(rd, t, x) ==> Room(rd, t', x) == Room(rd, t, x) - 1
    ensures HandsOver(rd, t, x) ==> Room(rd, t', x) == 10
  {
    var t1 := After(t, Accepted(x, m));
    forall i
      ensures FounderOf(t', i) == FounderOf(t, i) && Roll(t', i) == Roll(t, i) && Alive(t', i) == Alive(t, i)
      ensures AcceptedIn(t', i) == if i == x then AcceptedIn(t, i) + [m] else AcceptedIn(t, i)
      ensures i != x ==> Room(rd, t', i) == Room(rd, t, i)
    {
      PassingTold(t, Accepted(x, m), i);
      PassingTold(t1, Copied(x, m), i);
      if i != x {
        assert AcceptedIn(t1, i) == AcceptedIn(t, i) && CopiedIn(t1, i) == CopiedIn(t, i);
        assert CopiedIn(t', i) == CopiedIn(t1, i) && AcceptedIn(t', i) == AcceptedIn(t1, i);
        assert Waiting(t', i) == Waiting(t1, i) == Waiting(t, i);
        assert EverWaited(t', i) == EverWaited(t1, i) == EverWaited(t, i);
      }
    }
    assert AcceptedIn(t1, x) == AcceptedIn(t, x) + [m] && CopiedIn(t1, x) == CopiedIn(t, x);
  }

  // After the destination at i, which meant slot x, y is meant once less if it is x.
  ghost predicate MeantLess(t: Trace, t': Trace, dests: Dests, i: nat, k: nat, x: int, y: int)
    requires k <= 10
  {
    Meant(t, dests, i, k, y) == (if x == y then 1 else 0) + Meant(t', dests, i + 1, k, y)
  }

  // Its room
  ghost predicate RoomLess(rd: Reading, t: Trace, t': Trace, x: int, y: int) {
    var r, r' := Room(rd, t, y), Room(rd, t', y);
    if x == y then (r > 0 && r' == r - 1) || r == r' == 10 || r == r' <= 0 else r' == r
  }

  // The destination at i has been dealt with: its slot x has one message less to
  // take, or hands over as many as you like, or was full.
  ghost predicate Moved(rd: Reading, t: Trace, t': Trace, x: int) {
    SameRolls(t, t') && forall y :: RoomLess(rd, t, t', x, y)
  }

  lemma FullSame(rd: Reading, t: Trace, t': Trace, dests: Dests, i: nat, k: nat, x: int, y: int)
    requires i < k < 10 && MailboxOf(t', dests[k]) == MailboxOf(t, dests[k]) == y
    requires MeantLess(t, t', dests, i, k, x, y) && RoomLess(rd, t, t', x, y)
    ensures FullAt(rd, t', dests, i + 1, k) == FullAt(rd, t, dests, i, k)
  {
    var m, r, r' := Meant(t', dests, i + 1, k, y), Room(rd, t, y), Room(rd, t', y);
    assert FullAt(rd, t', dests, i + 1, k) == (m >= r');
    assert FullAt(rd, t, dests, i, k) == ((if x == y then 1 else 0) + m >= r);
    Compared(m, r, r', x == y);
  }

  lemma Compared(m: nat, r: int, r': int, same: bool)
    requires m < 9 && if same then (r > 0 && r' == r - 1) || r == r' == 10 || r == r' <= 0 else r' == r
    ensures m >= r' <==> (if same then 1 else 0) + m >= r
  {
  }

  lemma MovedMeant(rd: Reading, t: Trace, t': Trace, dests: Dests, i: nat, k: nat, y: int)
    requires i < k <= 10 && SameRolls(t, t')
    ensures MeantLess(t, t', dests, i, k, MailboxOf(t, dests[i]), y)
  {
    SameMeaning(t, t', dests, i + 1, k, y);
    MeantOnceLess(t, t', dests, i, k, y);
  }

  lemma MeantOnceLess(t: Trace, t': Trace, dests: Dests, i: nat, k: nat, y: int)
    requires i < k <= 10 && Meant(t', dests, i + 1, k, y) == Meant(t, dests, i + 1, k, y)
    ensures MeantLess(t, t', dests, i, k, MailboxOf(t, dests[i]), y)
  {
  }

  lemma MovedFull(rd: Reading, t: Trace, t': Trace, dests: Dests, i: nat, k: nat)
    requires i < k < 10 && Moved(rd, t, t', MailboxOf(t, dests[i]))
    ensures FullAt(rd, t', dests, i + 1, k) == FullAt(rd, t, dests, i, k)
  {
    var x, y := MailboxOf(t, dests[i]), MailboxOf(t, dests[k]);
    SameHolder(t, t', dests[k], 0);
    MovedMeant(rd, t, t', dests, i, k, y);
    FullSame(rd, t, t', dests, i, k, x, y);
  }

  lemma {:induction false} MovedFullFrom(rd: Reading, t: Trace, t': Trace, dests: Dests, i: nat, k: nat, e: nat)
    requires i < k && i < 10 && e <= 10 && Moved(rd, t, t', MailboxOf(t, dests[i]))
    ensures FullFrom(rd, t', dests, i + 1, k, e) == FullFrom(rd, t, dests, i, k, e)
    decreases e - k
  {
    if k < e {
      MovedFull(rd, t, t', dests, i, k);
      SameHolder(t, t', dests[k], 0);
      MovedFullFrom(rd, t, t', dests, i, k + 1, e);
    }
  }

  function Taken(rd: Reading, t: Trace, dests: Dests, i: nat, e: nat, x: int): nat
    requires e <= 10
  {
    AtMost(Meant(t, dests, i, e, x), Room(rd, t, x))
  }

  lemma TakenLess(rd: Reading, t: Trace, t': Trace, dests: Dests, i: nat, e: nat, x: int, y: int)
    requires i < e <= 10 && MeantLess(t, t', dests, i, e, x, y) && RoomLess(rd, t, t', x, y)
    ensures Taken(rd, t, dests, i, e, y) ==
            Taken(rd, t', dests, i + 1, e, y) + if x == y && Room(rd, t, y) > 0 then 1 else 0
  {
  }

  lemma MovedTaken(rd: Reading, t: Trace, t': Trace, dests: Dests, i: nat, e: nat, y: int)
    requires i < e <= 10 && Moved(rd, t, t', MailboxOf(t, dests[i]))
    ensures Taken(rd, t, dests, i, e, y) ==
            Taken(rd, t', dests, i + 1, e, y) + if y == MailboxOf(t, dests[i]) && Room(rd, t, y) > 0 then 1 else 0
  {
    MovedMeant(rd, t, t', dests, i, e, y);
    TakenLess(rd, t, t', dests, i, e, MailboxOf(t, dests[i]), y);
  }

  // The outcome of going through the destinations from i on, from the history t.
  ghost predicate Delivered(rd: Reading, t: Trace, t': Trace, msg: Message, dests: Dests, i: nat,
      full: seq<int>, err: Option<int>)
    requires i <= 10
  {
    var e := Stop(t, msg.senderId, dests, i);
    && err == Refusal(t, dests, e) && full == FullFrom(rd, t, dests, i, i, e)
    && forall x :: AcceptedIn(t', x) == AcceptedIn(t, x) + Copies(msg, Taken(rd, t, dests, i, e, x))
  }

  lemma NothingDelivered(rd: Reading, t: Trace, msg: Message, dests: Dests, i: nat)
    requires i <= 10 && (i == 10 || dests[i] <= 0 || Refuses(t, msg.senderId, dests[i]))
    ensures Delivered(rd, t, t, msg, dests, i, [], Refusal(t, dests, i))
  {
    forall x
      ensures AcceptedIn(t, x) == AcceptedIn(t, x) + Copies(msg, Taken(rd, t, dests, i, i, x))
    {
      assert Copies(msg, 0) == [];
    }
  }

  // What the turn at i adds to the messages accepted
  ghost predicate TurnTook(rd: Reading, t: Trace, t1: Trace, x: int, msg: Message) {
    forall y ::
      AcceptedIn(t1, y) == if y == x && Room(rd, t, x) > 0 then AcceptedIn(t, y) + [msg] else AcceptedIn(t, y)
  }

  lemma OneMoreCopied(rd: Reading, t: Trace, t1: Trace, t': Trace, msg: Message, dests: Dests, i: nat, e: nat, y: int)
    requires i < e <= 10 && Moved(rd, t, t1, MailboxOf(t, dests[i])) && TurnTook(rd, t, t1, MailboxOf(t, dests[i]), msg)
    requires AcceptedIn(t', y) == AcceptedIn(t1, y) + Copies(msg, Taken(rd, t1, dests, i + 1, e, y))
    ensures AcceptedIn(t', y) == AcceptedIn(t, y) + Copies(msg, Taken(rd, t, dests, i, e, y))
  {
    MovedTaken(rd, t, t1, dests, i, e, y);
    OneCopyMore(AcceptedIn(t, y), msg, Taken(rd, t1, dests, i + 1, e, y));
  }

  lemma OneCopyMore(a: seq<Message>, m: Message, n: nat)
    ensures (a + [m]) + Copies(m, n) == a + Copies(m, n + 1)
  {
    assert Copies(m, n + 1) == [m] + Copies(m, n);
  }

  lemma OneMoreStop(rd: Reading, t: Trace, t1: Trace, pid: int, dests: Dests, i: nat, e: nat)
    requires i < 10 && dests[i] > 0 && !Refuses(t, pid, dests[i]) && SameRolls(t, t1)
    requires e == Stop(t1, pid, dests, i + 1)
    ensures e == Stop(t, pid, dests, i) && Refusal(t1, dests, e) == Refusal(t, dests, e)
  {
    SameStop(t, t1, pid, dests, i + 1);
    if e < 10 { SameHolder(t, t1, dests[e], 0); }
  }

  lemma OneMoreFull(rd: Reading, t: Trace, t1: Trace, dests: Dests, i: nat, e: nat)
    requires i < e <= 10 && Moved(rd, t, t1, MailboxOf(t, dests[i]))
    ensures FullFrom(rd, t, dests, i, i, e) == (if Room(rd, t, MailboxOf(t, dests[i])) > 0 then []
              else [MailboxOf(t, dests[i])]) + FullFrom(rd, t1, dests, i + 1, i + 1, e)
  {
    MovedFullFrom(rd, t, t1, dests, i, i + 1, e);
    FullHead(rd, t, dests, i, e);
  }

  lemma FullHead(rd: Reading, t: Trace, dests: Dests, i: nat, e: nat)
    requires i < e <= 10
    ensures FullFrom(rd, t, dests, i, i, e) == (if Room(rd, t, MailboxOf(t, dests[i])) > 0 then []
              else [MailboxOf(t, dests[i])]) + FullFrom(rd, t, dests, i, i + 1, e)
  {
    assert Meant(t, dests, i, i, MailboxOf(t, dests[i])) == 0;
  }

  lemma OneMoreDelivered(rd: Reading, t: Trace, t1: Trace, t': Trace, msg: Message, dests: Dests, i: nat,
      full: seq<int>, err: Option<int>)
    requires i < 10 && dests[i] > 0 && !Refuses(t, msg.senderId, dests[i])
    requires Moved(rd, t, t1, MailboxOf(t, dests[i])) && TurnTook(rd, t, t1, MailboxOf(t, dests[i]), msg)
    requires Delivered(rd, t1, t', msg, dests, i + 1, full, err)
    ensures var x := MailboxOf(t, dests[i]);
            Delivered(rd, t, t', msg, dests, i, (if Room(rd, t, x) > 0 then [] else [x]) + full, err)
  {
    var e := Stop(t1, msg.senderId, dests, i + 1);
    OneMoreStop(rd, t, t1, msg.senderId, dests, i, e);
    OneMoreFull(rd, t, t1, dests, i, e);
    forall y
      ensures AcceptedIn(t', y) == AcceptedIn(t, y) + Copies(msg, Taken(rd, t, dests, i, e, y))
    {
      OneMoreCopied(rd, t, t1, t', msg, dests, i, e, y);
    }
  }

  // A turn of the destination loop that meets no refusal
  lemma TurnMoves(rd: Reading, s: State, msg: Message, dest: int)
    requires Inv(rd, s) && Told(s) && SendersFit(s) && dest > 0 && !Refuses(s.trace, msg.senderId, dest)
    ensures var (s', code, x) := SendOne(rd, s, msg, dest);
            && x == MailboxOf(s.trace, dest) && Moved(rd, s.trace, s'.trace, x)
            && code == (if Room(rd, s.trace, x) > 0 then 0 else -1) && TurnTook(rd, s.trace, s'.trace, x, msg)
  {
    OneAnswer(rd, s, msg, dest);
    FoundIsHeld(rd, s, dest);
    var (s', code, x) := SendOne(rd, s, msg, dest);
    QueueIsBacklog(rd, s, x);
    assert BoxInv(s.trace, x, s.boxes[x].value);
    if code == 0 {
      TookMeans(rd, s.trace, s'.trace, x, msg);
    }
  }

  // The destination loop is at position i, having found `full` full.
  ghost predicate Ready(rd: Reading, s: State, i: nat, full: seq<int>) {
    && Inv(rd, s) && Told(s) && SendersFit(s) && i <= 10
    && forall k :: 0 <= k < |full| ==> 0 <= full[k] < MAX_MAILBOXES
  }

  // The next destination is not refused; `more` is its mailbox if that is full.
  ghost predicate GoesOn(rd: Reading, t: Trace, pid: int, dests: Dests, i: nat, more: seq<int>) {
    && i < 10 && dests[i] > 0 && !Refuses(t, pid, dests[i])
    && more == if Room(rd, t, MailboxOf(t, dests[i])) > 0 then [] else [MailboxOf(t, dests[i])]
  }

  // Going on from there finds `rest` full as well.
  ghost predicate SendGoes(rd: Reading, s: State, msg: Message, dests: Dests, i: nat, full: seq<int>, rest: seq<int>)
    requires Ready(rd, s, i, full)
  {
    var (s', full', err) := Send(rd, s, msg, dests, i, full);
    Inv(rd, s') && Told(s') && full' == full + rest && Delivered(rd, s.trace, s'.trace, msg, dests, i, rest, err)
  }

  lemma SendStops(rd: Reading, s: State, msg: Message, dests: Dests, i: nat, full: seq<int>)
    requires Ready(rd, s, i, full) && (i == 10 || dests[i] <= 0 || Refuses(s.trace, msg.senderId, dests[i]))
    ensures SendGoes(rd, s, msg, dests, i, full, [])
  {
    NothingDelivered(rd, s.trace, msg, dests, i);
    assert full + [] == full;
    if i < 10 && dests[i] > 0 {
      SendNext(rd, s, msg, dests, i, full);
      OneAnswer(rd, s, msg, dests[i]);
    }
  }

  lemma Joined(a: seq<int>, b: seq<int>, c: seq<int>)
    ensures (a + b) + c == a + (b + c) && a + [] == a
  {
  }

  lemma SendTurn(rd: Reading, s: State, msg: Message, dests: Dests, i: nat, full: seq<int>, more: seq<int>)
    returns (s1: State)
    requires Ready(rd, s, i, full) && GoesOn(rd, s.trace, msg.senderId, dests, i, more)
    ensures Ready(rd, s1, i + 1, full + more) && Moved(rd, s.trace, s1.trace, MailboxOf(s.trace, dests[i]))
    ensures TurnTook(rd, s.trace, s1.trace, MailboxOf(s.trace, dests[i]), msg)
    ensures Send(rd, s, msg, dests, i, full) == Send(rd, s1, msg, dests, i + 1, full + more)
  {
    s1 := SendOne(rd, s, msg, dests[i]).0;
    assert full + [] == full;
    TurnReady(rd, s, msg, dests, i, full, more);
    SendNext(rd, s, msg, dests, i, full);
    TurnMoves(rd, s, msg, dests[i]);
  }

  lemma TurnReady(rd: Reading, s: State, msg: Message, dests: Dests, i: nat, full: seq<int>, more: seq<int>)
    requires Ready(rd, s, i, full) && GoesOn(rd, s.trace, msg.senderId, dests, i, more)
    ensures Ready(rd, SendOne(rd, s, msg, dests[i]).0, i + 1, full + more)
  {
    OneTold(rd, s, msg, dests[i]);
  }

  lemma SendOn(rd: Reading, s: State, s1: State, msg: Message, dests: Dests, i: nat, full: seq<int>,
      more: seq<int>, later: seq<int>)
    requires Ready(rd, s, i, full) && GoesOn(rd, s.trace, msg.senderId, dests, i, more)
    requires Ready(rd, s1, i + 1, full + more) && Moved(rd, s.trace, s1.trace, MailboxOf(s.trace, dests[i]))
    requires TurnTook(rd, s.trace, s1.trace, MailboxOf(s.trace, dests[i]), msg)
    requires Send(rd, s, msg, dests, i, full) == Send(rd, s1, msg, dests, i + 1, full + more)
    requires SendGoes(rd, s1, msg, dests, i + 1, full + more, later)
    ensures SendGoes(rd, s, msg, dests, i, full, more + later)
  {
    var (s', full', err) := Send(rd, s1, msg, dests, i + 1, full + more);
    Joined(full, more, later);
    OneMoreDelivered(rd, s.trace, s1.trace, s'.trace, msg, dests, i, later, err);
  }

  lemma {:induction false} SendTold(rd: Reading, s: State, msg: Message, dests: Dests, i: nat, full: seq<int>)
    returns (rest: seq<int>)
    requires Ready(rd, s, i, full)
    ensures SendGoes(rd, s, msg, dests, i, full, rest)
    decreases 10 - i, 1
  {
    if i == 10 || dests[i] <= 0 || Refuses(s.trace, msg.senderId, dests[i]) {
      SendStops(rd, s, msg, dests, i, full);
      rest := [];
    } else {
      var x := MailboxOf(s.trace, dests[i]);
      rest := SendMore(rd, s, msg, dests, i, full, if Room(rd, s.trace, x) > 0 then [] else [x]);
    }
  }

  lemma {:induction false} SendMore(
      rd: Reading, s: State, msg: Message, dests: Dests, i: nat, full: seq<int>, more: seq<int>)
    returns (rest: seq<int>)
    requires Ready(rd, s, i, full) && GoesOn(rd, s.trace, msg.senderId, dests, i, more)
    ensures SendGoes(rd, s, msg, dests, i, full, rest)
    decreases 10 - i, 0
  {
    var s1 := SendTurn(rd, s, msg, dests, i, full, more);
    rest := SendTold(rd, s1, msg, dests, i + 1, full + more);
    SendOn(rd, s, s1, msg, dests, i, full, more, rest);
    rest := more + rest;
  }

  // ------------------------------------------------------------- whole runs

  lemma SuspendTold(rd: Reading, s: State, l: int, full: seq<int>)
    requires Told(s) && full != [] && forall k :: 0 <= k < |full| ==> 0 <= full[k] < MAX_MAILBOXES
    requires SuspendStep(rd, s, l, full).1 != Fault
    ensures Told(SuspendStep(rd, s, l, full).0)
    ensures forall x :: AcceptedIn(SuspendStep(rd, s, l, full).0.trace, x) == AcceptedIn(s.trace, x)
  {
    var w := s.waits[l := full];
    if OnCycle(Edges(w), l) {
      var ids := Woken(rd.oneAdvance, Edges(w), l).value;
      RevivalsTold(s, ids);
      WakingShape(s.(waits := w), ids);
      assert AfterWaking(s.(waits := w), ids).boxes == s.boxes;
      RevivalsAccept(s.trace, ids);
    }
  }

  lemma {:induction false} RevivalsAccept(t: Trace, ids: seq<int>)
    ensures forall x :: AcceptedIn(LogRevived(t, ids), x) == AcceptedIn(t, x)
    decreases |ids|
  {
    if ids != [] {
      RevivalsAccept(t, ids[..|ids| - 1]);
    }
  }

  lemma RegisterTold(rd: Reading, s: State, pid: int, uid: int, gid: int, id: int)
    requires Inv(rd, s) && Told(s)
    ensures Told(RegisterStep(s, pid, uid, gid, id).0)
  {
    if 0 <= id < MAX_MAILBOXES && s.boxes[id].Some? {
      AddSenderTold(rd, s, id, pid, uid, gid);
    }
  }

  lemma StepTold(rd: Reading, s: State, c: Call)
    requires Inv(rd, s) && Told(s) && SendersFit(s) && Step(rd, s, c).1 != Fault
    ensures Told(Step(rd, s, c).0)
  {
    match c
    case Create(pid, uid, gid, perm) => CreateTold(s, pid, uid, gid, perm);
    case Destroy(id) => DestroyTold(s, id);
    case Register(pid, uid, gid, id) => RegisterTold(rd, s, pid, uid, gid, id);
    case Retrieve(pid) => RetrieveTold(s, pid);
    case Deposit(pid, data, dests) => DepositStaysTold(rd, s, pid, data, dests);
  }

  lemma DepositStaysTold(rd: Reading, s: State, pid: int, data: string, dests: Dests)
    requires Inv(rd, s) && Told(s) && SendersFit(s) && DepositStep(rd, s, pid, data, dests).1 != Fault
    ensures Told(DepositStep(rd, s, pid, data, dests).0)
  {
    var rest := SendTold(rd, s, Message(data, pid), dests, 0, []);
    var (s', full, err) := Send(rd, s, Message(data, pid), dests, 0, []);
    assert Told(s');
    if err.None? && full != [] {
      SuspendTold(rd, s', LocalId(s', pid), full);
    }
  }

  lemma {:induction false} RunTold(rd: Reading, calls: seq<Call>)
    requires Run(rd, calls).Some?
    ensures Told(Run(rd, calls).value) && SendersFit(Run(rd, calls).value)
    decreases |calls|
  {
    if calls == [] {
      InitTold(rd);
    } else {
      var n := |calls| - 1;
      RunTold(rd, calls[..n]);
      StepKeeps(rd, Run(rd, calls[..n]).value, calls[n]);
      StepTold(rd, Run(rd, calls[..n]).value, calls[n]);
    }
    StepKeeps(rd, Run(rd, calls).value, Retrieve(0));
  }

  // ------------------------------------------------------------- the answers

  lemma LowestClear(s: State)
    requires Told(s)
    ensures var id := FindClear(s.pool, 0);
            && (id == -1 <==> forall i :: 0 <= i < MAX_MAILBOXES ==> Alive(s.trace, i))
            && (id != -1 ==> !Alive(s.trace, id) && forall i :: 0 <= i < id ==> Alive(s.trace, i))
  {
    var id := FindClear(s.pool, 0);
    forall i | 0 <= i < MAX_MAILBOXES && (id == -1 || i < id)
      ensures Alive(s.trace, i)
    {
      assert s.pool[i];
    }
    if id != -1 {
      assert !s.pool[id] && !Alive(s.trace, id);
    }
  }

  // Creating takes the lowest slot without a living mailbox.
  lemma CreateAnswer(rd: Reading, calls: seq<Call>, pid: int, uid: int, gid: int, perm: int)
    requires Run(rd, calls).Some?
    ensures var s := Run(rd, calls).value; var (s', o) := CreateStep(s, pid, uid, gid, perm); var t := s.trace;
            && o.Ret?
            && (o.code == -1 <==> forall i :: 0 <= i < MAX_MAILBOXES ==> Alive(t, i))
            && (o.code == -1 ==> s' == s)
            && (o.code != -1 ==>
                  && 0 <= o.code < MAX_MAILBOXES && !Alive(t, o.code)
                  && (forall i :: 0 <= i < o.code ==> Alive(t, i))
                  && s'.trace == After(t, Created(o.code, pid, uid, gid, perm)))
  {
    RunTold(rd, calls);
    var s := Run(rd, calls).value;
    LowestClear(s);
  }

  // Destroying fails for a mailbox destroyed before, and is quiet about an id that
  // was never given out.
  lemma DestroyAnswer(rd: Reading, calls: seq<Call>, id: int)
    requires Run(rd, calls).Some?
    ensures var s := Run(rd, calls).value; var (s', o) := DestroyStep(s, id); var t := s.trace;
            && (o == Fault <==> id < 0)
            && (o == Ret(-1) <==> 0 <= id < MAX_MAILBOXES && FounderOf(t, id).Some? && !Alive(t, id))
            && (o == Fault || o == Ret(-1) || o == Ret(0))
            && (0 <= id < MAX_MAILBOXES ==> !Alive(s'.trace, id))
  {
    RunTold(rd, calls);
    var s := Run(rd, calls).value;
    if 0 <= id < MAX_MAILBOXES {
      assert BoxTold(s.trace, id, s.boxes[id]);
    }
  }

  // The bits of perm: everyone, the owner's group, the owner; others mean nothing.
  predicate Grants(perm: int, everyone: bool, group: bool, owner: bool, rest: int) {
    perm == (if everyone then 1 else 0) + (if group then 2 else 0) + (if owner then 4 else 0) + 8 * rest
  }

  lemma GrantsMeans(perm: int, everyone: bool, group: bool, owner: bool, rest: int,
      ownerUid: int, ownerGid: int, uid: int, gid: int)
    requires Grants(perm, everyone, group, owner, rest)
    ensures Permits(perm, ownerUid, ownerGid, uid, gid) <==>
              everyone || (group && ownerGid == gid) || (owner && ownerUid == uid)
  {
    var third := 2 * rest + if owner then 1 else 0;
    var second := 2 * third + if group then 1 else 0;
    Halved(rest, owner);
    Halved(third, group);
    Halved(second, everyone);
    assert perm / 4 == (perm / 2) / 2;
  }

  lemma Halved(q: int, bit: bool)
    ensures var x := 2 * q + if bit then 1 else 0; x / 2 == q && (x % 2 == 1 <==> bit)
  {
  }

  // A process is registered when the creator's permissions let it in, it is not
  // registered yet and there is room.  -1: kept out or no room; -2: already there.
  lemma RegisterAnswer(rd: Reading, calls: seq<Call>, pid: int, uid: int, gid: int, id: int,
      everyone: bool, group: bool, owner: bool, rest: int)
    requires Run(rd, calls).Some? && pid != -1 && 0 <= id < MAX_MAILBOXES
    requires var f := FounderOf(Run(rd, calls).value.trace, id);
             f.Some? && Grants(f.value.perm, everyone, group, owner, rest)
    ensures var s := Run(rd, calls).value; var (s', o) := RegisterStep(s, pid, uid, gid, id);
            var f := FounderOf(s.trace, id).value; var roll := Roll(s.trace, id);
            var let := everyone || (group && f.gid == gid) || (owner && f.uid == uid);
            && (o == Ret(-1) <==> !let || (pid !in roll && |roll| == MAX_SENDERS))
            && (o == Ret(-2) <==> let && pid in roll)
            && (o == Ret(0) <==> let && pid !in roll && |roll| < MAX_SENDERS)
            && (o == Ret(-1) || o == Ret(-2) || o == Ret(0)) && |roll| <= MAX_SENDERS
            && s'.trace == if o == Ret(0) then After(s.trace, Registered(id, pid, uid, gid)) else s.trace
  {
    RunTold(rd, calls);
    var s := Run(rd, calls).value;
    assert BoxTold(s.trace, id, s.boxes[id]);
    SlotIs(rd, s, id, pid);
    var f := FounderOf(s.trace, id).value;
    GrantsMeans(f.perm, everyone, group, owner, rest, f.uid, f.gid, uid, gid);
    RegisterCode(s, pid, uid, gid, id);
  }

  lemma RegisterCode(s: State, pid: int, uid: int, gid: int, id: int)
    requires Shape(s) && 0 <= id < MAX_MAILBOXES && s.boxes[id].Some?
    ensures var b := s.boxes[id].value; var k := SenderSlot(b.senders, pid, 0);
            var (s', o) := RegisterStep(s, pid, uid, gid, id);
            && o == Ret(if !Permits(b.perm, b.ownerUid, b.ownerGid, uid, gid) || k == -1 then -1
                        else if b.senders[k] == pid then -2 else 0)
            && s'.trace == if o == Ret(0) then After(s.trace, Registered(id, pid, uid, gid)) else s.trace
  {
  }

  // It runs outside the tables exactly for a slot that was never filled.
  lemma RegisterFaultsIff(rd: Reading, calls: seq<Call>, pid: int, uid: int, gid: int, id: int)
    requires Run(rd, calls).Some?
    ensures var s := Run(rd, calls).value;
            RegisterStep(s, pid, uid, gid, id).1 == Fault <==>
              !(0 <= id < MAX_MAILBOXES) || FounderOf(s.trace, id).None?
  {
    RunTold(rd, calls);
    var s := Run(rd, calls).value;
    if 0 <= id < MAX_MAILBOXES {
      assert BoxTold(s.trace, id, s.boxes[id]);
    }
  }

  // A process with a mailbox gets the oldest message accepted and not yet copied,
  // or is suspended if there is none.
  lemma RetrieveAnswer(rd: Reading, calls: seq<Call>, pid: int)
    requires Run(rd, calls).Some? && pid != -1
    ensures var s := Run(rd, calls).value; var (s', o) := RetrieveStep(s, pid);
            var t := s.trace; var x := MailboxOf(t, pid);
            && (x == -1 <==> o == Ret(-1)) && (x == -1 ==> s' == s)
            && (x != -1 && Backlog(t, x) == [] <==> o == Suspend)
            && (o == Suspend ==> s'.trace == After(t, Waits(x)))
            && (x != -1 && Backlog(t, x) != [] <==> o == Ret(0))
            && (o == Ret(0) ==> s'.trace == After(t, Copied(x, Backlog(t, x)[0])))
  {
    RunTold(rd, calls);
    var s := Run(rd, calls).value;
    FoundIsHeld(rd, s, pid);
    var x := FindBox(s.boxes, pid, 0);
    if x >= 0 {
      QueueIsBacklog(rd, s, x);
    }
  }

  // The sender has an id, and waiting under it for these mailboxes closes no circle.
  ghost predicate Blocks(s: State, pid: int, full: seq<int>)
    requires Shape(s) && forall k :: 0 <= k < |full| ==> -1 <= full[k] < MAX_MAILBOXES
  {
    var l := LocalId(s, pid);
    l != -1 && !OnCycle(Edges(s.waits[l := full]), l)
  }

  // The answer to a deposit and what it leaves behind, from the history
  ghost predicate DepositIs(rd: Reading, s: State, pid: int, data: string, dests: Dests)
    requires Shape(s) && SendersFit(s)
  {
    var (s', o) := DepositStep(rd, s, pid, data, dests);
    var t := s.trace; var e := Stop(t, pid, dests, 0); var full := FullFrom(rd, t, dests, 0, 0, e);
    && (o == Ret(-3) <==> e < 10 && dests[e] > 0 && MailboxOf(t, dests[e]) == -1)
    && (o == Ret(-5) <==> e < 10 && dests[e] > 0 && MailboxOf(t, dests[e]) != -1)
    && (o == Ret(-3) || o == Ret(-5) || full == [] ==> s'.waits == s.waits && o != Suspend && o != Fault)
    && (o.Ret? ==> o.code in {0, -3, -5})
    && (o == Suspend <==> o != Ret(-3) && o != Ret(-5) && full != [] && Blocks(s, pid, full))
    && (o == Suspend ==> 0 <= LocalId(s, pid) < MAX_IDS && s'.waits == s.waits[LocalId(s, pid) := full])
    && (o != Fault ==>
          forall x :: AcceptedIn(s'.trace, x) ==
                      AcceptedIn(t, x) + Copies(Message(data, pid), Taken(rd, t, dests, 0, e, x)))
  }

  // The destinations are gone through up to the first that has no mailbox (-3) or
  // with which the sender is not registered (-5).  Until then each mailbox takes
  // as many of the messages meant for it as it has room for; the sender waits for
  // those found full, unless there was a refusal.
  lemma DepositAnswer(rd: Reading, calls: seq<Call>, pid: int, data: string, dests: Dests)
    requires Run(rd, calls).Some?
    ensures SendersFit(Run(rd, calls).value)
    ensures DepositIs(rd, Run(rd, calls).value, pid, data, dests)
  {
    RunTold(rd, calls);
    DepositTold(rd, Run(rd, calls).value, pid, data, dests);
  }

  // How DepositStep ends, by what going through the list has come to
  lemma DepositEnds(rd: Reading, s: State, pid: int, data: string, dests: Dests)
    requires Shape(s) && SendersFit(s)
    ensures var (s1, full, err) := Send(rd, s, Message(data, pid), dests, 0, []);
            var (s', o) := DepositStep(rd, s, pid, data, dests);
            && s1.waits == s.waits
            && (err.Some? ==> (s', o) == (s1, Ret(err.value)))
            && (err.None? && full == [] ==> (s', o) == (s1, Ret(0)))
            && (err.None? && full != [] ==>
                  && (s', o) == SuspendStep(rd, s1, LocalId(s, pid), full) && (o.Ret? ==> o.code == 0)
                  && (o == Suspend <==> Blocks(s, pid, full))
                  && (o == Suspend ==> 0 <= LocalId(s, pid) < MAX_IDS && s'.waits == s.waits[LocalId(s, pid) := full]))
  {
    SameId(rd, s, Message(data, pid), dests);
  }

  lemma DepositTold(rd: Reading, s: State, pid: int, data: string, dests: Dests)
    requires Inv(rd, s) && Told(s) && SendersFit(s)
    ensures DepositIs(rd, s, pid, data, dests)
  {
    var full := SendTold(rd, s, Message(data, pid), dests, 0, []);
    var (s1, full', err) := Send(rd, s, Message(data, pid), dests, 0, []);
    assert [] + full == full;
    DepositEnds(rd, s, pid, data, dests);
    if err.None? && full' != [] && DepositStep(rd, s, pid, data, dests).1 != Fault {
      SuspendTold(rd, s1, LocalId(s, pid), full');
    }
  }

  lemma SameId(rd: Reading, s: State, msg: Message, dests: Dests)
    requires Shape(s) && SendersFit(s)
    ensures LocalId(Send(rd, s, msg, dests, 0, []).0, msg.senderId) == LocalId(s, msg.senderId)
  {
    SendOwners(rd, s, msg, dests, 0, []);
    FindBoxSame(Send(rd, s, msg, dests, 0, []).0.boxes, s.boxes, msg.senderId, 0);
  }
}
