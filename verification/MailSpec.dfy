// The mailbox server as a transition system on values.
//
// A State is what the server's globals hold; Step is one system call.  The
// class in MailServer.dfy updates the same globals in place and is proved to
// follow Step; MailInvariants.dfy proves what every run of Step keeps.
module MailSpec {
  import opened WaitGraph
  import opened Options

  const MAX_SENDERS := 10
  const MAX_MAILBOXES := 10
  const MAX_IDS := 100
  const MB_CAPACITY := 10

  datatype Message = Message(data: string, senderId: int)

  // A mailbox record.  `queue` is the linked list read from front to rear.
  datatype Box = Box(
    mbId: int, ownerPid: int, ownerUid: int, ownerGid: int, perm: int,
    senders: seq<int>, numSenders: int, rxSuspended: bool, queue: seq<Message>)

  // What the server does to the outside world, oldest first.
  datatype Event =
    | Created(slot: int, pid: int, uid: int, gid: int, perm: int)
    | Destroyed(slot: int)
    | Registered(slot: int, pid: int, uid: int, gid: int)
    | Accepted(slot: int, msg: Message)   // putMsg took the message
    | Copied(slot: int, msg: Message)     // the message was copied to the receiver
    | Waits(slot: int)                    // the receiver was suspended
    | Revived(id: int)                    // a blocked sender was told of a deadlock

  datatype Trace = Nothing | After(past: Trace, last: Event)

  datatype State = State(
    pool: seq<bool>,            // mb_id_pool, bit by bit
    boxes: seq<Option<Box>>,    // mbList
    waits: seq<seq<int>>,       // susContext[i]->suspened_for; [] for a null context
    senderDB: seq<int>,
    trace: Trace)

  // Three places where the text departs from its evident intent.  What follows
  // is proved for all readings, except where AS_WRITTEN, the text, is named.
  //   clearsFlag: a hand-off clears rx_suspended (the text compares instead)
  //   oneAdvance: the deadlock notice advances its cursor once per wake-up
  //   dbInit:     initial contents of senderDB (free slots are sought as -1)
  datatype Reading = Reading(clearsFlag: bool, oneAdvance: bool, dbInit: int)

  const AS_WRITTEN := Reading(false, false, 0)

  type Dests = d: seq<int> | |d| == 10 witness seq(10, _ => 0)

  datatype Call =
    | Create(pid: int, uid: int, gid: int, perm: int)
    | Destroy(id: int)
    | Register(pid: int, uid: int, gid: int, id: int)
    | Deposit(pid: int, data: string, dests: Dests)
    | Retrieve(pid: int)

  // Fault: the call reads outside the server's tables; nothing is said after it.
  datatype Outcome = Ret(code: int) | Suspend | Fault

  function Init(rd: Reading): State {
    State(seq(MAX_MAILBOXES, _ => false), seq(MAX_MAILBOXES, _ => None), seq(MAX_IDS, _ => []),
          seq(MAX_IDS, _ => rd.dbInit), Nothing)
  }

  predicate Shape(s: State) {
    && |s.pool| == MAX_MAILBOXES && |s.boxes| == MAX_MAILBOXES
    && |s.waits| == MAX_IDS && |s.senderDB| == MAX_IDS
    && (forall i :: 0 <= i < MAX_MAILBOXES && s.boxes[i].Some? ==> |s.boxes[i].value.senders| == MAX_SENDERS)
    && (forall i, k :: 0 <= i < MAX_IDS && 0 <= k < |s.waits[i]| ==> -1 <= s.waits[i][k] < MAX_MAILBOXES)
  }

  // ------------------------------------------------------------------ look-ups

  // Empty slots never match.
  predicate Owns(b: Option<Box>, pid: int) { b.Some? && b.value.ownerPid == pid }

  function FindBox(boxes: seq<Option<Box>>, pid: int, i: nat): (r: int)
    requires i <= |boxes|
    ensures -1 <= r < |boxes|
    ensures r == -1 ==> forall k :: i <= k < |boxes| ==> !Owns(boxes[k], pid)
    ensures r >= 0 ==> i <= r && Owns(boxes[r], pid) && forall k :: i <= k < r ==> !Owns(boxes[k], pid)
    decreases |boxes| - i
  {
    if i == |boxes| then -1
    else if Owns(boxes[i], pid) then i
    else FindBox(boxes, pid, i + 1)
  }

  function FindInt(s: seq<int>, x: int, i: nat): (r: int)
    requires i <= |s|
    ensures -1 <= r < |s|
    ensures r == -1 ==> x !in s[i..]
    ensures r >= 0 ==> i <= r && s[r] == x && x !in s[i..r]
    decreases |s| - i
  {
    if i == |s| then -1
    else if s[i] == x then i
    else FindInt(s, x, i + 1)
  }

  function FindClear(pool: seq<bool>, i: nat): (r: int)
    requires i <= |pool|
    ensures -1 <= r < |pool|
    ensures r == -1 ==> forall k :: i <= k < |pool| ==> pool[k]
    ensures r >= 0 ==> i <= r && !pool[r] && forall k :: i <= k < r ==> pool[k]
    decreases |pool| - i
  {
    if i == |pool| then -1
    else if !pool[i] then i
    else FindClear(pool, i + 1)
  }

  // The local id under which a sender blocks.
  function LocalId(s: State, pid: int): (r: int)
    requires Shape(s)
    ensures -1 <= r < MAX_IDS
  {
    var b := FindBox(s.boxes, pid, 0);
    if b != -1 then b else FindInt(s.senderDB, pid, 0)
  }

  // A registering sender without a mailbox is given a free sender slot.
  function WithLocalId(s: State, pid: int): State
    requires Shape(s)
  {
    if FindBox(s.boxes, pid, 0) != -1 then s
    else
      var k := FindInt(s.senderDB, -1, MAX_MAILBOXES);
      if k == -1 then s else s.(senderDB := s.senderDB[k := pid])
  }

  // Bit 0 lets everyone in, bit 1 the owner's group, bit 2 the owner.
  predicate Permits(perm: int, ownerUid: int, ownerGid: int, uid: int, gid: int) {
    || perm % 2 == 1
    || ((perm / 2) % 2 == 1 && ownerGid == gid)
    || ((perm / 4) % 2 == 1 && ownerUid == uid)
  }

  // -1: the box has been destroyed; 1: registered; 0: not registered.
  function ValidSender(b: Box, pid: int): int
    requires b.numSenders <= |b.senders|
  {
    if b.ownerPid == -1 then -1
    else if b.numSenders > 0 && pid in b.senders[..b.numSenders] then 1 else 0
  }

  // ---------------------------------------------------------------- system calls

  function Log(s: State, ev: Event): State { s.(trace := After(s.trace, ev)) }

  function PutBox(s: State, id: int, b: Box): State
    requires Shape(s) && 0 <= id < MAX_MAILBOXES
  {
    s.(boxes := s.boxes[id := Some(b)])
  }

  function CreateStep(s: State, pid: int, uid: int, gid: int, perm: int): (State, Outcome)
    requires Shape(s)
  {
    var id := FindClear(s.pool, 0);
    if id == -1 then (s, Ret(-1))
    else
      var b := Box(id, pid, uid, gid, perm, seq(MAX_SENDERS, _ => -1), 0, false, []);
      (Log(PutBox(s, id, b).(pool := s.pool[id := true]), Created(id, pid, uid, gid, perm)), Ret(id))
  }

  function DestroyStep(s: State, id: int): (State, Outcome)
    requires Shape(s)
  {
    if id < 0 then (s, Fault)
    else if id >= MAX_MAILBOXES || s.boxes[id].None? then (s, Ret(0))
    else
      var b := s.boxes[id].value.(ownerPid := -1, mbId := -1, numSenders := 0, queue := []);
      var s' := Log(PutBox(s, id, b), Destroyed(id));
      (s'.(pool := s'.pool[id := false]), Ret(if s'.pool[id] then 0 else -1))
  }

  // First of: the sender itself, or a free entry; -1 when the table is full.
  function SenderSlot(senders: seq<int>, pid: int, i: nat): (r: int)
    requires i <= |senders|
    ensures -1 <= r < |senders|
    ensures r == -1 ==> forall k :: i <= k < |senders| ==> senders[k] != pid && senders[k] != -1
    ensures r >= 0 ==> i <= r && (senders[r] == pid || senders[r] == -1)
    ensures r >= 0 ==> forall k :: i <= k < r ==> senders[k] != pid && senders[k] != -1
    decreases |senders| - i
  {
    if i == |senders| then -1
    else if senders[i] == pid || senders[i] == -1 then i
    else SenderSlot(senders, pid, i + 1)
  }

  // Second result: 0 entered, -2 already there, -1 no room.
  function AddSenderStep(s: State, id: int, pid: int, uid: int, gid: int): (State, int)
    requires Shape(s) && 0 <= id < MAX_MAILBOXES && s.boxes[id].Some?
  {
    var b := s.boxes[id].value;
    var k := SenderSlot(b.senders, pid, 0);
    if k == -1 then (s, -1)
    else if b.senders[k] == pid then (s, -2)
    else
      var b' := b.(senders := b.senders[k := pid], numSenders := b.numSenders + 1);
      (Log(PutBox(s, id, b'), Registered(id, pid, uid, gid)), 0)
  }

  function RegisterStep(s: State, pid: int, uid: int, gid: int, id: int): (State, Outcome)
    requires Shape(s)
  {
    if !(0 <= id < MAX_MAILBOXES) || s.boxes[id].None? then (s, Fault)
    else
      var b := s.boxes[id].value;
      if !Permits(b.perm, b.ownerUid, b.ownerGid, uid, gid) then (s, Ret(-1))
      else
        var (s', code) := AddSenderStep(s, id, pid, uid, gid);
        (if code == 0 then WithLocalId(s', pid) else s', Ret(code))
  }

  // An empty mailbox suspends its receiver.
  function TakeStep(s: State, id: int): (State, Outcome)
    requires Shape(s) && 0 <= id < MAX_MAILBOXES && s.boxes[id].Some?
  {
    var b := s.boxes[id].value;
    if b.queue == [] then (Log(PutBox(s, id, b.(rxSuspended := true)), Waits(id)), Suspend)
    else (Log(PutBox(s, id, b.(rxSuspended := false, queue := b.queue[1..])), Copied(id, b.queue[0])), Ret(0))
  }

  function RetrieveStep(s: State, pid: int): (State, Outcome)
    requires Shape(s)
  {
    var id := FindBox(s.boxes, pid, 0);
    if id < 0 then (s, Ret(-1)) else TakeStep(s, id)
  }

  // putMsg on the record itself; -1 when the mailbox is full.
  function PutInBox(rd: Reading, b: Box, msg: Message): (Box, int) {
    if |b.queue| >= MB_CAPACITY then (b, -1)
    else if b.rxSuspended then (b.(rxSuspended := !rd.clearsFlag), 0)
    else (b.(queue := b.queue + [msg]), 0)
  }

  // A suspended receiver is handed the message directly.
  function PutMsg(rd: Reading, s: State, id: int, msg: Message): (State, int)
    requires Shape(s) && 0 <= id < MAX_MAILBOXES && s.boxes[id].Some?
  {
    var b := s.boxes[id].value;
    var (b', code) := PutInBox(rd, b, msg);
    if code == -1 then (s, -1)
    else
      var s' := Log(PutBox(s, id, b'), Accepted(id, msg));
      (if b.rxSuspended then Log(s', Copied(id, msg)) else s', 0)
  }

  // One destination: the code, and the mailbox it was resolved to.
  // 0 delivered, -1 full, -3 no mailbox, -4 destroyed, -5 not registered
  function SendOne(rd: Reading, s: State, msg: Message, dest: int): (r: (State, int, int))
    requires Shape(s) && SendersFit(s)
    ensures Shape(r.0) && SendersFit(r.0) && r.0.waits == s.waits && r.0.senderDB == s.senderDB
    ensures r.1 in {0, -1} ==> 0 <= r.2 < MAX_MAILBOXES
  {
    var id := FindBox(s.boxes, dest, 0);
    if id < 0 then (s, -3, id)
    else
      var v := ValidSender(s.boxes[id].value, msg.senderId);
      if v == -1 then (s, -4, id)
      else if v == 0 then (s, -5, id)
      else
        var (s', code) := PutMsg(rd, s, id, msg);
        (s', code, id)
  }

  // The destination loop from position i on: the new state, the mailboxes found
  // full, and the error code if the loop returned early.
  function Send(rd: Reading, s: State, msg: Message, dests: Dests, i: nat, full: seq<int>)
    : (r: (State, seq<int>, Option<int>))
    requires Shape(s) && SendersFit(s) && i <= 10
    requires forall k :: 0 <= k < |full| ==> 0 <= full[k] < MAX_MAILBOXES
    ensures Shape(r.0) && r.0.waits == s.waits && r.0.senderDB == s.senderDB
    ensures forall k :: 0 <= k < |r.1| ==> 0 <= r.1[k] < MAX_MAILBOXES
    decreases 10 - i
  {
    if i == 10 || dests[i] <= 0 then (s, full, None)
    else
      var (s', code, id) := SendOne(rd, s, msg, dests[i]);
      if code < -1 then (s', full, Some(code))
      else Send(rd, s', msg, dests, i + 1, if code == -1 then full + [id] else full)
  }

  predicate SendersFit(s: State)
    requires Shape(s)
  {
    forall i :: 0 <= i < MAX_MAILBOXES && s.boxes[i].Some? ==> s.boxes[i].value.numSenders <= MAX_SENDERS
  }

  // The wait-for relation: first awaited mailbox of each local id.
  ghost function Edges(waits: seq<seq<int>>): (e: seq<int>)
    ensures |e| == |waits|
    ensures forall i :: 0 <= i < |e| ==> e[i] == if waits[i] == [] then -1 else waits[i][0]
  {
    seq(|waits|, i requires 0 <= i < |waits| => if waits[i] == [] then -1 else waits[i][0])
  }

  // The contexts of the woken processes forget what they waited for.
  ghost function WakeAll(waits: seq<seq<int>>, ids: seq<int>): (r: seq<seq<int>>)
    ensures |r| == |waits|
    ensures forall i :: 0 <= i < |r| ==> r[i] == if i in ids && waits[i] != [] then waits[i][0 := -1] else waits[i]
  {
    seq(|waits|, i requires 0 <= i < |waits| =>
      if i in ids && waits[i] != [] then waits[i][0 := -1] else waits[i])
  }

  function LogRevived(t: Trace, ids: seq<int>): Trace
    decreases |ids|
  {
    if ids == [] then t else After(LogRevived(t, ids[..|ids| - 1]), Revived(ids[|ids| - 1]))
  }

  ghost function AfterWaking(s: State, ids: seq<int>): State {
    s.(waits := WakeAll(s.waits, ids), trace := LogRevived(s.trace, ids))
  }

  // Suspending the sender with local id l on the mailboxes `full`: deadlock is
  // looked for with the new edge in place, and broken at once when found.
  ghost function SuspendStep(rd: Reading, s: State, l: int, full: seq<int>): (State, Outcome)
    requires Shape(s) && full != []
    requires forall k :: 0 <= k < |full| ==> 0 <= full[k] < MAX_MAILBOXES
  {
    if !(0 <= l < MAX_IDS) then (s, Fault)
    else
      var w := s.waits[l := full];
      var e := Edges(w);
      if !OnCycle(e, l) then (s.(waits := w), Suspend)
      else match Woken(rd.oneAdvance, e, l)
        case None => (s.(waits := w), Fault)
        case Some(ids) => (AfterWaking(s.(waits := w), ids), Ret(0))
  }

  ghost function DepositStep(rd: Reading, s: State, pid: int, data: string, dests: Dests): (State, Outcome)
    requires Shape(s) && SendersFit(s)
  {
    var (s', full, err) := Send(rd, s, Message(data, pid), dests, 0, []);
    if err.Some? then (s', Ret(err.value))
    else if full == [] then (s', Ret(0))
    else SuspendStep(rd, s', LocalId(s', pid), full)
  }

  ghost function Step(rd: Reading, s: State, c: Call): (State, Outcome)
    requires Shape(s) && SendersFit(s)
  {
    match c
    case Create(pid, uid, gid, perm) => CreateStep(s, pid, uid, gid, perm)
    case Destroy(id) => DestroyStep(s, id)
    case Register(pid, uid, gid, id) => RegisterStep(s, pid, uid, gid, id)
    case Deposit(pid, data, dests) => DepositStep(rd, s, pid, data, dests)
    case Retrieve(pid) => RetrieveStep(s, pid)
  }
}
