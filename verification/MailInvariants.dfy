// What every run of the mailbox server keeps, for every reading of the text.
module MailInvariants {
  import opened WaitGraph
  import opened MailSpec
  import opened Options

  // ------------------------------------------------------- reading the trace
  // Each of these looks at one mailbox lifetime: the events since the slot was
  // last created or destroyed.

  function AcceptedIn(t: Trace, slot: int): seq<Message> {
    match t
    case Nothing => []
    case After(past, Created(i, _, _, _, _)) => if i == slot then [] else AcceptedIn(past, slot)
    case After(past, Destroyed(i)) => if i == slot then [] else AcceptedIn(past, slot)
    case After(past, Accepted(i, m)) => if i == slot then AcceptedIn(past, slot) + [m] else AcceptedIn(past, slot)
    case After(past, _) => AcceptedIn(past, slot)
  }

  function CopiedIn(t: Trace, slot: int): seq<Message> {
    match t
    case Nothing => []
    case After(past, Created(i, _, _, _, _)) => if i == slot then [] else CopiedIn(past, slot)
    case After(past, Destroyed(i)) => if i == slot then [] else CopiedIn(past, slot)
    case After(past, Copied(i, m)) => if i == slot then CopiedIn(past, slot) + [m] else CopiedIn(past, slot)
    case After(past, _) => CopiedIn(past, slot)
  }

  // pid passed the permission test of this mailbox when it registered.
  predicate Vetted(t: Trace, slot: int, pid: int, perm: int, ownerUid: int, ownerGid: int) {
    match t
    case Nothing => false
    case After(past, Created(i, _, _, _, _)) => i != slot && Vetted(past, slot, pid, perm, ownerUid, ownerGid)
    case After(past, Destroyed(i)) => i != slot && Vetted(past, slot, pid, perm, ownerUid, ownerGid)
    case After(past, Registered(i, p, u, g)) =>
      || (i == slot && p == pid && Permits(perm, ownerUid, ownerGid, u, g))
      || Vetted(past, slot, pid, perm, ownerUid, ownerGid)
    case After(past, _) => Vetted(past, slot, pid, perm, ownerUid, ownerGid)
  }

  // The receiver has been suspended and nothing has been copied to it since.
  predicate Waiting(t: Trace, slot: int) {
    match t
    case Nothing => false
    case After(past, Created(i, _, _, _, _)) => i != slot && Waiting(past, slot)
    case After(past, Waits(i)) => i == slot || Waiting(past, slot)
    case After(past, Copied(i, _)) => i != slot && Waiting(past, slot)
    case After(past, _) => Waiting(past, slot)
  }

  // The receiver has been suspended at least once in the life of the record.
  predicate EverWaited(t: Trace, slot: int) {
    match t
    case Nothing => false
    case After(past, Created(i, _, _, _, _)) => i != slot && EverWaited(past, slot)
    case After(past, Waits(i)) => i == slot || EverWaited(past, slot)
    case After(past, _) => EverWaited(past, slot)
  }

  // -------------------------------------------------------------- invariants

  // Length of the filled part of a sender table.
  function Filled(senders: seq<int>): (f: nat)
    ensures f <= |senders|
    ensures f < |senders| ==> senders[f] == -1
    ensures forall k :: 0 <= k < f ==> senders[k] != -1
  {
    var k := FindInt(senders, -1, 0);
    if k == -1 then |senders| else k
  }

  lemma FilledIs(senders: seq<int>, f: nat)
    requires f <= |senders|
    requires forall k :: 0 <= k < f ==> senders[k] != -1
    requires f < |senders| ==> senders[f] == -1
    ensures Filled(senders) == f
  {
    var r := FindInt(senders, -1, 0);
    if f < |senders| { assert senders[0..][f] == -1; }
  }

  predicate Live(b: Box, i: int) { b.mbId == i }

  ghost predicate TableInv(b: Box) {
    && |b.senders| == MAX_SENDERS
    && 0 <= b.numSenders <= Filled(b.senders)
    && (forall k :: Filled(b.senders) <= k < MAX_SENDERS ==> b.senders[k] == -1)
    && (forall j, k :: 0 <= j < k < Filled(b.senders) ==> b.senders[j] != b.senders[k])
  }

  ghost predicate LiveInv(t: Trace, i: int, b: Box)
    requires TableInv(b)
  {
    && b.numSenders == Filled(b.senders)
    && (forall k :: 0 <= k < b.numSenders ==> Vetted(t, i, b.senders[k], b.perm, b.ownerUid, b.ownerGid))
    && (forall k :: 0 <= k < |b.queue| ==> b.queue[k].senderId in b.senders[..b.numSenders])
  }

  ghost predicate BoxInv(t: Trace, i: int, b: Box) {
    && TableInv(b)
    && (if Live(b, i) then LiveInv(t, i, b) else b.mbId == -1 && b.ownerPid == -1 && b.queue == [])
    && |b.queue| <= MB_CAPACITY
    && (b.rxSuspended ==> b.queue == [])
    && AcceptedIn(t, i) == CopiedIn(t, i) + b.queue
  }

  // How the suspended flag relates to a receiver that is really waiting.
  ghost predicate FlagInv(rd: Reading, t: Trace, i: int, b: Box) {
    b.rxSuspended == if rd.clearsFlag then Waiting(t, i) else EverWaited(t, i)
  }

  ghost predicate Inv(rd: Reading, s: State) {
    && Shape(s)
    && (forall i :: 0 <= i < MAX_MAILBOXES ==> (s.pool[i] <==> s.boxes[i].Some? && Live(s.boxes[i].value, i)))
    && (forall i :: 0 <= i < MAX_MAILBOXES && s.boxes[i].Some? ==>
          BoxInv(s.trace, i, s.boxes[i].value) && FlagInv(rd, s.trace, i, s.boxes[i].value))
    && Acyclic(Edges(s.waits))
    && (rd.dbInit != -1 ==> forall k :: 0 <= k < MAX_IDS ==> s.senderDB[k] == rd.dbInit)
  }

  lemma {:induction false} InitInv(rd: Reading)
    ensures Inv(rd, Init(rd))
  {
    var e := Edges(Init(rd).waits);
    forall i, k: nat | 0 <= i < |e| && k >= 1
      ensures Hop(e, i, k) != i
    {
      assert e[i] == -1;
      assert Hop(e, i, k) == Hop(e, -1, k - 1);
    }
  }

  // A slot's history is not touched by events of other slots, nor by revivals.
  predicate Elsewhere(ev: Event, slot: int) {
    match ev
    case Revived(_) => true
    case _ => ev.slot != slot
  }

  lemma OtherSlot(rd: Reading, t: Trace, ev: Event, i: int, b: Box)
    requires BoxInv(t, i, b) && FlagInv(rd, t, i, b) && Elsewhere(ev, i)
    ensures BoxInv(After(t, ev), i, b) && FlagInv(rd, After(t, ev), i, b)
  {
    assert Waiting(After(t, ev), i) == Waiting(t, i);
    assert EverWaited(After(t, ev), i) == EverWaited(t, i);
    assert AcceptedIn(After(t, ev), i) == AcceptedIn(t, i);
    assert CopiedIn(After(t, ev), i) == CopiedIn(t, i);
    forall p | Vetted(t, i, p, b.perm, b.ownerUid, b.ownerGid)
      ensures Vetted(After(t, ev), i, p, b.perm, b.ownerUid, b.ownerGid) {}
  }

  lemma OtherSlots(rd: Reading, s: State, ev: Event)
    requires Inv(rd, s)
    ensures forall i :: 0 <= i < MAX_MAILBOXES && s.boxes[i].Some? && Elsewhere(ev, i) ==>
              BoxInv(After(s.trace, ev), i, s.boxes[i].value) && FlagInv(rd, After(s.trace, ev), i, s.boxes[i].value)
  {
    forall i | 0 <= i < MAX_MAILBOXES && s.boxes[i].Some? && Elsewhere(ev, i)
      ensures BoxInv(After(s.trace, ev), i, s.boxes[i].value) && FlagInv(rd, After(s.trace, ev), i, s.boxes[i].value)
    {
      OtherSlot(rd, s.trace, ev, i, s.boxes[i].value);
    }
  }

  // ------------------------------------------------------------ step by step

  lemma CreateKeeps(rd: Reading, s: State, pid: int, uid: int, gid: int, perm: int)
    requires Inv(rd, s)
    ensures Inv(rd, CreateStep(s, pid, uid, gid, perm).0)
  {
    var id := FindClear(s.pool, 0);
    if id != -1 {
      OtherSlots(rd, s, Created(id, pid, uid, gid, perm));
    }
  }

  lemma DestroyKeeps(rd: Reading, s: State, id: int)
    requires Inv(rd, s)
    ensures Inv(rd, DestroyStep(s, id).0)
  {
    if 0 <= id < MAX_MAILBOXES && s.boxes[id].Some? {
      OtherSlots(rd, s, Destroyed(id));
    }
  }

  // Adding a sender fills the first free entry, so the table stays a
  // duplicate-free prefix.
  lemma TableGrows(b: Box, pid: int, k: int)
    requires TableInv(b) && k == SenderSlot(b.senders, pid, 0)
    requires 0 <= k && b.senders[k] != pid
    ensures k == Filled(b.senders) && Filled(b.senders[k := pid]) == k + 1
    ensures TableInv(b.(senders := b.senders[k := pid], numSenders := b.numSenders + 1))
  {
    assert k == Filled(b.senders);
    FilledIs(b.senders[k := pid], k + 1);
  }

  lemma LiveGrows(t: Trace, id: int, b: Box, b': Box, pid: int, uid: int, gid: int, k: int)
    requires TableInv(b) && LiveInv(t, id, b) && TableInv(b')
    requires k == Filled(b.senders) < MAX_SENDERS && Filled(b'.senders) == k + 1
    requires Permits(b.perm, b.ownerUid, b.ownerGid, uid, gid)
    requires b' == b.(senders := b.senders[k := pid], numSenders := b.numSenders + 1)
    ensures LiveInv(After(t, Registered(id, pid, uid, gid)), id, b')
  {
    assert b'.senders[..k + 1] == b.senders[..k] + [pid];
  }

  lemma RegisterKeeps(rd: Reading, s: State, pid: int, uid: int, gid: int, id: int)
    requires Inv(rd, s)
    ensures Inv(rd, RegisterStep(s, pid, uid, gid, id).0)
  {
    if 0 <= id < MAX_MAILBOXES && s.boxes[id].Some? {
      var b := s.boxes[id].value;
      if Permits(b.perm, b.ownerUid, b.ownerGid, uid, gid) {
        AddSenderKeeps(rd, s, pid, uid, gid, id);
        LocalIdKeeps(rd, AddSenderStep(s, id, pid, uid, gid).0, pid);
      }
    }
  }

  lemma LocalIdKeeps(rd: Reading, s: State, pid: int)
    requires Inv(rd, s)
    ensures Inv(rd, WithLocalId(s, pid))
  {
  }

  lemma AddSenderKeeps(rd: Reading, s: State, pid: int, uid: int, gid: int, id: int)
    requires Inv(rd, s) && 0 <= id < MAX_MAILBOXES && s.boxes[id].Some?
    requires var b := s.boxes[id].value; Permits(b.perm, b.ownerUid, b.ownerGid, uid, gid)
    ensures Inv(rd, AddSenderStep(s, id, pid, uid, gid).0)
  {
    var b := s.boxes[id].value;
    var k := SenderSlot(b.senders, pid, 0);
    if k != -1 && b.senders[k] != pid {
      RegisterBox(rd, s.trace, id, b, pid, uid, gid, k);
      var b' := b.(senders := b.senders[k := pid], numSenders := b.numSenders + 1);
      OneBox(rd, s, id, b', Registered(id, pid, uid, gid));
    }
  }

  lemma RegisterBox(rd: Reading, t: Trace, id: int, b: Box, pid: int, uid: int, gid: int, k: int)
    requires BoxInv(t, id, b) && FlagInv(rd, t, id, b)
    requires Permits(b.perm, b.ownerUid, b.ownerGid, uid, gid)
    requires k == SenderSlot(b.senders, pid, 0) && 0 <= k && b.senders[k] != pid
    ensures var b' := b.(senders := b.senders[k := pid], numSenders := b.numSenders + 1);
            var t' := After(t, Registered(id, pid, uid, gid));
            BoxInv(t', id, b') && FlagInv(rd, t', id, b')
  {
    var b' := b.(senders := b.senders[k := pid], numSenders := b.numSenders + 1);
    var ev := Registered(id, pid, uid, gid);
    TableGrows(b, pid, k);
    if Live(b, id) { LiveGrows(t, id, b, b', pid, uid, gid, k); }
    assert AcceptedIn(After(t, ev), id) == AcceptedIn(t, id) && CopiedIn(After(t, ev), id) == CopiedIn(t, id);
    assert Waiting(After(t, ev), id) == Waiting(t, id) && EverWaited(After(t, ev), id) == EverWaited(t, id);
  }

  lemma RetrieveKeeps(rd: Reading, s: State, pid: int)
    requires Inv(rd, s)
    ensures Inv(rd, RetrieveStep(s, pid).0)
  {
    var id := FindBox(s.boxes, pid, 0);
    if id >= 0 {
      var b := s.boxes[id].value;
      var b' := if b.queue == [] then b.(rxSuspended := true) else b.(rxSuspended := false, queue := b.queue[1..]);
      var ev := if b.queue == [] then Waits(id) else Copied(id, b.queue[0]);
      if b.queue == [] { SuspendBox(rd, s.trace, id, b); } else { TakeBox(rd, s.trace, id, b); }
      OneBox(rd, s, id, b', ev);
    }
  }

  lemma SuspendBox(rd: Reading, t: Trace, id: int, b: Box)
    requires BoxInv(t, id, b) && FlagInv(rd, t, id, b) && b.queue == []
    ensures BoxInv(After(t, Waits(id)), id, b.(rxSuspended := true))
    ensures FlagInv(rd, After(t, Waits(id)), id, b.(rxSuspended := true))
  {
    SameBox(t, Waits(id), id, b);
    assert AcceptedIn(After(t, Waits(id)), id) == AcceptedIn(t, id);
    assert CopiedIn(After(t, Waits(id)), id) == CopiedIn(t, id);
  }

  lemma TakeBox(rd: Reading, t: Trace, id: int, b: Box)
    requires BoxInv(t, id, b) && FlagInv(rd, t, id, b) && b.queue != []
    ensures BoxInv(After(t, Copied(id, b.queue[0])), id, b.(rxSuspended := false, queue := b.queue[1..]))
    ensures FlagInv(rd, After(t, Copied(id, b.queue[0])), id, b.(rxSuspended := false, queue := b.queue[1..]))
  {
    var t' := After(t, Copied(id, b.queue[0]));
    var rest := b.queue[1..];
    SameBox(t, Copied(id, b.queue[0]), id, b);
    assert AcceptedIn(t', id) == AcceptedIn(t, id) && CopiedIn(t', id) == CopiedIn(t, id) + [b.queue[0]];
    assert CopiedIn(t, id) + b.queue == CopiedIn(t', id) + rest;
    assert forall k :: 0 <= k < |rest| ==> rest[k] == b.queue[k + 1];
    assert !b.rxSuspended && EverWaited(t', id) == EverWaited(t, id);
  }

  // Vetting is not undone by events that neither create nor destroy the slot.
  lemma SameBox(t: Trace, ev: Event, id: int, b: Box)
    requires !ev.Created? && !ev.Destroyed?
    ensures forall p :: Vetted(t, id, p, b.perm, b.ownerUid, b.ownerGid) ==>
              Vetted(After(t, ev), id, p, b.perm, b.ownerUid, b.ownerGid)
  {
  }

  // An event about one mailbox that keeps that mailbox's invariant keeps them all.
  lemma OneBox(rd: Reading, s: State, id: int, b: Box, ev: Event)
    requires Inv(rd, s) && 0 <= id < MAX_MAILBOXES && s.boxes[id].Some?
    requires !ev.Revived? && ev.slot == id
    requires b.mbId == s.boxes[id].value.mbId
    requires BoxInv(After(s.trace, ev), id, b) && FlagInv(rd, After(s.trace, ev), id, b)
    ensures Inv(rd, Log(PutBox(s, id, b), ev))
  {
    OtherSlots(rd, s, ev);
  }

  lemma PutMsgKeeps(rd: Reading, s: State, id: int, msg: Message)
    requires Inv(rd, s) && 0 <= id < MAX_MAILBOXES && s.boxes[id].Some?
    requires ValidSender(s.boxes[id].value, msg.senderId) == 1
    ensures Inv(rd, PutMsg(rd, s, id, msg).0)
  {
    var b := s.boxes[id].value;
    if |b.queue| < MB_CAPACITY {
      var t1 := After(s.trace, Accepted(id, msg));
      if b.rxSuspended {
        HandOffBox(rd, s.trace, id, b, msg);
        OtherSlots(rd, s, Accepted(id, msg));
        forall i | 0 <= i < MAX_MAILBOXES && s.boxes[i].Some? && i != id
          ensures BoxInv(After(t1, Copied(id, msg)), i, s.boxes[i].value)
          ensures FlagInv(rd, After(t1, Copied(id, msg)), i, s.boxes[i].value)
        {
          OtherSlot(rd, t1, Copied(id, msg), i, s.boxes[i].value);
        }
      } else {
        QueueBox(rd, s.trace, id, b, msg);
        OneBox(rd, s, id, b.(queue := b.queue + [msg]), Accepted(id, msg));
      }
    }
  }

  lemma HandOffBox(rd: Reading, t: Trace, id: int, b: Box, msg: Message)
    requires BoxInv(t, id, b) && FlagInv(rd, t, id, b) && b.rxSuspended
    ensures var t' := After(After(t, Accepted(id, msg)), Copied(id, msg)); var b' := b.(rxSuspended := !rd.clearsFlag);
            BoxInv(t', id, b') && FlagInv(rd, t', id, b')
  {
    var t1 := After(t, Accepted(id, msg));
    var t2 := After(t1, Copied(id, msg));
    SameBox(t, Accepted(id, msg), id, b);
    SameBox(t1, Copied(id, msg), id, b);
    assert AcceptedIn(t2, id) == AcceptedIn(t1, id) == AcceptedIn(t, id) + [msg];
    assert CopiedIn(t1, id) == CopiedIn(t, id) == CopiedIn(t, id) + b.queue;
    assert CopiedIn(t2, id) == CopiedIn(t1, id) + [msg];
    assert CopiedIn(t2, id) == CopiedIn(t2, id) + b.queue;
    assert EverWaited(t2, id) == EverWaited(t1, id) == EverWaited(t, id);
    assert !Waiting(t2, id);
  }

  lemma QueueBox(rd: Reading, t: Trace, id: int, b: Box, msg: Message)
    requires BoxInv(t, id, b) && FlagInv(rd, t, id, b) && !b.rxSuspended && |b.queue| < MB_CAPACITY
    requires ValidSender(b, msg.senderId) == 1
    ensures var t' := After(t, Accepted(id, msg)); var b' := b.(queue := b.queue + [msg]);
            BoxInv(t', id, b') && FlagInv(rd, t', id, b')
  {
    var t1 := After(t, Accepted(id, msg));
    SameBox(t, Accepted(id, msg), id, b);
    assert CopiedIn(t1, id) == CopiedIn(t, id);
    assert CopiedIn(t, id) + (b.queue + [msg]) == (CopiedIn(t, id) + b.queue) + [msg];
  }

  // ----------------------------------------------------------------- deposits

  lemma SendOneKeeps(rd: Reading, s: State, msg: Message, dest: int)
    requires Inv(rd, s) && SendersFit(s) && dest > 0
    ensures Inv(rd, SendOne(rd, s, msg, dest).0)
    ensures SendOne(rd, s, msg, dest).1 != -4
  {
    var id := FindBox(s.boxes, dest, 0);
    if id >= 0 && ValidSender(s.boxes[id].value, msg.senderId) == 1 {
      PutMsgKeeps(rd, s, id, msg);
    }
  }

  lemma SendEnds(rd: Reading, s: State, msg: Message, dests: Dests, i: nat, full: seq<int>)
    requires Shape(s) && SendersFit(s) && i <= 10 && (i == 10 || dests[i] <= 0)
    requires forall k :: 0 <= k < |full| ==> 0 <= full[k] < MAX_MAILBOXES
    ensures Send(rd, s, msg, dests, i, full) == (s, full, None)
  {
  }

  // Send, unfolded once.
  lemma {:induction false} SendNext(rd: Reading, s: State, msg: Message, dests: Dests, i: nat, full: seq<int>)
    requires Shape(s) && SendersFit(s) && i < 10 && dests[i] > 0
    requires forall k :: 0 <= k < |full| ==> 0 <= full[k] < MAX_MAILBOXES
    ensures var (s', code, id) := SendOne(rd, s, msg, dests[i]);
            Send(rd, s, msg, dests, i, full) == if code < -1 then (s', full, Some(code))
              else Send(rd, s', msg, dests, i + 1, if code == -1 then full + [id] else full)
  {
  }

  lemma {:induction false} SendKeeps(rd: Reading, s: State, msg: Message, dests: Dests, i: nat, full: seq<int>)
    requires Inv(rd, s) && SendersFit(s) && i <= 10
    requires forall k :: 0 <= k < |full| ==> 0 <= full[k] < MAX_MAILBOXES
    ensures Inv(rd, Send(rd, s, msg, dests, i, full).0)
    ensures Send(rd, s, msg, dests, i, full).2 != Some(-4)
    decreases 10 - i
  {
    if i < 10 && dests[i] > 0 {
      SendOneKeeps(rd, s, msg, dests[i]);
      SendNext(rd, s, msg, dests, i, full);
      var (s', code, id) := SendOne(rd, s, msg, dests[i]);
      if code >= -1 {
        SendKeeps(rd, s', msg, dests, i + 1, if code == -1 then full + [id] else full);
      }
    }
  }

  lemma {:induction false} RevivalsKeep(rd: Reading, s: State, ids: seq<int>)
    requires Inv(rd, s)
    ensures Inv(rd, s.(trace := LogRevived(s.trace, ids)))
    decreases |ids|
  {
    if ids != [] {
      var s' := s.(trace := LogRevived(s.trace, ids[..|ids| - 1]));
      RevivalsKeep(rd, s, ids[..|ids| - 1]);
      OtherSlots(rd, s', Revived(ids[|ids| - 1]));
    }
  }

  lemma WakingShape(s: State, ids: seq<int>)
    requires Shape(s)
    ensures Shape(AfterWaking(s, ids)) && (SendersFit(s) ==> SendersFit(AfterWaking(s, ids)))
  {
    var w := WakeAll(s.waits, ids);
    forall i, k | 0 <= i < MAX_IDS && 0 <= k < |w[i]|
      ensures -1 <= w[i][k] < MAX_MAILBOXES
    {
      assert w[i] == if i in ids && s.waits[i] != [] then s.waits[i][0 := -1] else s.waits[i];
    }
  }

  // Whatever the deadlock check finds, no circle of waiting processes is left.
  lemma {:induction false} SuspendAcyclic(rd: Reading, s: State, l: int, full: seq<int>)
    requires Shape(s) && Acyclic(Edges(s.waits)) && full != [] && 0 <= l < MAX_IDS
    requires forall k :: 0 <= k < |full| ==> 0 <= full[k] < MAX_MAILBOXES
    ensures IsGraph(Edges(s.waits[l := full])) && OnlyThrough(Edges(s.waits[l := full]), l)
    ensures SuspendStep(rd, s, l, full).1 != Fault ==> Acyclic(Edges(SuspendStep(rd, s, l, full).0.waits))
  {
    var w := s.waits[l := full];
    var e, e0 := Edges(w), Edges(s.waits);
    SubgraphAcyclic(e0, e[l := -1]);
    NewEdge(e, l);
    if OnCycle(e, l) && Woken(rd.oneAdvance, e, l).Some? {
      var ids := Woken(rd.oneAdvance, e, l).value;
      WokenOnce(rd.oneAdvance, e, l);
      assert ids[0] in ids;
      WakingBreaks(e, l, ids);
      assert Edges(WakeAll(w, ids)) == Cleared(e, ids);
    }
  }

  lemma {:induction false} SuspendKeeps(rd: Reading, s: State, l: int, full: seq<int>)
    requires Inv(rd, s) && full != []
    requires forall k :: 0 <= k < |full| ==> 0 <= full[k] < MAX_MAILBOXES
    ensures SuspendStep(rd, s, l, full).1 != Fault ==> Inv(rd, SuspendStep(rd, s, l, full).0)
  {
    if 0 <= l < MAX_IDS {
      var e := Edges(s.waits[l := full]);
      SuspendAcyclic(rd, s, l, full);
      if OnCycle(e, l) && Woken(rd.oneAdvance, e, l).Some? {
        RevivalsKeep(rd, s, Woken(rd.oneAdvance, e, l).value);
      }
    }
  }

  lemma {:induction false} DepositKeeps(rd: Reading, s: State, pid: int, data: string, dests: Dests)
    requires Inv(rd, s) && SendersFit(s)
    ensures DepositStep(rd, s, pid, data, dests).1 != Fault ==> Inv(rd, DepositStep(rd, s, pid, data, dests).0)
    ensures DepositStep(rd, s, pid, data, dests).1 != Ret(-4)
  {
    SendKeeps(rd, s, Message(data, pid), dests, 0, []);
    var (s', full, err) := Send(rd, s, Message(data, pid), dests, 0, []);
    if err.None? && full != [] {
      SuspendKeeps(rd, s', LocalId(s', pid), full);
    }
  }

  lemma {:induction false} StepKeeps(rd: Reading, s: State, c: Call)
    requires Inv(rd, s)
    ensures SendersFit(s)
    ensures Step(rd, s, c).1 != Fault ==> Inv(rd, Step(rd, s, c).0)
  {
    match c
    case Create(pid, uid, gid, perm) => CreateKeeps(rd, s, pid, uid, gid, perm);
    case Destroy(id) => DestroyKeeps(rd, s, id);
    case Register(pid, uid, gid, id) => RegisterKeeps(rd, s, pid, uid, gid, id);
    case Deposit(pid, data, dests) => DepositKeeps(rd, s, pid, data, dests);
    case Retrieve(pid) => RetrieveKeeps(rd, s, pid);
  }

  // --------------------------------------------------------------- whole runs

  // The state after a sequence of calls; None once a call has faulted.
  ghost function Run(rd: Reading, calls: seq<Call>): (r: Option<State>)
    ensures r.Some? ==> Inv(rd, r.value)
    decreases |calls|
  {
    if calls == [] then InitInv(rd); Some(Init(rd))
    else match Run(rd, calls[..|calls| - 1])
      case None => None
      case Some(s) =>
        StepKeeps(rd, s, calls[|calls| - 1]);
        var (s', o) := Step(rd, s, calls[|calls| - 1]);
        if o == Fault then None else Some(s')
  }

  // After any run, local ids cannot be found waiting for each other in a circle.
  // What that means for processes is in module MailProcesses.
  lemma NoCircularWait(rd: Reading, calls: seq<Call>, c: seq<int>)
    requires Run(rd, calls).Some? && |c| >= 1
    requires forall k :: 0 <= k < |c| ==> 0 <= c[k] < MAX_IDS
    ensures var w := Run(rd, calls).value.waits;
            exists k :: 0 <= k < |c| && (w[c[k]] == [] || w[c[k]][0] != c[if k + 1 < |c| then k + 1 else 0])
  {
    var w := Run(rd, calls).value.waits;
    NoCircle(Edges(w), c);
    var k :| 0 <= k < |c| && Edges(w)[c[k]] != c[if k + 1 < |c| then k + 1 else 0];
    assert w[c[k]] == [] || w[c[k]][0] != c[if k + 1 < |c| then k + 1 else 0];
  }

  // First in, first out, nothing lost or invented: in each mailbox lifetime the
  // messages copied to the receiver, then those still queued, are the messages
  // accepted, in order.  Each queued message comes from a registered sender who
  // passed the permission test.
  lemma FifoAndVetted(rd: Reading, calls: seq<Call>, i: int)
    requires Run(rd, calls).Some? && 0 <= i < MAX_MAILBOXES && Run(rd, calls).value.boxes[i].Some?
    ensures var s := Run(rd, calls).value; var b := s.boxes[i].value;
            && AcceptedIn(s.trace, i) == CopiedIn(s.trace, i) + b.queue
            && |b.queue| <= MB_CAPACITY
            && (s.pool[i] ==> forall k :: 0 <= k < |b.queue| ==>
                  Vetted(s.trace, i, b.queue[k].senderId, b.perm, b.ownerUid, b.ownerGid))
  {
    var s := Run(rd, calls).value; var b := s.boxes[i].value;
    assert BoxInv(s.trace, i, b);
    if s.pool[i] {
      forall k | 0 <= k < |b.queue|
        ensures Vetted(s.trace, i, b.queue[k].senderId, b.perm, b.ownerUid, b.ownerGid)
      {
        assert b.queue[k].senderId in b.senders[..b.numSenders];
      }
    }
  }

  // A direct hand-off wakes a receiver that is really waiting: always when the
  // flag is cleared, and in the text exactly while nothing has been copied to
  // the receiver since it was last suspended.  Once a receiver has waited, the
  // text never queues a message for it again.
  lemma HandOffReaches(rd: Reading, calls: seq<Call>, i: int)
    requires Run(rd, calls).Some? && 0 <= i < MAX_MAILBOXES && Run(rd, calls).value.boxes[i].Some?
    ensures var s := Run(rd, calls).value; var b := s.boxes[i].value;
            && (rd.clearsFlag ==> (b.rxSuspended <==> Waiting(s.trace, i)))
            && (!rd.clearsFlag ==> (b.rxSuspended <==> EverWaited(s.trace, i)))
            && (!rd.clearsFlag && EverWaited(s.trace, i) ==> b.queue == [])
            && (b.rxSuspended ==> forall m ::
                  PutMsg(rd, s, i, m).0.trace == After(After(s.trace, Accepted(i, m)), Copied(i, m)))
  {
    var s := Run(rd, calls).value;
    assert BoxInv(s.trace, i, s.boxes[i].value) && FlagInv(rd, s.trace, i, s.boxes[i].value);
  }

  // An accepted message is queued or reaches a waiting receiver, unless the flag
  // is left up: in the text it is then lost exactly when the receiver has waited
  // before and is not waiting now.
  lemma LostIff(rd: Reading, calls: seq<Call>, i: int, m: Message)
    requires Run(rd, calls).Some? && 0 <= i < MAX_MAILBOXES && Run(rd, calls).value.boxes[i].Some?
    requires PutMsg(rd, Run(rd, calls).value, i, m).1 == 0
    ensures var s := Run(rd, calls).value; var s' := PutMsg(rd, s, i, m).0;
            s'.boxes[i].Some? &&
            (s'.boxes[i].value.queue != s.boxes[i].value.queue + [m] && !Waiting(s.trace, i)
             <==> !rd.clearsFlag && EverWaited(s.trace, i) && !Waiting(s.trace, i))
  {
    var s := Run(rd, calls).value;
    assert BoxInv(s.trace, i, s.boxes[i].value) && FlagInv(rd, s.trace, i, s.boxes[i].value);
    assert s.boxes[i].value.queue != s.boxes[i].value.queue + [m];
  }
}
