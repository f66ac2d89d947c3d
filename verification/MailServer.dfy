// The mailbox server: its globals updated in place, one method a system call.
module MailServers {
  import opened WaitGraph
  import opened MailSpec
  import opened MailInvariants
  import opened MailBoxes
  import Arithmetic
  import opened Options

  // ------------------------------------------------------------- the id bitmask

  function SetBit(p: nat, i: nat): nat {         // p | (1 << i)
    if i == 0 then p - p % 2 + 1 else 2 * SetBit(p / 2, i - 1) + p % 2
  }

  function FlipBit(p: nat, i: nat): nat {        // p ^ (1 << i)
    if i == 0 then p + 1 - 2 * (p % 2) else 2 * FlipBit(p / 2, i - 1) + p % 2
  }

  lemma BitOps(p: nat, i: nat, j: nat)
    ensures Arithmetic.Bit(SetBit(p, i), j) == (i == j || Arithmetic.Bit(p, j))
    ensures Arithmetic.Bit(FlipBit(p, i), j) == ((i == j) != Arithmetic.Bit(p, j))
  {
    SetOp(p, i, j);
    FlipOp(p, i, j);
  }

  lemma {:induction false} SetOp(p: nat, i: nat, j: nat)
    ensures Arithmetic.Bit(SetBit(p, i), j) == (i == j || Arithmetic.Bit(p, j))
    decreases i
  {
    if i > 0 && j > 0 { SetOp(p / 2, i - 1, j - 1); }
  }

  lemma {:induction false} FlipOp(p: nat, i: nat, j: nat)
    ensures Arithmetic.Bit(FlipBit(p, i), j) == ((i == j) != Arithmetic.Bit(p, j))
    decreases i
  {
    if i > 0 && j > 0 { FlipOp(p / 2, i - 1, j - 1); }
  }

  // One blocked sender: the mailboxes that were full, first one first.
  class SuspendContext {
    var msg: Message
    var suspendedFor: seq<int>

    constructor (msg: Message, suspendedFor: seq<int>)
      ensures this.suspendedFor == suspendedFor
    {
      this.msg, this.suspendedFor := msg, suspendedFor;
    }
  }

  class MailServer {
    const rd: Reading
    var idPool: nat
    const mbList: array<MailBox?>
    const susContext: array<SuspendContext?>
    const senderDB: array<int>

    ghost var st: State
    ghost var Own: set<object>    // this object, its tables and its contexts
    ghost var Repr: set<object>

    // The invariant of the object: the globals hold the state st, and no local
    // ids wait in a circle.
    ghost predicate Valid()
      reads this, Repr
      ensures Valid() ==> Linked(-1)
    {
      Linked(-1) && Acyclic(Edges(st.waits))
    }

    // The globals hold the state st, except perhaps for the contents of one
    // mailbox record.
    ghost predicate Linked(except: int)
      reads this, Repr
      ensures Linked(except) ==> this in Repr && Shape(st) && SendersFit(st)
    {
      && Base()
      && PoolLinked()
      && ContextsHold(st.waits)
      && senderDB[..] == st.senderDB
      && BoxesHold(st.boxes, except)
    }

    // The records hold the values in `boxes`, and share nothing.
    ghost predicate BoxesHold(boxes: seq<Option<Box>>, except: int)
      reads this`Repr, this`Own, mbList, Repr - Own
    {
      && mbList.Length == MAX_MAILBOXES == |boxes|
      && (forall i :: 0 <= i < MAX_MAILBOXES && mbList[i] != null ==>
            mbList[i] in Repr - Own && mbList[i] in mbList[i].Repr && mbList[i].Repr !! Own)
      && (forall i :: 0 <= i < MAX_MAILBOXES && mbList[i] != null && i != except ==> mbList[i].Repr <= Repr)
      && (forall i, j :: 0 <= i < j < MAX_MAILBOXES && mbList[i] != null && mbList[j] != null ==>
            mbList[i].Repr !! mbList[j].Repr)
      && (forall i :: 0 <= i < MAX_MAILBOXES && i != except ==> (mbList[i] == null <==> boxes[i].None?))
      && (forall i :: 0 <= i < MAX_MAILBOXES && i != except && mbList[i] != null ==>
            mbList[i].Valid() && mbList[i].Value() == boxes[i].value)
    }

    ghost predicate Base()
      reads this
    {
      && Own <= Repr && this in Own && mbList in Own && susContext in Own && senderDB in Own
      && mbList.Length == MAX_MAILBOXES && susContext.Length == MAX_IDS && senderDB.Length == MAX_IDS
      && Shape(st) && SendersFit(st)
    }

    ghost predicate PoolLinked()
      reads this
      requires Base()
    {
      forall i :: 0 <= i < MAX_MAILBOXES ==> st.pool[i] == Arithmetic.Bit(idPool, i)
    }

    // The contexts hold the wait lists w.
    ghost predicate ContextsHold(w: seq<seq<int>>)
      reads this, Own
    {
      && susContext in Own && susContext.Length == MAX_IDS && |w| == MAX_IDS
      && (forall i :: 0 <= i < MAX_IDS ==> (susContext[i] == null <==> w[i] == []))
      && (forall i :: 0 <= i < MAX_IDS && susContext[i] != null ==>
            susContext[i] in Contexts() && susContext[i].suspendedFor == w[i])
      && (forall i, j :: 0 <= i < j < MAX_IDS && susContext[i] != null ==> susContext[i] != susContext[j])
    }

    // The wait contexts alone.
    ghost function Contexts(): set<object>
      reads this
    {
      Own - {this, mbList, susContext, senderDB}
    }

    // Between two states, only mailbox id's own record changed.
    twostate lemma BoxTouched(id: int)
      requires old(Linked(-1)) && 0 <= id < MAX_MAILBOXES && old(mbList[id]) != null
      requires unchanged(old(Own))
      requires forall o :: o in old(Repr) && o !in old(mbList[id].Repr) ==> unchanged(o)
      requires mbList[id].Valid() && fresh(mbList[id].Repr - old(mbList[id].Repr))
      ensures Linked(id)
    {
    }

    // Between two states, slot id was given a new record.
    twostate lemma SlotReplaced(id: int)
      requires old(Linked(-1)) && 0 <= id < MAX_MAILBOXES
      requires mbList[..] == old(mbList[..])[id := mbList[id]]
      requires mbList[id] != null && mbList[id].Valid() && mbList[id].Repr !! old(Repr)
      requires unchanged(this`idPool, this`st, this`Own)
      requires Repr == old(Repr) + {mbList[id]}
      requires forall o :: o in old(Repr) && o != this && o != mbList ==> unchanged(o)
      ensures Linked(id)
    {
      OthersHold(id);
    }

    twostate lemma OthersHold(id: int)
      requires old(Linked(-1)) && 0 <= id < MAX_MAILBOXES
      requires mbList[..] == old(mbList[..])[id := mbList[id]]
      requires mbList[id] != null && mbList[id].Valid() && mbList[id].Repr !! old(Repr)
      requires unchanged(this`st, this`Own)
      requires Repr == old(Repr) + {mbList[id]}
      requires forall o :: o in old(Repr) && o != this && o != mbList ==> unchanged(o)
      ensures BoxesHold(st.boxes, id)
    {
      forall k | 0 <= k < MAX_MAILBOXES && k != id
        ensures mbList[k] == old(mbList[k]) && (mbList[k] != null ==> unchanged(mbList[k]))
      {
        assert mbList[k] == mbList[..][k] == old(mbList[..])[k];
      }
    }

    // Between two states, only contexts changed.
    twostate lemma ContextsTouched()
      requires old(Linked(-1)) && Shape(st) && ContextsHold(st.waits)
      requires unchanged(mbList) && unchanged(senderDB) && idPool == old(idPool)
      requires old(Own) <= Own && fresh(Own - old(Own)) && Repr == old(Repr) + Own
      requires forall o :: o in old(Repr) && o !in old(Own) ==> unchanged(o)
      requires st == old(st).(waits := st.waits, trace := st.trace)
      ensures Linked(-1)
    {
    }

    // Records in st what has just been done to mailbox id.
    ghost method Commit(id: int, ev: Event)
      requires Linked(id) && 0 <= id < MAX_MAILBOXES && mbList[id] != null && mbList[id].Valid()
      modifies this`st, this`Repr
      ensures Linked(-1) && st == Log(PutBox(old(st), id, mbList[id].Value()), ev)
      ensures Repr == old(Repr) + mbList[id].Repr
    {
      st := Log(PutBox(st, id, mbList[id].Value()), ev);
      Repr := Repr + mbList[id].Repr;
    }

    constructor (rd: Reading)
      ensures Valid() && fresh(Repr) && st == Init(rd) && this.rd == rd
    {
      this.rd := rd;
      idPool := 0;
      mbList := new MailBox?[MAX_MAILBOXES](_ => null);
      susContext := new SuspendContext?[MAX_IDS](_ => null);
      senderDB := new int[MAX_IDS](_ => rd.dbInit);
      st := Init(rd);
      new;
      Own := {this, mbList, susContext, senderDB};
      Repr := Own;
      InitInv(rd);
      forall i: nat ensures !Arithmetic.Bit(0, i) { ZeroBits(i); }
    }

    static lemma ZeroBits(i: nat)
      ensures !Arithmetic.Bit(0, i)
    {
    }

    // get_mb_id; an empty slot is passed over
    method FindMailBox(pid: int) returns (id: int)
      requires Linked(-1)
      ensures id == FindBox(st.boxes, pid, 0)
    {
      for i := 0 to MAX_MAILBOXES
        invariant FindBox(st.boxes, pid, 0) == FindBox(st.boxes, pid, i)
      {
        if mbList[i] != null && mbList[i].ownerPid == pid {
          return i;
        }
      }
      return -1;
    }

    // get_sender_local_id
    method FindLocalId(pid: int) returns (id: int)
      requires Linked(-1)
      ensures id == LocalId(st, pid)
    {
      id := FindMailBox(pid);
      if id == -1 {
        for i := 0 to MAX_IDS
          invariant id == -1
          invariant FindInt(st.senderDB, pid, 0) == FindInt(st.senderDB, pid, i)
        {
          if senderDB[i] == pid {
            return i;
          }
        }
      }
    }

    // set_sender_local_id
    method SetLocalId(pid: int)
      requires Linked(-1)
      modifies this`st, senderDB
      ensures Linked(-1) && st == WithLocalId(old(st), pid)
    {
      var id := FindMailBox(pid);
      if id == -1 {
        for i := MAX_MAILBOXES to MAX_IDS
          invariant FindInt(st.senderDB, -1, MAX_MAILBOXES) == FindInt(st.senderDB, -1, i)
          invariant Linked(-1) && st == old(st)
        {
          if senderDB[i] == -1 {
            senderDB[i] := pid;
            st := st.(senderDB := st.senderDB[i := pid]);
            return;
          }
        }
      }
    }

    // get_free_id
    method TakeFreeId() returns (id: int)
      requires Linked(-1)
      modifies this`idPool, this`st
      ensures id == FindClear(old(st.pool), 0)
      ensures Linked(-1) && st == if id == -1 then old(st) else old(st).(pool := old(st.pool)[id := true])
    {
      for i := 0 to MAX_MAILBOXES
        invariant FindClear(st.pool, 0) == FindClear(st.pool, i)
        invariant Linked(-1) && st == old(st)
      {
        if !Arithmetic.Bit(idPool, i) {
          forall j | 0 <= j < MAX_MAILBOXES
            ensures Arithmetic.Bit(SetBit(idPool, i), j) == (i == j || Arithmetic.Bit(idPool, j))
          {
            BitOps(idPool, i, j);
          }
          idPool := SetBit(idPool, i);
          st := st.(pool := st.pool[i := true]);
          return i;
        }
      }
      return -1;
    }

    static function NewOf(id: int, b: Box): Event { Created(id, b.ownerPid, b.ownerUid, b.ownerGid, b.perm) }

    // A new record replaces whatever the slot held.
    method Install(id: int, mb: MailBox)
      requires Linked(-1) && 0 <= id < MAX_MAILBOXES
      requires mb.Valid() && mb.Repr !! Repr
      modifies mbList, this`st, this`Repr
      ensures Linked(-1) && Repr == old(Repr + mb.Repr)
      ensures st == Log(PutBox(old(st), id, old(mb.Value())), NewOf(id, old(mb.Value())))
    {
      Place(id, mb);
      Commit(id, NewOf(id, mb.Value()));
    }

    method Place(id: int, mb: MailBox)
      requires Linked(-1) && 0 <= id < MAX_MAILBOXES
      requires mb.Valid() && mb.Repr !! Repr
      modifies mbList, this`Repr
      ensures Linked(id) && Repr == old(Repr) + {mb} && mbList[id] == mb && st == old(st)
    {
      label Before:
      mbList[id] := mb;
      Repr := Repr + {mb};
      SlotReplaced@Before(id);
    }

    // do_create_mailbox.  A record that finds no slot is lost.  The text enters
    // the slot number last; nothing reads it in between.
    method CreateMailBox(pid: int, uid: int, gid: int, perm: int) returns (r: Outcome)
      requires Valid()
      modifies Repr
      ensures Valid() && fresh(Repr - old(Repr))
      ensures (st, r) == CreateStep(old(st), pid, uid, gid, perm)
    {
      var mb := new MailBox(pid, uid, gid, perm);
      var id := TakeFreeId();
      if id >= 0 {
        mb.SetId(id);
        Install(id, mb);
      }
      return Ret(id);
    }

    // do_destroy_mailbox; a negative id reads before the table.
    method DestroyMailBox(id: int) returns (r: Outcome)
      requires Valid()
      modifies Repr
      ensures Valid() && fresh(Repr - old(Repr))
      ensures (st, r) == DestroyStep(old(st), id)
    {
      if id < 0 {
        r := Fault;
      } else if id < MAX_MAILBOXES && mbList[id] != null {
        mbList[id].Reset();
        BoxTouched(id);
        Commit(id, Destroyed(id));
        var code := DropId(id);
        r := Ret(code);
      } else {
        r := Ret(0);
      }
    }

    // set_free_id
    method DropId(id: int) returns (code: int)
      requires Linked(-1) && 0 <= id < MAX_MAILBOXES
      modifies this`idPool, this`st
      ensures Linked(-1)
      ensures st == old(st).(pool := old(st).pool[id := false])
      ensures code == if old(st).pool[id] then 0 else -1
    {
      if !Arithmetic.Bit(idPool, id) {
        assert st.pool == st.pool[id := false];
        return -1;
      }
      forall j | 0 <= j < MAX_MAILBOXES
        ensures Arithmetic.Bit(FlipBit(idPool, id), j) == ((id == j) != Arithmetic.Bit(idPool, j))
      {
        BitOps(idPool, id, j);
      }
      idPool := FlipBit(idPool, id);
      st := st.(pool := st.pool[id := false]);
      return 0;
    }

    // do_register_mb
    method RegisterSender(pid: int, uid: int, gid: int, id: int) returns (r: Outcome)
      requires Valid()
      modifies Repr
      ensures Valid() && fresh(Repr - old(Repr))
      ensures (st, r) == RegisterStep(old(st), pid, uid, gid, id)
    {
      if !(0 <= id < MAX_MAILBOXES) || mbList[id] == null {
        r := Fault;
      } else if Permits(mbList[id].perm, mbList[id].ownerUid, mbList[id].ownerGid, uid, gid) {
        var code := AddSenderTo(id, pid, uid, gid);
        if code == 0 {
          SetLocalId(pid);
        }
        r := Ret(code);
      } else {
        r := Ret(-1);
      }
    }

    method AddSenderTo(id: int, pid: int, uid: int, gid: int) returns (code: int)
      requires Linked(-1) && 0 <= id < MAX_MAILBOXES && mbList[id] != null
      modifies Repr
      ensures Linked(-1) && Repr == old(Repr)
      ensures (st, code) == AddSenderStep(old(st), id, pid, uid, gid)
    {
      code := mbList[id].AddSender(pid);
      BoxTouched(id);
      if code == 0 {
        Commit(id, Registered(id, pid, uid, gid));
      }
    }

    // do_retrieve
    method RetrieveMessage(pid: int) returns (r: Outcome, msg: Message)
      requires Valid()
      modifies Repr
      ensures Valid() && fresh(Repr - old(Repr))
      ensures (st, r) == RetrieveStep(old(st), pid)
      ensures r == Ret(0) ==> st.trace == After(old(st.trace), Copied(FindBox(old(st.boxes), pid, 0), msg))
    {
      var id := FindMailBox(pid);
      if id < 0 {
        r, msg := Ret(-1), Message("", 0);
      } else {
        r, msg := TakeFrom(id);
      }
    }

    method TakeFrom(id: int) returns (r: Outcome, msg: Message)
      requires Linked(-1) && 0 <= id < MAX_MAILBOXES && mbList[id] != null
      modifies Repr
      ensures Linked(-1) && Repr == old(Repr)
      ensures (st, r) == TakeStep(old(st), id)
      ensures r == Ret(0) ==> st.trace == After(old(st.trace), Copied(id, msg))
    {
      var code;
      code, msg := mbList[id].Get();
      mbList[id].SetSuspended(code < 0);
      BoxTouched(id);
      if code < 0 {
        Commit(id, Waits(id));
        r := Suspend;
      } else {
        Commit(id, Copied(id, msg));
        r := Ret(0);
      }
    }

    // ------------------------------------------------------------- do_deposit

    static ghost function Below(n: nat): (r: set<int>)
      ensures forall i :: i in r <==> 0 <= i < n
    {
      if n == 0 then {} else Below(n - 1) + {n - 1}
    }

    // Does the chain of awaited mailboxes from l come back to l?  It cannot run
    // for ever, since every cycle there may be passes through l.
    method CheckDeadLock(l: int) returns (dead: bool)
      requires Linked(-1) && 0 <= l < MAX_IDS
      requires IsGraph(Edges(st.waits)) && OnlyThrough(Edges(st.waits), l)
      ensures dead == OnCycle(Edges(st.waits), l)
    {
      var cursor := l;
      ghost var e := Edges(st.waits);
      ghost var ids := Below(MAX_IDS);
      ghost var seen: set<int> := {};
      ghost var k: nat := 0;
      while susContext[cursor] != null
        invariant 0 <= cursor < MAX_IDS && cursor == Hop(e, l, k)
        invariant forall j: nat {:trigger Hop(e, l, j)} :: 1 <= j <= k ==> Hop(e, l, j) != l
        invariant forall x :: x in seen ==> x in ids && Passes(e, l, k, x)
        decreases ids - seen
      {
        HopNext(e, l, k);
        var next := susContext[cursor].suspendedFor[0];
        if next == l {
          return true;
        }
        if next == -1 {
          ChainEnds(e, l, k + 1);
          return false;
        }
        forall j: nat | j < k ensures Hop(e, l, j) != cursor { ChainFresh(e, l, j, k); }
        assert cursor !in seen;
        seen := seen + {cursor};
        cursor := next;
        k := k + 1;
      }
      HopNext(e, l, k);
      ChainEnds(e, l, k + 1);
      return false;
    }

    method WakeOne(id: int, ghost w: seq<seq<int>>)
      requires ContextsHold(w) && 0 <= id < MAX_IDS && susContext[id] != null
      modifies susContext[id]
      ensures ContextsHold(w[id := w[id][0 := -1]])
    {
      susContext[id].suspendedFor := susContext[id].suspendedFor[0 := -1];
    }

    // Tells blocked processes on l's cycle of the deadlock.  The text advances
    // its cursor twice after a wake-up (lines 139 and 147); false means that it
    // went on to context -1.
    method IndicateDeadLock(l: int) returns (ok: bool)
      requires Linked(-1) && 0 <= l < MAX_IDS
      requires IsGraph(Edges(st.waits)) && OnCycle(Edges(st.waits), l)
      modifies Contexts(), this`st
      ensures ok == Woken(rd.oneAdvance, Edges(old(st.waits)), l).Some?
      ensures ok ==> Linked(-1) && st == AfterWaking(old(st), Woken(rd.oneAdvance, Edges(old(st.waits)), l).value)
    {
      ghost var w := st.waits;
      NoticeIsWoken(rd.oneAdvance, w, l);
      ok := WakeAndRecord(l, CycleLen(Edges(w), l) + 2, ExpectedEnd(rd.oneAdvance, w, l));
    }

    method WakeAndRecord(l: int, ghost fuel: nat, ghost end: NoticeEnd) returns (ok: bool)
      requires Linked(-1) && 0 <= l < MAX_IDS && GoodLists(st.waits)
      requires Notice(rd.oneAdvance, st.waits, l, l, [], fuel) == end != Stuck
      requires end.Done? ==> end.waits == WakeAll(st.waits, end.woken)
      modifies Contexts(), this`st
      ensures ok == end.Done?
      ensures ok ==> Linked(-1) && st == AfterWaking(old(st), end.woken)
    {
      ghost var woken, waits;
      ok, woken, waits := WakeCycle(l, st.waits, fuel, end);
      if ok {
        WakingShape(st, woken);
        st := AfterWaking(st, woken);
        ContextsTouched();
      }
    }

    method WakeCycle(l: int, ghost w: seq<seq<int>>, ghost fuel0: nat, ghost end: NoticeEnd)
      returns (ok: bool, ghost woken: seq<int>, ghost waits: seq<seq<int>>)
      requires ContextsHold(w) && 0 <= l < MAX_IDS && GoodLists(w)
      requires Notice(rd.oneAdvance, w, l, l, [], fuel0) == end != Stuck
      modifies Contexts()
      ensures end == if ok then Done(woken, waits) else RanOver
      ensures ok ==> ContextsHold(waits)
    {
      ghost var fuel := fuel0;
      var cursor := l;
      woken, waits := [], w;
      while susContext[cursor] != null
        invariant 0 <= cursor < MAX_IDS && ContextsHold(waits) && GoodLists(waits)
        invariant Notice(rd.oneAdvance, waits, l, cursor, woken, fuel) == end
        decreases fuel
      {
        var next := susContext[cursor].suspendedFor[0];
        if next == l {
          WakeOne(cursor, waits);
          return true, woken + [cursor], waits[cursor := waits[cursor][0 := -1]];
        } else if cursor != l {
          WakeOne(cursor, waits);
          woken, waits := woken + [cursor], waits[cursor := waits[cursor][0 := -1]];
          if !rd.oneAdvance {
            if next < 0 {
              return false, woken, waits;
            }
            next := susContext[next].suspendedFor[0];
          }
        }
        cursor := next;
        fuel := fuel - 1;
      }
      return false, [], [];
    }

    // Record what the sender l waits for, in its context if it has one.
    method SetContext(l: int, msg: Message, full: seq<int>)
      requires Linked(-1) && 0 <= l < MAX_IDS && full != []
      requires forall k :: 0 <= k < |full| ==> 0 <= full[k] < MAX_MAILBOXES
      modifies Own
      ensures Linked(-1) && fresh(Repr - old(Repr)) && fresh(Own - old(Own))
      ensures st == old(st).(waits := old(st).waits[l := full])
    {
      if susContext[l] == null {
        var context := new SuspendContext(msg, full);
        Own, Repr := Own + {context}, Repr + {context};
        susContext[l] := context;
      } else {
        susContext[l].msg, susContext[l].suspendedFor := msg, full;
      }
      st := st.(waits := st.waits[l := full]);
      ContextsTouched();
    }

    // The end of do_deposit: block the sender, or break the deadlock.
    method BlockSender(l: int, msg: Message, full: seq<int>) returns (r: Outcome)
      requires Valid() && full != [] && -1 <= l < MAX_IDS
      requires forall k :: 0 <= k < |full| ==> 0 <= full[k] < MAX_MAILBOXES
      modifies Own
      ensures fresh(Repr - old(Repr))
      ensures r == Fault <==> SuspendStep(rd, old(st), l, full).1 == Fault
      ensures r != Fault ==> Valid() && (st, r) == SuspendStep(rd, old(st), l, full)
    {
      if l == -1 {
        return Fault;
      }
      SuspendAcyclic(rd, st, l, full);
      SetContext(l, msg, full);
      var dead := CheckDeadLock(l);
      if !dead {
        return Suspend;
      }
      var ok := IndicateDeadLock(l);
      return if ok then Ret(0) else Fault;
    }

    // putMsg on mailbox id
    method PutInto(id: int, msg: Message) returns (code: int)
      requires Linked(-1) && 0 <= id < MAX_MAILBOXES && mbList[id] != null
      modifies Repr
      ensures Linked(-1) && fresh(Repr - old(Repr))
      ensures (st, code) == PutMsg(rd, old(st), id, msg)
    {
      ghost var was := mbList[id].Value();
      code := mbList[id].Put(rd, msg);
      BoxTouched(id);
      CommitPut(id, was, msg, code);
    }

    ghost method CommitPut(id: int, was: Box, msg: Message, code: int)
      requires Linked(id) && 0 <= id < MAX_MAILBOXES && mbList[id] != null && mbList[id].Valid()
      requires st.boxes[id] == Some(was) && (mbList[id].Value(), code) == PutInBox(rd, was, msg)
      modifies this`st, this`Repr
      ensures Linked(-1) && Repr == old(Repr) + mbList[id].Repr
      ensures (st, code) == PutMsg(rd, old(st), id, msg)
    {
      if code == -1 {
        Keep(id);
      } else {
        Commit(id, Accepted(id, msg));
        if was.rxSuspended {
          Note(Copied(id, msg));
        }
      }
    }

    // Mailbox id holds what it held.
    ghost method Keep(id: int)
      requires Linked(id) && 0 <= id < MAX_MAILBOXES && mbList[id] != null && mbList[id].Valid()
      requires st.boxes[id] == Some(mbList[id].Value())
      modifies this`Repr
      ensures Linked(-1) && Repr == old(Repr) + mbList[id].Repr
    {
      Repr := Repr + mbList[id].Repr;
    }

    ghost method Note(ev: Event)
      requires Linked(-1)
      modifies this`st
      ensures Linked(-1) && st == Log(old(st), ev)
    {
      st := Log(st, ev);
    }

    // One turn of the destination loop of do_deposit
    method SendTo(msg: Message, dest: int) returns (code: int, id: int)
      requires Linked(-1)
      modifies Repr
      ensures Linked(-1) && fresh(Repr - old(Repr))
      ensures (st, code, id) == SendOne(rd, old(st), msg, dest)
    {
      id := FindMailBox(dest);
      if id < 0 {
        code := -3;
      } else {
        var valid := mbList[id].CheckSender(msg.senderId);
        if valid == 1 {
          code := PutInto(id, msg);
        } else {
          code := if valid == -1 then -4 else -5;
        }
      }
    }

    method SendAll(msg: Message, dests: Dests) returns (full: seq<int>, err: Option<int>)
      requires Linked(-1)
      modifies Repr
      ensures Linked(-1) && fresh(Repr - old(Repr))
      ensures (st, full, err) == Send(rd, old(st), msg, dests, 0, [])
    {
      full, err := [], None;
      ghost var goal := Send(rd, st, msg, dests, 0, []);
      var i := 0;
      while i < 10 && dests[i] > 0 && err == None
        invariant 0 <= i <= 10 && Linked(-1) && fresh(Repr - old(Repr))
        invariant LeadsTo(rd, st, msg, dests, i, full, err, goal)
      {
        full, err := SendTurn(msg, dests, i, full, goal);
        i := i + 1;
      }
      if err == None {
        SendEnds(rd, st, msg, dests, i, full);
      }
    }

    method SendTurn(msg: Message, dests: Dests, i: nat, full: seq<int>, ghost goal: (State, seq<int>, Option<int>))
      returns (full': seq<int>, err: Option<int>)
      requires Linked(-1) && i < 10 && dests[i] > 0 && LeadsTo(rd, st, msg, dests, i, full, None, goal)
      modifies Repr
      ensures Linked(-1) && fresh(Repr - old(Repr)) && LeadsTo(rd, st, msg, dests, i + 1, full', err, goal)
    {
      SendNext(rd, st, msg, dests, i, full);
      var code, id := SendTo(msg, dests[i]);
      full' := if code == -1 then full + [id] else full;
      err := if code < -1 then Some(code) else None;
    }

    // do_deposit
    method DepositMessage(pid: int, data: string, dests: Dests) returns (r: Outcome)
      requires Valid()
      modifies Repr
      ensures fresh(Repr - old(Repr))
      ensures r == Fault <==> DepositStep(rd, old(st), pid, data, dests).1 == Fault
      ensures r != Fault ==> Valid() && (st, r) == DepositStep(rd, old(st), pid, data, dests)
    {
      var msg := Message(data, pid);
      var full, err := SendAll(msg, dests);
      if err.Some? {
        return Ret(err.value);
      }
      if full == [] {
        return Ret(0);
      }
      var l := FindLocalId(pid);
      r := BlockSender(l, msg, full);
    }

    // The call table: every system call is a step of the transition system.
    method Handle(c: Call) returns (r: Outcome)
      requires Valid()
      modifies Repr
      ensures fresh(Repr - old(Repr))
      ensures r == Fault <==> Step(rd, old(st), c).1 == Fault
      ensures r != Fault ==> Valid() && (st, r) == Step(rd, old(st), c)
    {
      match c
      case Create(pid, uid, gid, perm) => r := CreateMailBox(pid, uid, gid, perm);
      case Destroy(id) => r := DestroyMailBox(id);
      case Register(pid, uid, gid, id) => r := RegisterSender(pid, uid, gid, id);
      case Deposit(pid, data, dests) => r := DepositMessage(pid, data, dests);
      case Retrieve(pid) => var msg; r, msg := RetrieveMessage(pid);
    }
  }

  // The destination loop, having come to position i, will end with goal.
  ghost predicate LeadsTo(rd: Reading, s: State, msg: Message, dests: Dests, i: nat, full: seq<int>, err: Option<int>,
      goal: (State, seq<int>, Option<int>))
  {
    && Shape(s) && SendersFit(s) && i <= 10 && (forall k :: 0 <= k < |full| ==> 0 <= full[k] < MAX_MAILBOXES)
    && goal == if err == None then Send(rd, s, msg, dests, i, full) else (s, full, err)
  }

  // ------------------------------------------------ the notice, on wait lists

  datatype NoticeEnd = Done(woken: seq<int>, waits: seq<seq<int>>) | RanOver | Stuck

  ghost predicate GoodLists(w: seq<seq<int>>) {
    forall i :: 0 <= i < |w| && w[i] != [] ==> -1 <= w[i][0] < |w|
  }

  // The loop of indicate_deadlock from cursor c on, as the text writes it.
  // RanOver: it reads context -1.  Stuck does not happen on a cycle.
  ghost function Notice(oneAdvance: bool, w: seq<seq<int>>, l: int, c: int, woken: seq<int>, fuel: nat): NoticeEnd
    requires GoodLists(w) && 0 <= l < |w| && 0 <= c < |w|
    decreases fuel
  {
    if fuel == 0 || w[c] == [] then Stuck
    else
      var next := w[c][0];
      var w' := w[c := w[c][0 := -1]];
      if next == l then Done(woken + [c], w')
      else if c == l then (if next < 0 then Stuck else Notice(oneAdvance, w, l, next, woken, fuel - 1))
      else if oneAdvance then (if next < 0 then Stuck else Notice(oneAdvance, w', l, next, woken + [c], fuel - 1))
      else if next < 0 then RanOver
      else if w'[next] == [] || w'[next][0] < 0 then Stuck
      else Notice(oneAdvance, w', l, w'[next][0], woken + [c], fuel - 1)
  }

  ghost function ExpectedEnd(oneAdvance: bool, w: seq<seq<int>>, l: int): NoticeEnd
    requires 0 <= l < |w| && IsGraph(Edges(w)) && OnCycle(Edges(w), l)
  {
    match Woken(oneAdvance, Edges(w), l)
    case None => RanOver
    case Some(ids) => Done(ids, WakeAll(w, ids))
  }

  // The loop ends as the closed form Woken says.
  lemma {:induction false} NoticeIsWoken(oneAdvance: bool, w: seq<seq<int>>, l: int)
    requires 0 <= l < |w| && IsGraph(Edges(w)) && OnCycle(Edges(w), l)
    ensures GoodLists(w)
    ensures Notice(oneAdvance, w, l, l, [], CycleLen(Edges(w), l) + 2) == ExpectedEnd(oneAdvance, w, l)
  {
    ListsGood(w);
    assert WakeAll(w, Visited(oneAdvance, Edges(w), l, 0)) == w;
    assert Visited(oneAdvance, Edges(w), l, 0) == [];
    assert Hop(Edges(w), l, 0) == l;
    NoticeFrom(oneAdvance, w, l, 0, 0, CycleLen(Edges(w), l) + 2);
    assert NoticeAt(oneAdvance, w, l, 0, 0, CycleLen(Edges(w), l) + 2) ==
          Notice(oneAdvance, w, l, l, [], CycleLen(Edges(w), l) + 2);
  }

  lemma ListsGood(w: seq<seq<int>>)
    ensures IsGraph(Edges(w)) <==> GoodLists(w)
  {
    assert forall i :: 0 <= i < |w| ==> Edges(w)[i] == if w[i] == [] then -1 else w[i][0];
  }

  // The notice after k hops and m wake-ups.
  ghost function NoticeAt(oneAdvance: bool, w: seq<seq<int>>, l: int, k: nat, m: nat, fuel: nat): NoticeEnd
    requires 0 <= l < |w| && IsGraph(Edges(w)) && OnCycle(Edges(w), l)
  {
    var ids := Visited(oneAdvance, Edges(w), l, m);
    CycleNodes(Edges(w), l, k);
    EdgesAfter(w, ids);
    ListsGood(WakeAll(w, ids));
    Notice(oneAdvance, WakeAll(w, ids), l, Hop(Edges(w), l, k), ids, fuel)
  }

  lemma {:induction false} NoticeFrom(oneAdvance: bool, w: seq<seq<int>>, l: int, k: nat, m: nat, fuel: nat)
    requires 0 <= l < |w| && IsGraph(Edges(w)) && OnCycle(Edges(w), l)
    requires Phase(oneAdvance, CycleLen(Edges(w), l), k, m) && fuel + k >= CycleLen(Edges(w), l) + 2
    ensures NoticeAt(oneAdvance, w, l, k, m, fuel) == ExpectedEnd(oneAdvance, w, l)
    decreases fuel
  {
    if Stops(oneAdvance, w, l, k, m) {
      NoticeStops(oneAdvance, w, l, k, m, fuel);
    } else {
      var k', m' := NoticeMoves(oneAdvance, w, l, k, m, fuel);
      NoticeFrom(oneAdvance, w, l, k', m', fuel - 1);
    }
  }

  // What the cursor's context says after k hops and m wake-ups.
  ghost function NextOf(oneAdvance: bool, w: seq<seq<int>>, l: int, k: nat, m: nat): int
    requires 0 <= l < |w| && IsGraph(Edges(w)) && OnCycle(Edges(w), l)
  {
    CycleNodes(Edges(w), l, k);
    Cleared(Edges(w), Visited(oneAdvance, Edges(w), l, m))[Hop(Edges(w), l, k)]
  }

  // The notice ends at the cursor's context.
  ghost predicate Stops(oneAdvance: bool, w: seq<seq<int>>, l: int, k: nat, m: nat)
    requires 0 <= l < |w| && IsGraph(Edges(w)) && OnCycle(Edges(w), l)
  {
    NextOf(oneAdvance, w, l, k, m) == l || (Hop(Edges(w), l, k) != l && NextOf(oneAdvance, w, l, k, m) < 0)
  }

  // One turn takes the notice on to k' hops and m' wake-ups.
  ghost predicate Moves(
      oneAdvance: bool, w: seq<seq<int>>, l: int, k: nat, m: nat, fuel: nat, k': nat, m': nat)
    requires 0 <= l < |w| && IsGraph(Edges(w)) && OnCycle(Edges(w), l) && fuel > 0
  {
    && k' > k && Phase(oneAdvance, CycleLen(Edges(w), l), k', m')
    && NoticeAt(oneAdvance, w, l, k, m, fuel) == NoticeAt(oneAdvance, w, l, k', m', fuel - 1)
  }

  lemma {:induction false} NoticeMoves(oneAdvance: bool, w: seq<seq<int>>, l: int, k: nat, m: nat, fuel: nat)
      returns (k': nat, m': nat)
    requires 0 <= l < |w| && IsGraph(Edges(w)) && OnCycle(Edges(w), l) && fuel > 0
    requires Phase(oneAdvance, CycleLen(Edges(w), l), k, m) && !Stops(oneAdvance, w, l, k, m)
    ensures Moves(oneAdvance, w, l, k, m, fuel, k', m')
  {
    if Hop(Edges(w), l, k) == l {
      NoticePasses(oneAdvance, w, l, k, m, fuel);
      k', m' := k + 1, m;
    } else {
      NoticeWakes(oneAdvance, w, l, k, m, fuel);
      k', m' := if oneAdvance then k + 1 else k + 2, m + 1;
    }
  }

  lemma {:induction false} NoticeStops(oneAdvance: bool, w: seq<seq<int>>, l: int, k: nat, m: nat, fuel: nat)
    requires 0 <= l < |w| && IsGraph(Edges(w)) && OnCycle(Edges(w), l) && fuel > 0
    requires Phase(oneAdvance, CycleLen(Edges(w), l), k, m) && Stops(oneAdvance, w, l, k, m)
    ensures NoticeAt(oneAdvance, w, l, k, m, fuel) == ExpectedEnd(oneAdvance, w, l)
  {
    NoticeTurn(oneAdvance, Edges(w), l, k, m);
    var w2 := Turned(oneAdvance, w, l, k, m);
    var e := Edges(w); var ids := Visited(oneAdvance, e, l, m);
    NoticeOnce(oneAdvance, WakeAll(w, ids), w2, l, Hop(e, l, k), ids, fuel);
  }

  // A turn that passes the caller
  lemma {:induction false} NoticePasses(oneAdvance: bool, w: seq<seq<int>>, l: int, k: nat, m: nat, fuel: nat)
    requires 0 <= l < |w| && IsGraph(Edges(w)) && OnCycle(Edges(w), l) && fuel > 0
    requires Phase(oneAdvance, CycleLen(Edges(w), l), k, m)
    requires Hop(Edges(w), l, k) == l && NextOf(oneAdvance, w, l, k, m) != l
    ensures Moves(oneAdvance, w, l, k, m, fuel, k + 1, m)
  {
    NoticeTurn(oneAdvance, Edges(w), l, k, m);
    var w2 := Turned(oneAdvance, w, l, k, m);
    var ids := Visited(oneAdvance, Edges(w), l, m);
    NoticeOnce(oneAdvance, WakeAll(w, ids), w2, l, l, ids, fuel);
  }

  // A turn that wakes a process and goes on
  lemma {:induction false} NoticeWakes(oneAdvance: bool, w: seq<seq<int>>, l: int, k: nat, m: nat, fuel: nat)
    requires 0 <= l < |w| && IsGraph(Edges(w)) && OnCycle(Edges(w), l) && fuel > 0
    requires Phase(oneAdvance, CycleLen(Edges(w), l), k, m)
    requires Hop(Edges(w), l, k) != l && NextOf(oneAdvance, w, l, k, m) != l && NextOf(oneAdvance, w, l, k, m) >= 0
    ensures Moves(oneAdvance, w, l, k, m, fuel, if oneAdvance then k + 1 else k + 2, m + 1)
  {
    NoticeTurn(oneAdvance, Edges(w), l, k, m);
    var e := Edges(w); var ids := Visited(oneAdvance, e, l, m); var c := Hop(e, l, k);
    var w2 := Turned(oneAdvance, w, l, k, m);
    NoticeOnce(oneAdvance, WakeAll(w, ids), w2, l, c, ids, fuel);
    assert w2 == WakeAll(w, Visited(oneAdvance, e, l, m + 1));
    if !oneAdvance {
      CycleNodes(e, l, k + 1);
      CycleNodes(e, l, k + 2);
    }
  }

  // The wait lists once the process at hop k has been woken too.
  lemma {:induction false} Turned(oneAdvance: bool, w: seq<seq<int>>, l: int, k: nat, m: nat)
    returns (w2: seq<seq<int>>)
    requires 0 <= l < |w| && IsGraph(Edges(w)) && OnCycle(Edges(w), l)
    ensures 0 <= Hop(Edges(w), l, k)
    ensures var e := Edges(w); var ids := Visited(oneAdvance, e, l, m);
            var c := Hop(e, l, k); var w1 := WakeAll(w, ids);
            && GoodLists(w1) && GoodLists(w2) && w1[c] != [] && w1[c][0] == Cleared(e, ids)[c]
            && w2 == w1[c := w1[c][0 := -1]] == WakeAll(w, ids + [c]) && Edges(w2) == Cleared(e, ids + [c])
  {
    var e := Edges(w); var ids := Visited(oneAdvance, e, l, m); var c := Hop(e, l, k);
    CycleNodes(e, l, k);
    CycleNodes(e, l, k + 1);
    EdgesAfter(w, ids);
    ListsGood(WakeAll(w, ids));
    OneMore(w, ids, c);
    w2 := WakeAll(w, ids + [c]);
    EdgesAfter(w, ids + [c]);
    ListsGood(w2);
  }

  // Notice, unfolded once.
  lemma {:induction false} NoticeOnce(
      oneAdvance: bool, w: seq<seq<int>>, w': seq<seq<int>>, l: int, c: int, woken: seq<int>, fuel: nat)
    requires GoodLists(w) && GoodLists(w') && 0 <= l < |w| && 0 <= c < |w| && fuel > 0 && w[c] != []
    requires w' == w[c := w[c][0 := -1]]
    ensures var next := w[c][0]; var r := Notice(oneAdvance, w, l, c, woken, fuel);
            && (next == l ==> r == Done(woken + [c], w'))
            && (next != l && c == l && next >= 0 ==> r == Notice(oneAdvance, w, l, next, woken, fuel - 1))
            && (next != l && c != l && next < 0 && !oneAdvance ==> r == RanOver)
            && (next != l && c != l && next >= 0 && oneAdvance ==>
                  r == Notice(oneAdvance, w', l, next, woken + [c], fuel - 1))
            && (next != l && c != l && next >= 0 && !oneAdvance && w'[next] != [] && w'[next][0] >= 0 ==>
                  r == Notice(oneAdvance, w', l, w'[next][0], woken + [c], fuel - 1))
  {
  }

  // Where the notice stands after k hops and m wake-ups on a cycle of n.
  ghost predicate Phase(oneAdvance: bool, n: nat, k: nat, m: nat): (b: bool)
    ensures b ==> k <= n + 1
  {
    || (k == 0 && m == 0)
    || (1 <= k < n && k == Turn(oneAdvance, m))
    || (!oneAdvance && n >= 3 && k == n == 2 * m + 1)
    || (!oneAdvance && n >= 3 && k == n + 1 == 2 * m + 2)
  }

  // One turn of the notice, on values: it ends having woken the right processes,
  // or moves on along the cycle, or runs over.
  ghost predicate TurnOk(one: bool, e: seq<int>, l: int, k: nat, m: nat)
    requires IsGraph(e) && 0 <= l < |e| && OnCycle(e, l)
  {
    var n := CycleLen(e, l); var woken := Visited(one, e, l, m); var c := Hop(e, l, k);
    && 0 <= c < |e|
    && var next := Cleared(e, woken)[c];
    && (next == l ==> Woken(one, e, l) == Some(woken + [c]))
    && (next != l && c == l ==> next == Hop(e, l, k + 1) >= 0 && Phase(one, n, k + 1, m))
    && (next != l && c != l && next < 0 ==> !one && Woken(one, e, l) == None)
    && (next != l && c != l && next >= 0 ==>
          && next == Hop(e, l, k + 1) && woken + [c] == Visited(one, e, l, m + 1)
          && (if one then Phase(one, n, k + 1, m + 1)
              else Cleared(e, woken + [c])[next] == Hop(e, l, k + 2) >= 0 && Phase(one, n, k + 2, m + 1)))
  }

  lemma NoticeTurn(one: bool, e: seq<int>, l: int, k: nat, m: nat)
    requires IsGraph(e) && 0 <= l < |e| && OnCycle(e, l) && Phase(one, CycleLen(e, l), k, m)
    ensures TurnOk(one, e, l, k, m)
  {
    if k == 0 { TurnStart(one, e, l); }
    else if k < CycleLen(e, l) { TurnOn(one, e, l, k, m); }
    else { TurnOver(e, l, k, m); }
  }

  lemma TurnStart(one: bool, e: seq<int>, l: int)
    requires IsGraph(e) && 0 <= l < |e| && OnCycle(e, l)
    ensures TurnOk(one, e, l, 0, 0)
  {
    CycleNodes(e, l, 0);
    CycleNodes(e, l, 1);
    assert Hop(e, l, 0) == l;
    assert Visited(one, e, l, 0) + [l] == [l];
  }

  lemma TurnOn(one: bool, e: seq<int>, l: int, k: nat, m: nat)
    requires IsGraph(e) && 0 <= l < |e| && OnCycle(e, l) && 1 <= k < CycleLen(e, l) && k == Turn(one, m)
    ensures TurnOk(one, e, l, k, m)
  {
    var n := CycleLen(e, l); var woken := Visited(one, e, l, m); var c := Hop(e, l, k);
    CycleNodes(e, l, k);
    CycleNodes(e, l, k + 1);
    NotYet(one, e, l, m, k);
    assert Cleared(e, woken)[c] == Hop(e, l, k + 1);
    assert woken + [c] == Visited(one, e, l, m + 1);
    if !one && k + 1 < n {
      NotYet(one, e, l, m + 1, k + 1);
      CycleNodes(e, l, k + 2);
    }
  }

  lemma TurnOver(e: seq<int>, l: int, k: nat, m: nat)
    requires IsGraph(e) && 0 <= l < |e| && OnCycle(e, l) && CycleLen(e, l) >= 3
    requires CycleLen(e, l) == 2 * m + 1 && (k == 2 * m + 1 || k == 2 * m + 2)
    ensures TurnOk(false, e, l, k, m)
  {
    var n := CycleLen(e, l); var woken := Visited(false, e, l, m);
    CycleNodes(e, l, k);
    CycleNodes(e, l, k + 1);
    if k == n {
      NotYet(false, e, l, m, k);
    } else {
      assert woken[0] == Hop(e, l, Turn(false, 0)) == Hop(e, l, k);
    }
  }

  lemma EdgesAfter(w: seq<seq<int>>, ids: seq<int>)
    ensures Edges(WakeAll(w, ids)) == Cleared(Edges(w), ids)
  {
  }

  lemma OneMore(w: seq<seq<int>>, ids: seq<int>, c: int)
    requires 0 <= c < |w| && w[c] != []
    ensures WakeAll(w, ids)[c := WakeAll(w, ids)[c][0 := -1]] == WakeAll(w, ids + [c])
  {
    assert forall i :: i in ids + [c] <==> i in ids || i == c;
    assert c in ids + [c];
    forall i | 0 <= i < |w|
      ensures WakeAll(w, ids + [c])[i] == WakeAll(w, ids)[c := WakeAll(w, ids)[c][0 := -1]][i]
    {
      if i == c { assert w[c][0 := -1][0 := -1] == w[c][0 := -1]; }
    }
  }

  // A node not yet passed has not been woken.
  lemma NotYet(oneAdvance: bool, e: seq<int>, l: int, m: nat, k: nat)
    requires IsGraph(e) && 0 <= l < |e| && OnCycle(e, l)
    requires k <= CycleLen(e, l)
    requires forall i: nat :: i < m ==> k != Turn(oneAdvance, i) < CycleLen(e, l)
    ensures Hop(e, l, k) !in Visited(oneAdvance, e, l, m)
  {
    var n := CycleLen(e, l);
    forall i | 0 <= i < m
      ensures Hop(e, l, k) != Visited(oneAdvance, e, l, m)[i]
    {
      var j := Turn(oneAdvance, i);
      if k < j { CycleDistinct(e, l, k, j); } else if k < n { CycleDistinct(e, l, j, k); }
    }
  }
}
