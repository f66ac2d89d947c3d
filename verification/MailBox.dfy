// A mailbox record and its message list, updated in place.
module MailBoxes {
  import opened MailSpec

  class MailNode {
    const msg: Message
    var next: MailNode?

    constructor (msg: Message)
      ensures this.msg == msg && next == null
    {
      this.msg := msg;
      next := null;
    }
  }

  class MailBox {
    var mbId: int
    var ownerPid: int
    const ownerUid: int
    const ownerGid: int
    const perm: int
    const senders: array<int>
    var numSenders: int
    var numMessages: int
    var rxSuspended: bool
    var front: MailNode?
    var rear: MailNode?

    ghost var nodes: seq<MailNode>   // the list from front to rear
    ghost var Repr: set<object>

    ghost predicate Valid()
      reads this, Repr
      ensures Valid() ==> this in Repr
    {
      && this in Repr && senders in Repr && senders.Length == MAX_SENDERS
      && (forall k :: 0 <= k < |nodes| ==> nodes[k] in Repr)
      && 0 <= numSenders <= MAX_SENDERS && (forall k :: 0 <= k < numSenders ==> senders[k] != -1)
      && numMessages == |nodes|
      && (nodes == [] ==> front == null && rear == null)
      && (nodes != [] ==> front == nodes[0] && rear == nodes[|nodes| - 1] && rear.next == null)
      && (forall k {:trigger nodes[k].next} :: 0 <= k < |nodes| - 1 ==> nodes[k].next == nodes[k + 1])
      && (forall j, k :: 0 <= j < k < |nodes| ==> nodes[j] != nodes[k])
    }

    ghost function Value(): Box
      reads this, Repr
      requires Valid()
    {
      Box(mbId, ownerPid, ownerUid, ownerGid, perm, senders[..], numSenders, rxSuspended, Msgs(nodes))
    }

    static ghost function Msgs(nodes: seq<MailNode>): (r: seq<Message>)
      ensures |r| == |nodes| && forall k :: 0 <= k < |r| ==> r[k] == nodes[k].msg
    {
      seq(|nodes|, k requires 0 <= k < |nodes| => nodes[k].msg)
    }

    // create_mailbox, before the slot is known
    constructor (pid: int, uid: int, gid: int, permissions: int)
      ensures Valid() && fresh(Repr)
      ensures Value() == Box(-1, pid, uid, gid, permissions, seq(MAX_SENDERS, _ => -1), 0, false, [])
    {
      mbId, ownerPid, ownerUid, ownerGid, perm := -1, pid, uid, gid, permissions;
      senders := new int[MAX_SENDERS](_ => -1);
      numSenders, numMessages, rxSuspended := 0, 0, false;
      front, rear, nodes := null, null, [];
      new;
      Repr := {this, senders};
    }

    // The slot given by addMailBox
    method SetId(id: int)
      requires Valid()
      modifies this`mbId
      ensures Valid() && Value() == old(Value()).(mbId := id)
    {
      mbId := id;
    }

    method SetSuspended(suspended: bool)
      requires Valid()
      modifies this`rxSuspended
      ensures Valid() && Value() == old(Value()).(rxSuspended := suspended)
    {
      rxSuspended := suspended;
    }

    // putMsg.  At line 306 the text compares the flag instead of clearing it.
    method Put(rd: Reading, msg: Message) returns (code: int)
      requires Valid()
      modifies Repr
      ensures Valid() && fresh(Repr - old(Repr))
      ensures (Value(), code) == PutInBox(rd, old(Value()), msg)
    {
      if numMessages >= MB_CAPACITY {
        return -1;
      } else if rxSuspended {
        if rd.clearsFlag {
          rxSuspended := false;
        }
        return 0;
      }
      var node := new MailNode(msg);
      if front == null {
        front := node;
        rear := node;
      } else {
        rear.next := node;
        rear := node;
      }
      numMessages := numMessages + 1;
      assert Msgs(nodes + [node]) == Msgs(nodes) + [msg];
      nodes := nodes + [node];
      Repr := Repr + {node};
      return 0;
    }

    // getMsg
    method Get() returns (code: int, msg: Message)
      requires Valid()
      modifies this
      ensures Valid() && Repr == old(Repr)
      ensures code == if old(Value()).queue == [] then -1 else 0
      ensures code == -1 ==> Value() == old(Value())
      ensures code == 0 ==> msg == old(Value()).queue[0]
      ensures code == 0 ==> Value() == old(Value()).(queue := old(Value()).queue[1..])
    {
      if front == null {
        return -1, Message("", 0);
      }
      msg := front.msg;
      assert |nodes| > 1 ==> nodes[0].next == nodes[0 + 1];
      assert |nodes| > 1 ==> Msgs(nodes[1..]) == Msgs(nodes)[1..];
      if front.next == null {
        front := null;
        rear := null;
        nodes := [];
      } else {
        front := front.next;
        nodes := nodes[1..];
      }
      numMessages := numMessages - 1;
      code := 0;
    }

    // isValidSender
    method CheckSender(pid: int) returns (code: int)
      requires Valid()
      ensures code == ValidSender(Value(), pid)
      ensures code == -1 <==> ownerPid == -1
      ensures code == 1 <==> ownerPid != -1 && exists k :: 0 <= k < numSenders && senders[k] == pid
    {
      if ownerPid == -1 {
        return -1;
      }
      for i := 0 to numSenders
        invariant pid !in senders[..i]
      {
        if senders[i] == pid {
          assert senders[..][..numSenders][i] == pid;
          return 1;
        }
      }
      assert senders[..][..numSenders] == senders[..numSenders];
      return 0;
    }

    // The sender loop of do_register_mb, for a caller who may register.
    method AddSender(pid: int) returns (code: int)
      requires Valid()
      modifies this`numSenders, senders
      ensures Valid()
      ensures var k := SenderSlot(old(senders[..]), pid, 0);
              if k == -1 then code == -1 && Value() == old(Value())
              else if old(senders[k]) == pid then code == -2 && Value() == old(Value())
              else code == 0 && Value() == old(Value()).(
                senders := old(senders[..])[k := pid], numSenders := old(numSenders) + 1)
    {
      for i := 0 to MAX_SENDERS
        invariant SenderSlot(senders[..], pid, 0) == SenderSlot(senders[..], pid, i)
        invariant senders[..] == old(senders[..]) && numSenders == old(numSenders)
        invariant forall k :: 0 <= k < i ==> senders[k] != -1
      {
        if senders[i] == pid {
          return -2;
        } else if senders[i] == -1 {
          senders[i] := pid;
          numSenders := numSenders + 1;
          return 0;
        }
      }
      return -1;
    }

    // The fields do_destroy_mailbox resets.
    method Reset()
      requires Valid()
      modifies this
      ensures Valid() && Repr == old(Repr)
      ensures Value() == old(Value()).(ownerPid := -1, mbId := -1, numSenders := 0, queue := [])
    {
      ownerPid, mbId := -1, -1;
      numSenders, numMessages := 0, 0;
      front, rear, nodes := null, null, [];
    }
  }
}
