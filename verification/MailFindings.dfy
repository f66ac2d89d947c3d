// Where the text of the mailbox server does not do what it is for.
module MailFindings {
  import opened WaitGraph
  import opened MailSpec
  import opened MailInvariants
  import opened Options

  // One mailbox of process 1, open to all, with process 2 registered; the
  // states along the run of StaleFlag.
  function OneBox(senders: seq<int>, numSenders: int, rxSuspended: bool, trace: Trace): State {
    State(Init(AS_WRITTEN).pool[0 := true],
          Init(AS_WRITTEN).boxes[0 := Some(Box(0, 1, 0, 0, 1, senders, numSenders, rxSuspended, []))],
          Init(AS_WRITTEN).waits, Init(AS_WRITTEN).senderDB, trace)
  }

  const NO_ONE := seq(MAX_SENDERS, _ => -1)
  const ONLY_2 := NO_ONE[0 := 2]
  const T1 := After(Nothing, Created(0, 1, 0, 0, 1))
  const T2 := After(T1, Registered(0, 2, 0, 0))
  const T3 := After(T2, Waits(0))
  const TO_PROCESS_1: Dests := [1, 0, 0, 0, 0, 0, 0, 0, 0, 0]

  lemma NotFound(s: seq<int>, x: int, i: nat)
    requires i <= |s| && forall k :: i <= k < |s| ==> s[k] != x
    ensures FindInt(s, x, i) == -1
  {
  }

  lemma Opening()
    ensures CreateStep(Init(AS_WRITTEN), 1, 0, 0, 1).0 == OneBox(NO_ONE, 0, false, T1)
    ensures RegisterStep(OneBox(NO_ONE, 0, false, T1), 2, 0, 0, 0) == (OneBox(ONLY_2, 1, false, T2), Ret(0))
    ensures RetrieveStep(OneBox(ONLY_2, 1, false, T2), 1) == (OneBox(ONLY_2, 1, true, T3), Suspend)
  {
    var s1 := OneBox(NO_ONE, 0, false, T1);
    assert FindClear(Init(AS_WRITTEN).pool, 0) == 0;
    assert SenderSlot(NO_ONE, 2, 0) == 0;
    assert FindBox(s1.boxes, 2, 0) == -1;
    NotFound(s1.senderDB, -1, MAX_MAILBOXES);
    assert s1.boxes[0 := Some(Box(0, 1, 0, 0, 1, ONLY_2, 1, false, []))] == OneBox(ONLY_2, 1, false, T2).boxes;
    assert FindBox(OneBox(ONLY_2, 1, false, T2).boxes, 1, 0) == 0;
    assert OneBox(ONLY_2, 1, false, T2).boxes[0 := Some(Box(0, 1, 0, 0, 1, ONLY_2, 1, true, []))] ==
           OneBox(ONLY_2, 1, true, T3).boxes;
  }

  lemma HandOff()
    ensures Shape(OneBox(ONLY_2, 1, true, T3)) && SendersFit(OneBox(ONLY_2, 1, true, T3))
    ensures var t := After(After(T3, Accepted(0, Message("a", 2))), Copied(0, Message("a", 2)));
            DepositStep(AS_WRITTEN, OneBox(ONLY_2, 1, true, T3), 2, "a", TO_PROCESS_1) ==
                  (OneBox(ONLY_2, 1, true, t), Ret(0))
  {
    var s3 := OneBox(ONLY_2, 1, true, T3);
    var m := Message("a", 2);
    assert FindBox(s3.boxes, 1, 0) == 0;
    assert ONLY_2[..1] == [2];
    var s4 := PutMsg(AS_WRITTEN, s3, 0, m).0;
    assert SendOne(AS_WRITTEN, s3, m, 1) == (s4, 0, 0);
    assert Send(AS_WRITTEN, s4, m, TO_PROCESS_1, 1, []) == (s4, [], None);
    assert Send(AS_WRITTEN, s3, m, TO_PROCESS_1, 0, []) == (s4, [], None);
    assert s4.boxes == s3.boxes;
  }

  const C1 := Create(1, 0, 0, 1)
  const C2 := Register(2, 0, 0, 0)
  const C3 := Retrieve(1)
  const C4 := Deposit(2, "a", TO_PROCESS_1)

  lemma FirstTwo()
    ensures Run(AS_WRITTEN, [C1, C2]) == Some(OneBox(ONLY_2, 1, false, T2))
    ensures SendersFit(OneBox(ONLY_2, 1, false, T2))
  {
    Opening();
    RunMore(AS_WRITTEN, [], Init(AS_WRITTEN), C1, OneBox(NO_ONE, 0, false, T1));
    assert [] + [C1] == [C1];
    RunMore(AS_WRITTEN, [C1], OneBox(NO_ONE, 0, false, T1), C2, OneBox(ONLY_2, 1, false, T2));
    assert [C1] + [C2] == [C1, C2];
  }

  lemma FirstThree()
    ensures Run(AS_WRITTEN, [C1, C2, C3]) == Some(OneBox(ONLY_2, 1, true, T3))
  {
    FirstTwo();
    Opening();
    RunMore(AS_WRITTEN, [C1, C2], OneBox(ONLY_2, 1, false, T2), C3, OneBox(ONLY_2, 1, true, T3));
    assert [C1, C2] + [C3] == [C1, C2, C3];
  }

  lemma AllFour()
    ensures var t := After(After(T3, Accepted(0, Message("a", 2))), Copied(0, Message("a", 2)));
            Run(AS_WRITTEN, [C1, C2, C3, C4]) == Some(OneBox(ONLY_2, 1, true, t))
  {
    FirstThree();
    HandOff();
    var t := After(After(T3, Accepted(0, Message("a", 2))), Copied(0, Message("a", 2)));
    RunMore(AS_WRITTEN, [C1, C2, C3], OneBox(ONLY_2, 1, true, T3), C4, OneBox(ONLY_2, 1, true, t));
    assert [C1, C2, C3] + [C4] == [C1, C2, C3, C4];
  }

  // A receiver retrieves and is suspended; one deposit wakes it.  The flag stays
  // up with nobody waiting, so the next message will be copied to nobody.
  lemma StaleFlag()
    ensures var calls := [C1, C2, C3, C4];
            && Run(AS_WRITTEN, calls).Some?
            && Run(AS_WRITTEN, calls).value.boxes[0].Some?
            && Run(AS_WRITTEN, calls).value.boxes[0].value.rxSuspended
            && !Waiting(Run(AS_WRITTEN, calls).value.trace, 0)
  {
    AllFour();
  }

  lemma RunMore(rd: Reading, calls: seq<Call>, s: State, c: Call, s': State)
    requires Run(rd, calls) == Some(s) && SendersFit(s)
    requires Step(rd, s, c).0 == s' && Step(rd, s, c).1 != Fault
    ensures Run(rd, calls + [c]) == Some(s') && Shape(s') && SendersFit(s')
  {
    assert (calls + [c])[..|calls + [c]| - 1] == calls;
    StepKeeps(rd, s, c);
  }

  // Exactly when a deposit goes outside the tables: the sender has to block but
  // has no local id, or (in the text only) it closes an odd circle of three or
  // more.
  lemma DepositFaultsIff(
      rd: Reading, s: State, pid: int, data: string, dests: Dests, s': State, full: seq<int>, err: Option<int>)
    requires Shape(s) && SendersFit(s)
    requires (s', full, err) == Send(rd, s, Message(data, pid), dests, 0, [])
    ensures DepositStep(rd, s, pid, data, dests).1 == Fault <==>
              err == None && full != [] && BlockFaults(rd, s', LocalId(s', pid), full)
  {
    if err == None && full != [] {
      BlockFaultsIff(rd, s', LocalId(s', pid), full);
    }
  }

  lemma BlockFaultsIff(rd: Reading, s: State, l: int, full: seq<int>)
    requires Shape(s) && full != [] && -1 <= l < MAX_IDS
    requires forall k :: 0 <= k < |full| ==> 0 <= full[k] < MAX_MAILBOXES
    ensures SuspendStep(rd, s, l, full).1 == Fault <==> BlockFaults(rd, s, l, full)
  {
  }

  ghost predicate BlockFaults(rd: Reading, s: State, l: int, full: seq<int>)
    requires Shape(s) && full != [] && -1 <= l < MAX_IDS
    requires forall k :: 0 <= k < |full| ==> 0 <= full[k] < MAX_MAILBOXES
  {
    l == -1 || (var e := Edges(s.waits[l := full]);
                OnCycle(e, l) && !rd.oneAdvance && CycleLen(e, l) >= 3 && CycleLen(e, l) % 2 == 1)
  }

  // With senderDB as the text leaves it, a sender other than process 0 has a
  // local id exactly when it owns a mailbox, whatever it has registered with.
  lemma OnlyOwnersHaveIds(calls: seq<Call>, pid: int)
    requires Run(AS_WRITTEN, calls).Some? && pid != 0
    ensures var s := Run(AS_WRITTEN, calls).value;
            LocalId(s, pid) == -1 <==> forall i :: 0 <= i < MAX_MAILBOXES ==> !Owns(s.boxes[i], pid)
  {
    var s := Run(AS_WRITTEN, calls).value;
    NotFound(s.senderDB, pid, 0);
  }

  // The smallest circle on which the text runs over; advancing once per wake-up
  // it wakes the other two.
  lemma ThreeRunsOver(e: seq<int>, x: int, y: int, z: int)
    requires IsGraph(e) && 0 <= x < |e| && 0 <= y < |e| && 0 <= z < |e| && x != y && x != z && y != z
    requires e[x] == y && e[y] == z && e[z] == x
    ensures OnCycle(e, x) && CycleLen(e, x) == 3
    ensures Woken(false, e, x) == None && Woken(true, e, x) == Some([y, z])
  {
    assert Hop(e, x, 1) == Hop(e, y, 0) == y;
    assert Hop(e, x, 2) == Hop(e, y, 1) == Hop(e, z, 0) == z;
    assert Hop(e, x, 3) == Hop(e, y, 2) == Hop(e, z, 1) == Hop(e, x, 0) == x;
    var n := CycleLen(e, x);
    assert n <= 3;
    assert n == 3;
    assert Visited(true, e, x, 2) == [Hop(e, x, Turn(true, 0)), Hop(e, x, Turn(true, 1))];
  }
}
