// The alias table: 256 main slots chosen by hash, 8 shared overflow slots.
module AliasTable {
  import opened Options

  const MAIN := 256
  const OVERFLOW := 8

  // ------------------------------------------------------------------ the hash

  function SignedChar(c: char): int {
    var x := c as int % 256;
    if x < 128 then x else x - 256
  }

  function CharSum(s: string): int {
    if s == "" then 0 else CharSum(s[..|s| - 1]) + SignedChar(s[|s| - 1])
  }

  // Low byte plus second byte of the sum, modulo 256.
  function Fold(sum: int): (h: nat)
    ensures h < MAIN
  {
    (sum % 256 + (sum / 256) % 256) % 256
  }

  function Hash(s: string): nat { Fold(CharSum(s)) }

  // The hash of a key whose sum has the low bytes a and b is a + b, modulo 256.
  lemma HashIs(s: string, a: nat, b: nat, c: int)
    requires a < 256 && b < 256 && CharSum(s) == 65536 * c + 256 * b + a
    ensures Hash(s) == (a + b) % 256
  {
    FoldIs(CharSum(s), 256 * c + b, a);
    FoldIs(256 * c + b, c, b);
  }

  lemma FoldIs(sum: int, high: int, low: nat)
    requires sum == 256 * high + low && low < 256
    ensures sum % 256 == low && sum / 256 == high
  {
  }

  lemma {:induction false} SumAppend(s: string, t: string)
    ensures CharSum(s + t) == CharSum(s) + CharSum(t)
    decreases |t|
  {
    if t == "" {
      assert s + t == s;
    } else {
      assert (s + t)[..|s + t| - 1] == s + t[..|t| - 1];
      SumAppend(s, t[..|t| - 1]);
    }
  }

  // A character counts for its code up to 127, for 256 less from 128 to 255.
  lemma SumOfOne(c: char)
    requires c as int < 256
    ensures CharSum([c]) == if c as int < 128 then c as int else c as int - 256
  {
    assert [c][..0] == [];
  }

  lemma Without(t: string, k: nat)
    requires k < |t|
    ensures CharSum(t) == CharSum(t[..k] + t[k + 1..]) + SignedChar(t[k])
    ensures multiset(t) == multiset(t[..k] + t[k + 1..]) + multiset{t[k]}
  {
    var p, c, q := t[..k], [t[k]], t[k + 1..];
    assert t == p + (c + q);
    SumAppend(p, q);
    SumAppend(p, c + q);
    SumAppend(c, q);
    assert c[..0] == [];
  }

  lemma Cancel(a: multiset<char>, b: multiset<char>, c: char)
    requires a + multiset{c} == b + multiset{c}
    ensures a == b
  {
    assert a == (a + multiset{c}) - multiset{c};
    assert b == (b + multiset{c}) - multiset{c};
  }

  // Keys made of the same characters share a slot.
  lemma {:induction false} AnagramsCollide(s: string, t: string)
    requires multiset(s) == multiset(t)
    ensures CharSum(s) == CharSum(t) && Hash(s) == Hash(t)
    decreases |s|
  {
    if s == "" {
      assert |multiset(t)| == 0;
    } else {
      assert s[0] in multiset(t);
      var k :| 0 <= k < |t| && t[k] == s[0];
      Without(s, 0);
      Without(t, k);
      var s1, t1 := s[..0] + s[1..], t[..k] + t[k + 1..];
      Cancel(multiset(s1), multiset(t1), s[0]);
      AnagramsCollide(s1, t1);
    }
  }

  // get_hash
  method GetHash(s: string) returns (h: nat)
    ensures h == Hash(s) < MAIN
  {
    var sum := 0;
    for i := 0 to |s|
      invariant sum == CharSum(s[..i])
    {
      assert s[..i + 1][..i] == s[..i];
      sum := sum + SignedChar(s[i]);
    }
    assert s[..|s|] == s;
    h := Fold(sum);
  }

  // ------------------------------------------------------- the table as a value

  datatype Entry = Entry(key: string, val: string)
  datatype Tbl = Tbl(main: seq<Option<Entry>>, ov: seq<Entry>)

  function EmptyTbl(): Tbl { Tbl(seq(MAIN, _ => None), []) }

  function FindKey(ov: seq<Entry>, key: string, i: nat): (r: int)
    requires i <= |ov|
    ensures -1 <= r < |ov|
    ensures r == -1 ==> forall k :: i <= k < |ov| ==> ov[k].key != key
    ensures r >= 0 ==> i <= r && ov[r].key == key
    decreases |ov| - i
  {
    if i == |ov| then -1 else if ov[i].key == key then i else FindKey(ov, key, i + 1)
  }

  predicate Shape(t: Tbl) { |t.main| == MAIN }

  function AddTo(t: Tbl, key: string, val: string): Tbl
    requires Shape(t)
  {
    var h := Hash(key);
    if t.main[h].None? || t.main[h].value.key == key then t.(main := t.main[h := Some(Entry(key, val))])
    else
      var i := FindKey(t.ov, key, 0);
      if i == -1 then t.(ov := t.ov + [Entry(key, val)]) else t.(ov := t.ov[i := Entry(key, val)])
  }

  function GetFrom(t: Tbl, key: string): Option<string>
    requires Shape(t)
  {
    var h := Hash(key);
    if t.main[h].None? then None
    else if t.main[h].value.key == key then Some(t.main[h].value.val)
    else
      var i := FindKey(t.ov, key, 0);
      if i == -1 then None else Some(t.ov[i].val)
  }

  // The addition does not need an overflow slot, or there is one.
  predicate HasRoom(t: Tbl, key: string)
    requires Shape(t)
  {
    |t.ov| < OVERFLOW || t.main[Hash(key)].None? || GetFrom(t, key).Some?
  }

  // ------------------------------------------------------------ it is a finite map

  ghost predicate Placed(t: Tbl) {
    && Shape(t)
    && (forall h :: 0 <= h < MAIN && t.main[h].Some? ==> Hash(t.main[h].value.key) == h)
    && (forall i :: 0 <= i < |t.ov| ==>
          t.main[Hash(t.ov[i].key)].Some? && t.main[Hash(t.ov[i].key)].value.key != t.ov[i].key)
    && (forall i, j :: 0 <= i < j < |t.ov| ==> t.ov[i].key != t.ov[j].key)
  }

  function MainMap(main: seq<Option<Entry>>): map<string, string> {
    if main == [] then map[]
    else
      var m := MainMap(main[..|main| - 1]);
      match main[|main| - 1]
      case None => m
      case Some(e) => m[e.key := e.val]
  }

  function OvMap(ov: seq<Entry>): map<string, string> {
    if ov == [] then map[] else OvMap(ov[..|ov| - 1])[ov[|ov| - 1].key := ov[|ov| - 1].val]
  }

  // What the table holds.
  function Contents(t: Tbl): map<string, string> { MainMap(t.main) + OvMap(t.ov) }

  function Used(main: seq<Option<Entry>>): nat {
    if main == [] then 0 else Used(main[..|main| - 1]) + (if main[|main| - 1].Some? then 1 else 0)
  }

  lemma {:induction false} MainMapIs(main: seq<Option<Entry>>)
    requires |main| <= MAIN && forall h :: 0 <= h < |main| && main[h].Some? ==> Hash(main[h].value.key) == h
    ensures forall k :: k in MainMap(main) <==> Hash(k) < |main| && main[Hash(k)].Some? && main[Hash(k)].value.key == k
    ensures forall k :: k in MainMap(main) ==> MainMap(main)[k] == main[Hash(k)].value.val
    ensures |MainMap(main)| == Used(main)
    decreases |main|
  {
    if main != [] {
      var n := |main| - 1;
      var m := MainMap(main[..n]);
      MainMapIs(main[..n]);
      if main[n].Some? {
        var e := main[n].value;
        assert e.key !in m;
        assert MainMap(main) == m[e.key := e.val];
      } else {
        assert MainMap(main) == m;
      }
    }
  }

  predicate HasKey(ov: seq<Entry>, k: string) { exists i :: 0 <= i < |ov| && ov[i].key == k }

  lemma {:induction false} OvMapIs(ov: seq<Entry>)
    requires forall i, j :: 0 <= i < j < |ov| ==> ov[i].key != ov[j].key
    ensures forall k :: k in OvMap(ov) <==> HasKey(ov, k)
    ensures forall i :: 0 <= i < |ov| ==> ov[i].key in OvMap(ov) && OvMap(ov)[ov[i].key] == ov[i].val
    ensures |OvMap(ov)| == |ov|
    decreases |ov|
  {
    if ov != [] {
      var n := |ov| - 1;
      var e, m := ov[n], OvMap(ov[..n]);
      OvMapIs(ov[..n]);
      assert OvMap(ov) == m[e.key := e.val];
      assert e.key !in m;
      forall k
        ensures k in OvMap(ov) <==> HasKey(ov, k)
      {
        assert HasKey(ov, k) <==> HasKey(ov[..n], k) || e.key == k by { KeyOfLast(ov, k); }
      }
    }
  }

  lemma KeyOfLast(ov: seq<Entry>, k: string)
    requires ov != []
    ensures HasKey(ov, k) <==> HasKey(ov[..|ov| - 1], k) || ov[|ov| - 1].key == k
  {
    if HasKey(ov[..|ov| - 1], k) {
      var i :| 0 <= i < |ov| - 1 && ov[..|ov| - 1][i].key == k;
      assert ov[i].key == k;
    }
    if HasKey(ov, k) {
      var i :| 0 <= i < |ov| && ov[i].key == k;
      if i < |ov| - 1 { assert ov[..|ov| - 1][i].key == k; }
    }
  }

  // Look-up answers from the map.
  lemma GetIsMap(t: Tbl, key: string)
    requires Placed(t)
    ensures GetFrom(t, key) == if key in Contents(t) then Some(Contents(t)[key]) else None
  {
    var a, b := MainMap(t.main), OvMap(t.ov);
    MainMapIs(t.main);
    OvMapIs(t.ov);
    var i := FindKey(t.ov, key, 0);
    if i != -1 {
      assert key in b && b[key] == t.ov[i].val;
      assert t.main[Hash(t.ov[i].key)].Some?;
    } else {
      assert !HasKey(t.ov, key);
      assert key !in b;
    }
    assert key in a <==> t.main[Hash(key)].Some? && t.main[Hash(key)].value.key == key;
  }

  lemma SizeIsMap(t: Tbl)
    requires Placed(t)
    ensures |Contents(t)| == Used(t.main) + |t.ov|
  {
    MainMapIs(t.main);
    OvMapIs(t.ov);
    MainOvApart(t);
  }

  lemma MainOvApart(t: Tbl)
    requires Placed(t)
    ensures forall k :: k in OvMap(t.ov) ==> k !in MainMap(t.main)
    ensures |MainMap(t.main) + OvMap(t.ov)| == |MainMap(t.main)| + |OvMap(t.ov)|
  {
    MainMapIs(t.main);
    OvMapIs(t.ov);
    forall k | k in OvMap(t.ov)
      ensures k !in MainMap(t.main)
    {
      var i :| 0 <= i < |t.ov| && t.ov[i].key == k;
    }
    var a, b := MainMap(t.main), OvMap(t.ov);
    assert (a + b).Keys == a.Keys + b.Keys && a.Keys !! b.Keys;
    assert |(a + b).Keys| == |a.Keys| + |b.Keys|;
  }

  // Addition updates the map, and keeps keys where look-up expects them.
  lemma AddIsMap(t: Tbl, key: string, val: string)
    requires Placed(t)
    ensures Placed(AddTo(t, key, val))
    ensures Contents(AddTo(t, key, val)) == Contents(t)[key := val]
  {
    var t' := AddTo(t, key, val);
    AddPlaced(t, key, val);
    forall k
      ensures GetFrom(t', k) == if k == key then Some(val) else GetFrom(t, k)
    {
      AddThenGet(t, key, val, k);
    }
    forall k
      ensures k in Contents(t') <==> k in Contents(t)[key := val]
      ensures k in Contents(t') ==> Contents(t')[k] == Contents(t)[key := val][k]
    {
      GetIsMap(t, k);
      GetIsMap(t', k);
    }
  }

  lemma AddPlaced(t: Tbl, key: string, val: string)
    requires Placed(t)
    ensures Placed(AddTo(t, key, val))
  {
  }

  lemma AddThenGet(t: Tbl, key: string, val: string, k: string)
    requires Placed(t)
    ensures GetFrom(AddTo(t, key, val), k) == if k == key then Some(val) else GetFrom(t, k)
  {
    var t' := AddTo(t, key, val);
    var h := Hash(key);
    if !(t.main[h].None? || t.main[h].value.key == key) {
      var i := FindKey(t.ov, key, 0);
      var a, b := FindKey(t.ov, k, 0), FindKey(t'.ov, k, 0);
      if i == -1 {
        assert t'.ov[|t.ov|] == Entry(key, val);
        if a != -1 { assert t'.ov[a].key == k; }
      } else {
        assert t'.ov[i] == Entry(key, val);
        if a != -1 { assert t'.ov[a].key == k; }
      }
      if b != -1 && b < |t.ov| { assert t.ov[b].key == t'.ov[b].key; }
    } else if Hash(k) == h && k != key {
      var a := FindKey(t.ov, k, 0);
      if a != -1 { assert t.main[Hash(t.ov[a].key)].Some?; }
    }
  }

  // ---------------------------------------------------------------- whole runs

  function AddAll(entries: seq<Entry>): Tbl
    ensures Shape(AddAll(entries))
  {
    if entries == [] then EmptyTbl()
    else AddTo(AddAll(entries[..|entries| - 1]), entries[|entries| - 1].key, entries[|entries| - 1].val)
  }

  function LastWins(entries: seq<Entry>): map<string, string> {
    if entries == [] then map[]
    else LastWins(entries[..|entries| - 1])[entries[|entries| - 1].key := entries[|entries| - 1].val]
  }

  // After any additions the table is the map they describe: look-up gives the
  // last value added for a key, no key is held twice, and the two sizes add up.
  lemma {:induction false} TableIsMap(entries: seq<Entry>)
    ensures Placed(AddAll(entries)) && Contents(AddAll(entries)) == LastWins(entries)
    ensures forall k ::
              GetFrom(AddAll(entries), k) == if k in LastWins(entries) then Some(LastWins(entries)[k]) else None
    ensures Used(AddAll(entries).main) + |AddAll(entries).ov| == |LastWins(entries)|
    decreases |entries|
  {
    if entries == [] {
      EmptyIsMap();
    } else {
      TableIsMap(entries[..|entries| - 1]);
      AddIsMap(AddAll(entries[..|entries| - 1]), entries[|entries| - 1].key, entries[|entries| - 1].val);
    }
    forall k
      ensures GetFrom(AddAll(entries), k) == if k in LastWins(entries) then Some(LastWins(entries)[k]) else None
    {
      GetIsMap(AddAll(entries), k);
    }
    SizeIsMap(AddAll(entries));
  }

  lemma EmptyIsMap()
    ensures Placed(EmptyTbl()) && Contents(EmptyTbl()) == map[]
  {
    MainMapIs(EmptyTbl().main);
  }
}
