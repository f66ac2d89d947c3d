// The alias table in its arrays, updated in place.
module AliasStore {
  import opened AliasTable
  import opened Options

  class AssocArray {
    const keys: array<string>
    const vals: array<string>
    const hits: array<int>     // -1 for a free main slot
    var curSize: nat
    var ovSize: nat

    ghost var t: Tbl

    ghost predicate Valid()
      reads this, keys, vals, hits
    {
      && keys.Length == vals.Length == MAIN + OVERFLOW && hits.Length == MAIN && keys != vals
      && Shape(t) && ovSize == |t.ov| <= OVERFLOW && curSize == Used(t.main)
      && (forall h :: 0 <= h < MAIN ==> hits[h] >= -1)
      && (forall h :: 0 <= h < MAIN ==> t.main[h] == if hits[h] == -1 then None else Some(Entry(keys[h], vals[h])))
      && (forall i :: 0 <= i < ovSize ==> t.ov[i] == Entry(keys[MAIN + i], vals[MAIN + i]))
    }

    // init
    constructor ()
      ensures Valid() && fresh(keys) && fresh(vals) && fresh(hits) && t == EmptyTbl()
    {
      keys := new string[MAIN + OVERFLOW];
      vals := new string[MAIN + OVERFLOW];
      hits := new int[MAIN](_ => -1);
      curSize, ovSize := 0, 0;
      t := EmptyTbl();
      new;
      NoneUsed(t.main);
    }

    // Position of key in the overflow area, or the first position after it.
    method Search(key: string) returns (i: nat)
      requires Valid()
      ensures MAIN <= i <= MAIN + ovSize
      ensures FindKey(t.ov, key, 0) == if i == MAIN + ovSize then -1 else i - MAIN
    {
      i := MAIN;
      while i < MAIN + ovSize
        invariant MAIN <= i <= MAIN + ovSize
        invariant FindKey(t.ov, key, 0) == FindKey(t.ov, key, i - MAIN)
      {
        if key == keys[i] {
          return;
        }
        i := i + 1;
      }
    }

    // add.  Room in the overflow area is the caller's business: the text only
    // prints a warning when it has become full.
    method Add(key: string, val: string)
      requires Valid() && HasRoom(t, key)
      modifies this, keys, vals, hits
      ensures Valid() && t == AddTo(old(t), key, val)
    {
      var h := GetHash(key);
      if hits[h] == -1 {
        UsedGrows(t.main, h, Entry(key, val));
        keys[h], vals[h] := key, val;
        curSize := curSize + 1;
      } else if key == keys[h] {
        UsedSame(t.main, h, Entry(key, val));
        vals[h] := val;
      } else {
        AddOverflow(key, val);
      }
      hits[h] := hits[h] + 1;
      t := AddTo(t, key, val);
    }

    // The overflow part of add: replace the key's entry, or append one.
    method AddOverflow(key: string, val: string)
      requires Valid() && (ovSize < OVERFLOW || FindKey(t.ov, key, 0) != -1)
      modifies this`ovSize, keys, vals
      ensures ovSize <= OVERFLOW && forall h :: 0 <= h < MAIN ==> keys[h] == old(keys[h]) && vals[h] == old(vals[h])
      ensures var i := FindKey(t.ov, key, 0);
              var ov := if i == -1 then t.ov + [Entry(key, val)] else t.ov[i := Entry(key, val)];
              ovSize == |ov| && forall i :: 0 <= i < ovSize ==> ov[i] == Entry(keys[MAIN + i], vals[MAIN + i])
    {
      var i := Search(key);
      if i == MAIN + ovSize {
        keys[i], vals[i] := key, val;
        ovSize := ovSize + 1;
      } else {
        vals[i] := val;
      }
    }

    // get; None for a null result
    method Get(key: string) returns (val: Option<string>)
      requires Valid()
      ensures val == GetFrom(t, key)
    {
      var h := GetHash(key);
      if hits[h] == -1 {
        return None;
      } else if key == keys[h] {
        return Some(vals[h]);
      }
      var i := Search(key);
      return if i == MAIN + ovSize then None else Some(vals[i]);
    }

    // write_alias: what is written to the file
    method WriteAlias() returns (text: string)
      requires Valid()
      ensures text == Written(t.main)
    {
      text := "";
      for i := 0 to MAIN
        invariant text == Written(t.main[..i])
      {
        assert t.main[..i + 1][..i] == t.main[..i];
        if hits[i] != -1 {
          text := text + Line(keys[i], vals[i]);
        }
      }
      assert t.main[..MAIN] == t.main;
    }
  }

  function Written(main: seq<Option<Entry>>): string {
    if main == [] then ""
    else
      var before := Written(main[..|main| - 1]);
      match main[|main| - 1]
      case None => before
      case Some(e) => before + Line(e.key, e.val)
  }

  function Line(key: string, val: string): string { "alias " + key + "=" + val + "\n" }

  function Lines(main: seq<Option<Entry>>): seq<string> {
    if main == [] then []
    else
      var before := Lines(main[..|main| - 1]);
      match main[|main| - 1]
      case None => before
      case Some(e) => before + [Line(e.key, e.val)]
  }

  lemma {:induction false} NoneUsed(main: seq<Option<Entry>>)
    requires forall h :: 0 <= h < |main| ==> main[h].None?
    ensures Used(main) == 0
    decreases |main|
  {
    if main != [] { NoneUsed(main[..|main| - 1]); }
  }

  lemma {:induction false} UsedGrows(main: seq<Option<Entry>>, h: nat, e: Entry)
    requires h < |main| && main[h].None?
    ensures Used(main[h := Some(e)]) == Used(main) + 1
    decreases |main|
  {
    var n := |main| - 1;
    if h < n {
      UsedGrows(main[..n], h, e);
      assert main[h := Some(e)][..n] == main[..n][h := Some(e)];
    } else {
      assert main[h := Some(e)][..n] == main[..n];
    }
  }

  lemma {:induction false} UsedSame(main: seq<Option<Entry>>, h: nat, e: Entry)
    requires h < |main| && main[h].Some?
    ensures Used(main[h := Some(e)]) == Used(main)
    decreases |main|
  {
    var n := |main| - 1;
    if h < n {
      UsedSame(main[..n], h, e);
      assert main[h := Some(e)][..n] == main[..n][h := Some(e)];
    } else {
      assert main[h := Some(e)][..n] == main[..n];
    }
  }
}
