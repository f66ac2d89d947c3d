// Listing the disk blocks of a file, with the ranges printed on the way.
module ZoneWalk {

  function Pow2(n: nat): (r: nat)
    ensures r > 0
  {
    if n == 0 then 1 else 2 * Pow2(n - 1)
  }

  // A mounted volume: `indir(b, i)` is entry i of the zone table in block b.
  datatype Volume = Volume(blockSize: nat, scale: nat, ndzones: nat, nindirs: nat, indir: (nat, nat) -> nat)

  // An inode: its size and its zone numbers, the direct ones first, then the
  // single and the double indirect one.  Zone 0 stands for no zone.
  datatype File = File(size: nat, zones: seq<nat>)

  predicate Fits(v: Volume, f: File) { v.blockSize > 0 && |f.zones| == v.ndzones + 2 }

  function Bpz(v: Volume): (r: nat)
    ensures r > 0
  {
    Pow2(v.scale)
  }

  // Number of blocks a size takes.
  function BlocksOf(size: nat, blockSize: nat): nat
    requires blockSize > 0
  {
    (size + blockSize - 1) / blockSize
  }

  // It is the least number of blocks that hold the size.
  predicate Covers(u: nat, size: nat, blockSize: nat) { size <= u * blockSize < size + blockSize }

  lemma BlocksCover(size: nat, blockSize: nat, u: nat)
    requires blockSize > 0
    ensures Covers(u, size, blockSize) <==> u == BlocksOf(size, blockSize)
  {
    var v := BlocksOf(size, blockSize);
    assert v * blockSize + (size + blockSize - 1) % blockSize == size + blockSize - 1;
    if u < v {
      FewerBlocks(u, v, blockSize);
    } else if u > v {
      FewerBlocks(v, u, blockSize);
    }
  }

  lemma FewerBlocks(u: nat, v: nat, blockSize: nat)
    requires u < v
    ensures u * blockSize + blockSize <= v * blockSize
  {
    assert (v - u - 1) * blockSize >= 0;
  }

  // ----------------------------------------------------- all blocks, in order

  function ZoneBlocks(v: Volume, z: nat): (r: seq<nat>)
    ensures z == 0 ==> r == []
    ensures z != 0 ==> |r| == Bpz(v) && forall i :: 0 <= i < |r| ==> r[i] == z * Bpz(v) + i
  {
    if z == 0 then [] else seq(Bpz(v), i requires 0 <= i < Bpz(v) => z * Bpz(v) + i)
  }

  function Blocks(v: Volume, zs: seq<nat>): seq<nat> {
    if zs == [] then [] else Blocks(v, zs[..|zs| - 1]) + ZoneBlocks(v, zs[|zs| - 1])
  }

  // Entries 0..n of the zone table in zone z.
  function Table(v: Volume, z: nat, n: nat): (r: seq<nat>)
    ensures |r| == n && forall i :: 0 <= i < n ==> r[i] == v.indir(z * Bpz(v), i)
  {
    seq<nat>(n, i requires 0 <= i < n => v.indir(z * Bpz(v), i))
  }

  function SingleZones(v: Volume, z: nat): seq<nat> {
    if z == 0 then [] else Table(v, z, v.nindirs)
  }

  function Singles(v: Volume, zs: seq<nat>): seq<nat> {
    if zs == [] then [] else Singles(v, zs[..|zs| - 1]) + SingleZones(v, zs[|zs| - 1])
  }

  function DoubleZones(v: Volume, z: nat): seq<nat> {
    if z == 0 then [] else Singles(v, Table(v, z, v.nindirs))
  }

  // Direct, single indirect, double indirect.
  function AllZones(v: Volume, f: File): seq<nat>
    requires Fits(v, f)
  {
    f.zones[..v.ndzones] + SingleZones(v, f.zones[v.ndzones]) + DoubleZones(v, f.zones[v.ndzones + 1])
  }

  function Take<T>(s: seq<T>, n: nat): (r: seq<T>)
    ensures |r| == if n <= |s| then n else |s|
  {
    if n <= |s| then s[..n] else s
  }

  lemma TakeAppend<T>(a: seq<T>, b: seq<T>, n: nat)
    ensures Take(a + b, n) == Take(a, n) + Take(b, n - |Take(a, n)|)
  {
  }

  lemma Assoc<T>(a: seq<T>, b: seq<T>, c: seq<T>)
    ensures (a + b) + c == a + (b + c)
  {
  }

  lemma {:induction false} BlocksAppend(v: Volume, a: seq<nat>, b: seq<nat>)
    ensures Blocks(v, a + b) == Blocks(v, a) + Blocks(v, b)
    decreases |b|
  {
    if b == [] {
      assert a + b == a;
    } else {
      var b', z := b[..|b| - 1], ZoneBlocks(v, b[|b| - 1]);
      BlocksAppend(v, a, b');
      assert (a + b)[..|a + b| - 1] == a + b' && (a + b)[|a + b| - 1] == b[|b| - 1];
      assert Blocks(v, a + b) == Blocks(v, a + b') + z;
      Assoc(Blocks(v, a), Blocks(v, b'), z);
    }
  }

  lemma BlocksSnoc(v: Volume, zs: seq<nat>, n: nat)
    requires n < |zs|
    ensures Blocks(v, zs[..n + 1]) == Blocks(v, zs[..n]) + ZoneBlocks(v, zs[n])
  {
    assert zs[..n + 1][..n] == zs[..n];
  }

  // ------------------------------------------------------------------- ranges

  datatype Range = Range(lo: int, hi: int)

  function Expand(r: Range): (s: seq<int>)
    ensures |s| == if r.lo <= r.hi then r.hi - r.lo + 1 else 0
    ensures forall i :: 0 <= i < |s| ==> s[i] == r.lo + i
  {
    seq(if r.lo <= r.hi then r.hi - r.lo + 1 else 0, i => r.lo + i)
  }

  function ExpandAll(rs: seq<Range>): seq<int> {
    if rs == [] then [] else ExpandAll(rs[..|rs| - 1]) + Expand(rs[|rs| - 1])
  }

  // Non-empty ranges, no two neighbours of which could be merged.
  predicate Maximal(rs: seq<Range>) {
    && (forall k :: 0 <= k < |rs| ==> rs[k].lo <= rs[k].hi)
    && (forall k {:trigger rs[k].hi} :: 0 <= k < |rs| - 1 ==> rs[k + 1].lo != rs[k].hi + 1)
  }

  lemma ExpandSnoc(rs: seq<Range>, r: Range)
    ensures ExpandAll(rs + [r]) == ExpandAll(rs) + Expand(r)
  {
    assert (rs + [r])[..|rs|] == rs;
  }

  lemma ExpandLonger(rs: seq<Range>, lo: int, hi: int)
    requires lo <= hi + 1
    ensures ExpandAll(rs + [Range(lo, hi + 1)]) == ExpandAll(rs + [Range(lo, hi)]) + [hi + 1]
  {
    ExpandSnoc(rs, Range(lo, hi));
    ExpandSnoc(rs, Range(lo, hi + 1));
    assert Expand(Range(lo, hi + 1)) == Expand(Range(lo, hi)) + [hi + 1];
    Assoc(ExpandAll(rs), Expand(Range(lo, hi)), [hi + 1]);
  }

  // A block sequence has only one such encoding.
  lemma {:induction false} MaximalUnique(a: seq<Range>, b: seq<Range>)
    requires Maximal(a) && Maximal(b) && ExpandAll(a) == ExpandAll(b)
    ensures a == b
    decreases |a|
  {
    NonEmpty(a);
    NonEmpty(b);
    if a != [] && b != [] {
      var a', b' := a[..|a| - 1], b[..|b| - 1];
      var x, y := a[|a| - 1], b[|b| - 1];
      Gap(a);
      Gap(b);
      NotLonger(ExpandAll(a'), x, ExpandAll(b'), y);
      NotLonger(ExpandAll(b'), y, ExpandAll(a'), x);
      SameCut(ExpandAll(a'), x, ExpandAll(b'), y);
      MaximalUnique(a', b');
      assert a == a' + [x] && b == b' + [y];
    }
  }

  lemma NonEmpty(a: seq<Range>)
    requires Maximal(a)
    ensures ExpandAll(a) == [] <==> a == []
  {
  }

  // What precedes the last range does not run on into it.
  predicate Apart(p: seq<int>, x: Range) { p == [] || p[|p| - 1] != x.lo - 1 }

  lemma Gap(a: seq<Range>)
    requires a != [] && Maximal(a)
    ensures Apart(ExpandAll(a[..|a| - 1]), a[|a| - 1]) && Maximal(a[..|a| - 1])
  {
    var a' := a[..|a| - 1];
    if a' != [] {
      var y := a'[|a'| - 1];
      assert a[|a| - 2] == y;
      assert ExpandAll(a')[|ExpandAll(a')| - 1] == Expand(y)[|Expand(y)| - 1] == y.hi;
    }
  }

  lemma ElementOf(q: seq<int>, y: Range, s: seq<int>, k: nat)
    requires s == q + Expand(y) && |q| <= k < |s|
    ensures s[k] == y.lo + (k - |q|)
  {
  }

  lemma NotLonger(p: seq<int>, x: Range, q: seq<int>, y: Range)
    requires p + Expand(x) == q + Expand(y) && x.lo <= x.hi && y.lo <= y.hi && Apart(p, x)
    ensures |Expand(y)| <= |Expand(x)|
  {
    var s := p + Expand(x);
    if |q| < |p| {
      ElementOf(p, x, s, |p|);
      ElementOf(q, y, s, |p|);
      ElementOf(q, y, s, |p| - 1);
    }
  }

  lemma SameCut(p: seq<int>, x: Range, q: seq<int>, y: Range)
    requires p + Expand(x) == q + Expand(y) && x.lo <= x.hi && y.lo <= y.hi && |Expand(x)| == |Expand(y)|
    ensures p == q && x == y
  {
    var s := p + Expand(x);
    assert p == s[..|p|] == q;
    ElementOf(p, x, s, |p|);
    ElementOf(q, y, s, |p|);
  }

  // rs is the run-length encoding of s.
  ghost predicate Encodes(rs: seq<Range>, s: seq<int>) { Maximal(rs) && ExpandAll(rs) == s }

  lemma NewRange(rs: seq<Range>, s: seq<int>, b: int)
    requires Encodes(rs, s) && (rs != [] ==> b != rs[|rs| - 1].hi + 1)
    ensures Encodes(rs + [Range(b, b)], s + [b])
  {
    ExpandSnoc(rs, Range(b, b));
    assert Expand(Range(b, b)) == [b];
  }

  lemma LongerRange(rs: seq<Range>, r: Range, s: seq<int>)
    requires Encodes(rs + [r], s)
    ensures Encodes(rs + [Range(r.lo, r.hi + 1)], s + [r.hi + 1])
  {
    var a, b := rs + [r], rs + [Range(r.lo, r.hi + 1)];
    assert a[|rs|] == r;
    ExpandLonger(rs, r.lo, r.hi);
    forall k {:trigger b[k].hi} | 0 <= k < |b| - 1
      ensures b[k + 1].lo != b[k].hi + 1 { assert a[k].hi == b[k].hi && a[k + 1].lo == b[k + 1].lo; }
  }

  // -------------------------------------------------------------------- the walk

  class Walker {
    const v: Volume
    var blockCount: nat       // blocks of the file still to come
    var eof: bool
    var startBlock: int       // first block of the range being read
    var lastBlock: int        // last block read
    var printed: seq<Range>
    ghost var visited: seq<int>

    ghost predicate Valid()
      reads this
    {
      && (eof <==> blockCount == 0)
      && (visited == [] ==> startBlock == -1 && lastBlock == -2 && printed == [])
      && (visited != [] ==> 0 <= startBlock && Encodes(printed + [Range(startBlock, lastBlock)], visited))
    }

    constructor (v: Volume)
      ensures Valid() && this.v == v && visited == []
    {
      this.v := v;
      blockCount, eof := 0, true;
      startBlock, lastBlock, printed, visited := -1, -2, [], [];
    }

    // The body of get_dir_zone's loop
    method Visit(b: nat)
      requires Valid() && blockCount > 0
      modifies this
      ensures Valid() && visited == old(visited) + [b] && blockCount == old(blockCount) - 1
    {
      if lastBlock != b - 1 {
        if startBlock != -1 {
          printed := printed + [Range(startBlock, lastBlock)];
        }
        NewRange(printed, visited, b);
        startBlock := b;
      } else {
        LongerRange(printed, Range(startBlock, lastBlock), visited);
      }
      lastBlock := b;
      blockCount := blockCount - 1;
      if blockCount == 0 {
        eof := true;
      }
      visited := visited + [b];
    }

    // get_dir_zone
    method GetDirZone(z: nat)
      requires Valid()
      modifies this
      ensures Valid() && Walked(old(visited), old(blockCount), ZoneBlocks(v, z))
    {
      if blockCount == 0 {
        eof := true;
        assert visited + Take(ZoneBlocks(v, z), 0) == visited;
        return;
      }
      if z == 0 {
        assert visited + Take(ZoneBlocks(v, z), blockCount) == visited;
        return;
      }
      VisitZone(z);
    }

    method VisitZone(z: nat)
      requires Valid() && z != 0 && blockCount > 0
      modifies this
      ensures Valid() && Walked(old(visited), old(blockCount), ZoneBlocks(v, z))
    {
      ghost var zb := ZoneBlocks(v, z);
      assert zb[..0] == [];
      var i, base := 0, z * Bpz(v);
      while i < Bpz(v) && blockCount != 0
        invariant 0 <= i <= Bpz(v) && Valid() && i <= old(blockCount)
        invariant blockCount == old(blockCount) - i && visited == old(visited) + zb[..i]
        invariant |zb| == Bpz(v) && forall k :: 0 <= k < |zb| ==> zb[k] == base + k
        decreases Bpz(v) - i
      {
        assert zb[..i + 1] == zb[..i] + [zb[i]];
        Visit(base + i);
        i := i + 1;
      }
      assert zb[..i] == Take(zb, old(blockCount));
    }

    // From having visited v0 with n blocks to go, as much of bs as fits has been visited.
    ghost predicate Walked(v0: seq<int>, n: nat, bs: seq<nat>)
      reads this
    {
      visited == v0 + Take(bs, n) && blockCount == n - |Take(bs, n)|
    }

    // Going on with more blocks.
    lemma WalkedOn(v0: seq<int>, n: nat, bs: seq<nat>, v1: seq<int>, n1: nat, more: seq<nat>)
      requires v1 == v0 + Take(bs, n) && n1 == n - |Take(bs, n)| && Walked(v1, n1, more)
      ensures Walked(v0, n, bs + more)
    {
      TakeAppend(bs, more, n);
    }

    // Stopping at the end of the file.
    lemma WalkedAll(v0: seq<int>, n: nat, bs: seq<nat>, more: seq<nat>)
      requires Walked(v0, n, bs) && blockCount == 0
      ensures Walked(v0, n, bs + more)
    {
      TakeAppend(bs, more, n);
    }

    // A zone loop has ended: at the end of the file or of the table.
    lemma WalkedEnd(v0: seq<int>, n: nat, bs: seq<nat>, more: seq<nat>, atEnd: bool)
      requires Walked(v0, n, bs) && (blockCount == 0 || atEnd) && (atEnd ==> more == [])
      ensures Walked(v0, n, bs + more)
    {
      if atEnd { assert bs + more == bs; } else { WalkedAll(v0, n, bs, more); }
    }

    // The loop of get_sin_ind_zone, and that over the direct zones: zones one by
    // one until the end of the file.
    method GetZones(zs: seq<nat>)
      requires Valid()
      modifies this
      ensures Valid() && Walked(old(visited), old(blockCount), Blocks(v, zs))
    {
      ghost var v0, n := visited, blockCount;
      var i := 0;
      assert zs[..0] == [];
      while i < |zs| && !eof
        invariant 0 <= i <= |zs| && Valid() && Walked(v0, n, Blocks(v, zs[..i]))
      {
        ghost var v1, n1 := visited, blockCount;
        GetDirZone(zs[i]);
        WalkedOn(v0, n, Blocks(v, zs[..i]), v1, n1, ZoneBlocks(v, zs[i]));
        BlocksSnoc(v, zs, i);
        i := i + 1;
      }
      BlocksAppend(v, zs[..i], zs[i..]);
      assert zs[..i] + zs[i..] == zs;
      WalkedEnd(v0, n, Blocks(v, zs[..i]), Blocks(v, zs[i..]), i == |zs|);
    }

    // get_sin_ind_zone
    method GetSingle(z: nat)
      requires Valid()
      modifies this
      ensures Valid() && Walked(old(visited), old(blockCount), Blocks(v, SingleZones(v, z)))
    {
      if z == 0 {
        assert visited + Take([], blockCount) == visited;
        return;
      }
      GetZones(Table(v, z, v.nindirs));
    }

    // get_dbl_ind_zone
    method GetDouble(z: nat)
      requires Valid()
      modifies this
      ensures Valid() && Walked(old(visited), old(blockCount), Blocks(v, DoubleZones(v, z)))
    {
      if z == 0 {
        assert visited + Take([], blockCount) == visited;
        return;
      }
      ghost var v0, n := visited, blockCount;
      ghost var zs := Table(v, z, v.nindirs);
      var i := 0;
      assert zs[..0] == [];
      while i < v.nindirs && !eof
        invariant 0 <= i <= v.nindirs && Valid() && Walked(v0, n, Blocks(v, Singles(v, zs[..i])))
      {
        ghost var v1, n1 := visited, blockCount;
        GetSingle(v.indir(z * Bpz(v), i));
        WalkedOn(v0, n, Blocks(v, Singles(v, zs[..i])), v1, n1, Blocks(v, SingleZones(v, zs[i])));
        SinglesSnoc(v, zs, i);
        i := i + 1;
      }
      SinglesSplit(v, zs, i);
      WalkedEnd(v0, n, Blocks(v, Singles(v, zs[..i])), Blocks(v, Singles(v, zs[i..])), i == |zs|);
    }

    // The indirect part of fs_get_inode_blocks
    method GetIndirect(f: File)
      requires Valid() && Fits(v, f)
      modifies this
      ensures Valid()
      ensures Walked(old(visited), old(blockCount), Blocks(v, SingleZones(v, f.zones[v.ndzones])) +
            Blocks(v, DoubleZones(v, f.zones[v.ndzones + 1])))
    {
      ghost var b := Blocks(v, SingleZones(v, f.zones[v.ndzones]));
      ghost var c := Blocks(v, DoubleZones(v, f.zones[v.ndzones + 1]));
      ghost var v0, n := visited, blockCount;
      GetSingle(f.zones[v.ndzones]);
      if !eof {
        ghost var v1, n1 := visited, blockCount;
        GetDouble(f.zones[v.ndzones + 1]);
        WalkedOn(v0, n, b, v1, n1, c);
      } else {
        WalkedAll(v0, n, b, c);
      }
    }

    // fs_get_inode_blocks.  For a file none of whose blocks is visited the last
    // statement prints the range from -1 to -2.
    method GetInodeBlocks(f: File)
      requires Fits(v, f)
      modifies this
      ensures var n := BlocksOf(f.size, v.blockSize);
              visited == Take(Blocks(v, AllZones(v, f)), n) && (eof <==> |visited| == n)
      ensures if visited == [] then printed == [Range(-1, -2)] else Encodes(printed, visited)
    {
      startBlock, lastBlock, printed, visited := -1, -2, [], [];
      blockCount := BlocksOf(f.size, v.blockSize);
      eof := blockCount == 0;
      ghost var n := blockCount;
      GetAll(f);
      assert visited == Take(Blocks(v, AllZones(v, f)), n);
      printed := printed + [Range(startBlock, lastBlock)];
      assert [] + [Range(-1, -2)] == [Range(-1, -2)];
    }

    method GetAll(f: File)
      requires Valid() && Fits(v, f)
      modifies this
      ensures Valid() && Walked(old(visited), old(blockCount), Blocks(v, AllZones(v, f)))
    {
      ghost var v0, n, a := visited, blockCount, Blocks(v, f.zones[..v.ndzones]);
      ghost var bc := Blocks(v, SingleZones(v, f.zones[v.ndzones])) + Blocks(v, DoubleZones(v, f.zones[v.ndzones + 1]));
      AllBlocks(v, f);
      GetZones(f.zones[..v.ndzones]);
      if !eof {
        ghost var v1, n1 := visited, blockCount;
        GetIndirect(f);
        WalkedOn(v0, n, a, v1, n1, bc);
      } else {
        WalkedAll(v0, n, a, bc);
      }
    }
  }

  lemma SinglesSplit(v: Volume, zs: seq<nat>, i: nat)
    requires i <= |zs|
    ensures Blocks(v, Singles(v, zs)) == Blocks(v, Singles(v, zs[..i])) + Blocks(v, Singles(v, zs[i..]))
  {
    assert zs == zs[..i] + zs[i..];
    SinglesAppend(v, zs[..i], zs[i..]);
    BlocksAppend(v, Singles(v, zs[..i]), Singles(v, zs[i..]));
  }

  lemma SinglesSnoc(v: Volume, zs: seq<nat>, i: nat)
    requires i < |zs|
    ensures Blocks(v, Singles(v, zs[..i + 1])) == Blocks(v, Singles(v, zs[..i])) + Blocks(v, SingleZones(v, zs[i]))
  {
    assert zs[..i + 1][..i] == zs[..i];
    BlocksAppend(v, Singles(v, zs[..i]), SingleZones(v, zs[i]));
  }

  lemma AllBlocks(v: Volume, f: File)
    requires Fits(v, f)
    ensures Blocks(v, AllZones(v, f)) == Blocks(v, f.zones[..v.ndzones])
              + (Blocks(v, SingleZones(v, f.zones[v.ndzones])) + Blocks(v, DoubleZones(v, f.zones[v.ndzones + 1])))
  {
    var a, b, c := f.zones[..v.ndzones], SingleZones(v, f.zones[v.ndzones]), DoubleZones(v, f.zones[v.ndzones + 1]);
    assert AllZones(v, f) == a + (b + c);
    BlocksAppend(v, a, b + c);
    BlocksAppend(v, b, c);
  }

  lemma {:induction false} SinglesAppend(v: Volume, a: seq<nat>, b: seq<nat>)
    ensures Singles(v, a + b) == Singles(v, a) + Singles(v, b)
    decreases |b|
  {
    if b == [] {
      assert a + b == a;
    } else {
      var b', z := b[..|b| - 1], SingleZones(v, b[|b| - 1]);
      SinglesAppend(v, a, b');
      assert (a + b)[..|a + b| - 1] == a + b' && (a + b)[|a + b| - 1] == b[|b| - 1];
      assert Singles(v, a + b) == Singles(v, a + b') + z;
      Assoc(Singles(v, a), Singles(v, b'), z);
    }
  }
}
