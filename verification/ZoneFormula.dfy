// Where the k-th block of a file without holes is.
module ZoneFormula {
  import opened ZoneWalk
  import Arithmetic

  function Quot(k: nat, b: nat): nat
    requires b > 0
  {
    k / b
  }

  function Rem(k: nat, b: nat): (r: nat)
    requires b > 0
    ensures r < b
  {
    k % b
  }

  lemma QuotRem(k: nat, b: nat)
    requires b > 0
    ensures k == Quot(k, b) * b + Rem(k, b)
  {
  }

  // The j-th zone of a file, by position in the three tables.
  function ZoneOf(v: Volume, f: File, j: nat): nat
    requires Fits(v, f)
  {
    if j < v.ndzones then f.zones[j]
    else if j < v.ndzones + v.nindirs then v.indir(f.zones[v.ndzones] * Bpz(v), j - v.ndzones)
    else if v.nindirs == 0 then 0
    else
      var q := j - v.ndzones - v.nindirs;
      v.indir(v.indir(f.zones[v.ndzones + 1] * Bpz(v), Quot(q, v.nindirs)) * Bpz(v), Rem(q, v.nindirs))
  }

  // The first m zones, and the tables needed to reach them, all exist.
  ghost predicate HoleFree(v: Volume, f: File, m: nat)
    requires Fits(v, f)
  {
    && m <= v.ndzones + v.nindirs + v.nindirs * v.nindirs
    && (forall j: nat :: j < m ==> ZoneOf(v, f, j) != 0)
    && (m > v.ndzones ==> f.zones[v.ndzones] != 0)
    && (m > v.ndzones + v.nindirs ==> f.zones[v.ndzones + 1] != 0)
    && (forall i: nat {:trigger v.indir(f.zones[v.ndzones + 1] * Bpz(v), i)} ::
          v.ndzones + v.nindirs + i * v.nindirs < m ==> v.indir(f.zones[v.ndzones + 1] * Bpz(v), i) != 0)
  }

  lemma {:induction false} SinglesLength(v: Volume, zs: seq<nat>)
    requires forall k :: 0 <= k < |zs| ==> zs[k] != 0
    ensures |Singles(v, zs)| == |zs| * v.nindirs
    decreases |zs|
  {
    if zs != [] {
      SinglesLength(v, zs[..|zs| - 1]);
      Spread(|zs| - 1, v.nindirs);
    }
  }

  lemma Spread(n: int, c: int)
    ensures (n + 1) * c == n * c + c
  {
  }

  lemma AtJoint(p: seq<nat>, q: seq<nat>, s: seq<nat>, n: int, r: nat)
    requires |p| == n && r < |q|
    ensures n + r < |(p + q) + s| && ((p + q) + s)[n + r] == q[r]
  {
  }

  lemma SinglesAt(v: Volume, zs: seq<nat>, i: nat, r: nat)
    requires i < |zs| && r < v.nindirs && forall k :: 0 <= k <= i ==> zs[k] != 0
    ensures i * v.nindirs + r < |Singles(v, zs)| && Singles(v, zs)[i * v.nindirs + r] == v.indir(zs[i] * Bpz(v), r)
  {
    SinglesCut(v, zs, i);
    SinglesLength(v, zs[..i]);
    AtJoint(Singles(v, zs[..i]), Table(v, zs[i], v.nindirs), Singles(v, zs[i + 1..]), i * v.nindirs, r);
  }

  lemma SinglesCut(v: Volume, zs: seq<nat>, i: nat)
    requires i < |zs|
    ensures Singles(v, zs) == (Singles(v, zs[..i]) + SingleZones(v, zs[i])) + Singles(v, zs[i + 1..])
  {
    var a := zs[..i + 1];
    assert zs == a + zs[i + 1..] && a[..i] == zs[..i] && a[i] == zs[i];
    SinglesAppend(v, a, zs[i + 1..]);
  }

  lemma {:induction false} BlocksLength(v: Volume, zs: seq<nat>)
    requires forall k :: 0 <= k < |zs| ==> zs[k] != 0
    ensures |Blocks(v, zs)| == |zs| * Bpz(v)
    decreases |zs|
  {
    if zs != [] {
      BlocksLength(v, zs[..|zs| - 1]);
      Spread(|zs| - 1, Bpz(v));
    }
  }

  lemma BlocksAt(v: Volume, zs: seq<nat>, j: nat, i: nat)
    requires j < |zs| && i < Bpz(v) && forall k :: 0 <= k <= j ==> zs[k] != 0
    ensures j * Bpz(v) + i < |Blocks(v, zs)| && Blocks(v, zs)[j * Bpz(v) + i] == zs[j] * Bpz(v) + i
  {
    BlocksCut(v, zs, j);
    BlocksLength(v, zs[..j]);
    AtJoint(Blocks(v, zs[..j]), ZoneBlocks(v, zs[j]), Blocks(v, zs[j + 1..]), j * Bpz(v), i);
  }

  lemma BlocksCut(v: Volume, zs: seq<nat>, j: nat)
    requires j < |zs|
    ensures Blocks(v, zs) == (Blocks(v, zs[..j]) + ZoneBlocks(v, zs[j])) + Blocks(v, zs[j + 1..])
  {
    var a := zs[..j + 1];
    assert zs == a + zs[j + 1..] && a[..j] == zs[..j] && a[j] == zs[j];
    BlocksAppend(v, a, zs[j + 1..]);
  }

  // Position q of the double indirect part.
  lemma DoubleAt(v: Volume, f: File, m: nat, j: nat)
    requires Fits(v, f) && HoleFree(v, f, m) && v.ndzones + v.nindirs <= j < m
    ensures var q := j - v.ndzones - v.nindirs;
            q < |DoubleZones(v, f.zones[v.ndzones + 1])| && DoubleZones(v, f.zones[v.ndzones + 1])[q] == ZoneOf(v, f, j)
  {
    var z, c := f.zones[v.ndzones + 1], v.nindirs;
    var q := j - v.ndzones - c;
    assert q < c * c;
    if c == 0 { assert false; }
    var i, r := Quot(q, c), Rem(q, c);
    DivBounds(q, c);
    var zs := Table(v, z, c);
    forall k | 0 <= k <= i
      ensures zs[k] != 0
    {
      Arithmetic.Larger(k, i, c);
      assert zs[k] == v.indir(z * Bpz(v), k);
    }
    SinglesAt(v, zs, i, r);
  }

  lemma DivBounds(q: nat, c: nat)
    requires c > 0 && q < c * c
    ensures Quot(q, c) < c && q == Quot(q, c) * c + Rem(q, c)
  {
    QuotRem(q, c);
    if Quot(q, c) >= c { Arithmetic.Larger(c, Quot(q, c), c); }
  }

  lemma ZonesInOrder(v: Volume, f: File, m: nat, j: nat)
    requires Fits(v, f) && HoleFree(v, f, m) && j < m
    ensures j < |AllZones(v, f)| && AllZones(v, f)[j] == ZoneOf(v, f, j)
  {
    if j >= v.ndzones + v.nindirs { DoubleAt(v, f, m, j); }
  }

  // Block k among the blocks of zones without a hole before it.
  lemma BlockOfZones(v: Volume, zs: seq<nat>, k: nat)
    requires Quot(k, Bpz(v)) < |zs| && forall i :: 0 <= i <= Quot(k, Bpz(v)) ==> zs[i] != 0
    ensures k < |Blocks(v, zs)| && Blocks(v, zs)[k] == zs[Quot(k, Bpz(v))] * Bpz(v) + Rem(k, Bpz(v))
  {
    QuotRem(k, Bpz(v));
    BlocksAt(v, zs, Quot(k, Bpz(v)), Rem(k, Bpz(v)));
  }

  lemma NoHolesUpTo(v: Volume, f: File, m: nat, j: nat, zs: seq<nat>)
    requires Fits(v, f) && HoleFree(v, f, m) && j < m && zs == AllZones(v, f)
    ensures j < |zs| && zs[j] == ZoneOf(v, f, j) && forall k :: 0 <= k <= j ==> zs[k] != 0
  {
    ZonesInOrder(v, f, m, j);
    forall k | 0 <= k <= j
      ensures zs[k] != 0
    {
      ZonesInOrder(v, f, m, k);
    }
  }

  // Block k of the file: block k mod b of zone k div b, b being the number of
  // blocks in a zone.
  function BlockAt(v: Volume, f: File, k: nat): nat
    requires Fits(v, f)
  {
    ZoneOf(v, f, Quot(k, Bpz(v))) * Bpz(v) + Rem(k, Bpz(v))
  }

  // For a file without holes that fits the tables, the walk visits as many blocks
  // as the file has, each where the formula says.
  lemma HoleFreeFile(v: Volume, f: File)
    requires Fits(v, f)
    requires HoleFree(v, f, Quot(BlocksOf(f.size, v.blockSize) + Bpz(v) - 1, Bpz(v)))
    ensures var n := BlocksOf(f.size, v.blockSize); var bs := Take(Blocks(v, AllZones(v, f)), n);
            |bs| == n && forall k: nat :: k < n ==> bs[k] == BlockAt(v, f, k)
  {
    var n := BlocksOf(f.size, v.blockSize);
    var bs := Blocks(v, AllZones(v, f));
    forall k: nat | k < n
      ensures k < |bs| && bs[k] == BlockAt(v, f, k)
    {
      KthBlock(v, f, n, k);
    }
    if n > 0 { KthBlock(v, f, n, n - 1); }
  }

  lemma KthBlock(v: Volume, f: File, n: nat, k: nat)
    requires Fits(v, f) && HoleFree(v, f, Quot(n + Bpz(v) - 1, Bpz(v))) && k < n
    ensures k < |Blocks(v, AllZones(v, f))| && Blocks(v, AllZones(v, f))[k] == BlockAt(v, f, k)
  {
    var zs := AllZones(v, f);
    DivBelow(k, n, Bpz(v));
    NoHolesUpTo(v, f, Quot(n + Bpz(v) - 1, Bpz(v)), Quot(k, Bpz(v)), zs);
    BlockOfZones(v, zs, k);
  }

  lemma DivBelow(k: nat, n: nat, b: nat)
    requires b > 0 && k < n
    ensures Quot(k, b) < Quot(n + b - 1, b)
  {
    var q, p := Quot(k, b), Quot(n + b - 1, b);
    QuotRem(k, b);
    QuotRem(n + b - 1, b);
    if p <= q { Arithmetic.Larger(p, q, b); }
  }
}
