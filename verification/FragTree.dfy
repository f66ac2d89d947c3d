// The fragmentation walk against the tree that is on the disk: which directory
// blocks it reads, which entries it follows, and when it visits the whole tree.
module FragTree {
  import opened ZoneWalk
  import opened FragWalk
  import opened FragLaws

  // ----------------------------------------------------- the blocks of a directory

  function StepBlocks(steps: seq<Step>): seq<nat> {
    if steps == [] then []
    else (match steps[0] case Zone => [] case Block(b) => [b]) + StepBlocks(steps[1..])
  }

  function BlockNo(v: Volume, z: nat, i: nat): nat { z * Pow2(v.scale + i) }

  // The first k blocks of zone z as the walk numbers them.
  function ReadOf(v: Volume, z: nat, k: nat): (r: seq<nat>)
    ensures |r| == k && forall i :: 0 <= i < k ==> r[i] == BlockNo(v, z, i)
  {
    seq<nat>(k, i requires 0 <= i < k => BlockNo(v, z, i))
  }

  // The blocks read of the zones zs, at most cnt.
  function WalkBlocks(d: Disk, zs: seq<nat>, cnt: nat): (r: seq<nat>)
    ensures |r| <= cnt
    decreases |zs|
  {
    if zs == [] || cnt == 0 then []
    else
      var k := Reads(d, zs[0], cnt);
      ReadOf(d.v, zs[0], k) + WalkBlocks(d, zs[1..], cnt - k)
  }

  lemma {:induction false} StepBlocksAppend(a: seq<Step>, b: seq<Step>)
    ensures StepBlocks(a + b) == StepBlocks(a) + StepBlocks(b)
    decreases |a|
  {
    if a == [] {
      assert a + b == b;
    } else {
      assert (a + b)[1..] == a[1..] + b;
      StepBlocksAppend(a[1..], b);
    }
  }

  lemma {:induction false} ZoneReadsBlocks(d: Disk, z: nat, k: nat)
    ensures StepBlocks(ZoneReads(d, z, k)) == ReadOf(d.v, z, k)
    decreases k
  {
    if k > 0 {
      var b := Block(z * Pow2(d.v.scale + (k - 1)));
      ZoneReadsBlocks(d, z, k - 1);
      assert ZoneReads(d, z, k) == ZoneReads(d, z, k - 1) + [b];
      StepBlocksAppend(ZoneReads(d, z, k - 1), [b]);
      assert [b][1..] == [] && StepBlocks([b]) == [b.b];
      assert ReadOf(d.v, z, k) == ReadOf(d.v, z, k - 1) + [b.b];
    }
  }

  lemma {:induction false} WalkAppend(d: Disk, a: seq<nat>, b: seq<nat>, cnt: nat)
    ensures WalkBlocks(d, a + b, cnt) == WalkBlocks(d, a, cnt) + WalkBlocks(d, b, cnt - |WalkBlocks(d, a, cnt)|)
    decreases |a|
  {
    if a == [] {
      assert a + b == b;
    } else if cnt > 0 {
      var k := Reads(d, a[0], cnt);
      WalkAppend(d, a[1..], b, cnt - k);
      WalkFirst(d, a, b, cnt, k);
    }
  }

  lemma WalkFirst(d: Disk, a: seq<nat>, b: seq<nat>, cnt: nat, k: nat)
    requires a != [] && cnt > 0 && k == Reads(d, a[0], cnt)
    ensures WalkBlocks(d, a + b, cnt) == ReadOf(d.v, a[0], k) + WalkBlocks(d, a[1..] + b, cnt - k)
    ensures WalkBlocks(d, a, cnt) == ReadOf(d.v, a[0], k) + WalkBlocks(d, a[1..], cnt - k)
  {
    assert (a + b)[1..] == a[1..] + b && (a + b)[0] == a[0];
  }

  lemma WalkHead(d: Disk, zs: seq<nat>, i: nat, cnt: nat)
    requires i < |zs| && cnt > 0
    ensures var k := Reads(d, zs[i], cnt);
            WalkBlocks(d, zs[i..], cnt) == ReadOf(d.v, zs[i], k) + WalkBlocks(d, zs[i + 1..], cnt - k)
  {
    assert zs[i..][0] == zs[i] && zs[i..][1..] == zs[i + 1..];
  }

  lemma {:induction false} DirectBlocks(d: Disk, zs: seq<nat>, i: nat, cnt: nat)
    requires i <= |zs|
    ensures StepBlocks(Direct(d, zs, i, cnt)) == WalkBlocks(d, zs[i..], cnt)
    decreases |zs| - i
  {
    if i < |zs| && cnt > 0 {
      var k := Reads(d, zs[i], cnt);
      var rest := Direct(d, zs, i + 1, cnt - k);
      WalkHead(d, zs, i, cnt);
      DirectBlocks(d, zs, i + 1, cnt - k);
      ZoneReadsBlocks(d, zs[i], k);
      StepBlocksAppend(ZoneReads(d, zs[i], k), rest);
      assert ([Zone] + (ZoneReads(d, zs[i], k) + rest))[1..] == ZoneReads(d, zs[i], k) + rest;
    }
  }

  lemma {:induction false} ListedBlocks(d: Disk, zs: seq<nat>, i: nat, cnt: nat)
    requires i <= |zs|
    ensures StepBlocks(Listed(d, zs, i, cnt)) == WalkBlocks(d, zs[i..], cnt)
    decreases |zs| - i
  {
    if i < |zs| && cnt > 0 {
      var k := Reads(d, zs[i], cnt);
      WalkHead(d, zs, i, cnt);
      ListedBlocks(d, zs, i + 1, cnt - k);
      ZoneReadsBlocks(d, zs[i], k);
      StepBlocksAppend(ZoneReads(d, zs[i], k), Listed(d, zs, i + 1, cnt - k));
    }
  }

  lemma {:induction false} LeftIs(d: Disk, zs: seq<nat>, i: nat, cnt: nat)
    requires i <= |zs|
    ensures LeftOver(d, zs, i, cnt) == cnt - |WalkBlocks(d, zs[i..], cnt)|
    decreases |zs| - i
  {
    if i < |zs| && cnt > 0 {
      WalkHead(d, zs, i, cnt);
      LeftIs(d, zs, i + 1, cnt - Reads(d, zs[i], cnt));
    }
  }

  lemma SinglesHead(v: Volume, zs: seq<nat>, i: nat)
    requires i < |zs|
    ensures Singles(v, zs[i..]) == SingleZones(v, zs[i]) + Singles(v, zs[i + 1..])
  {
    assert zs[i..] == [zs[i]] + zs[i + 1..];
    SinglesAppend(v, [zs[i]], zs[i + 1..]);
    assert [zs[i]][..0] == [];
    assert Singles(v, [zs[i]]) == SingleZones(v, zs[i]);
  }

  lemma LeftAll(d: Disk, zs: seq<nat>, cnt: nat)
    ensures LeftOver(d, zs, 0, cnt) == cnt - |WalkBlocks(d, zs, cnt)|
    ensures StepBlocks(Listed(d, zs, 0, cnt)) == WalkBlocks(d, zs, cnt)
    ensures StepBlocks(Direct(d, zs, 0, cnt)) == WalkBlocks(d, zs, cnt)
  {
    assert zs[0..] == zs;
    LeftIs(d, zs, 0, cnt);
    ListedBlocks(d, zs, 0, cnt);
    DirectBlocks(d, zs, 0, cnt);
  }

  lemma {:induction false} NestedBlocks(d: Disk, zs: seq<nat>, i: nat, cnt: nat)
    requires i <= |zs|
    ensures StepBlocks(Nested(d, zs, i, cnt)) == WalkBlocks(d, Singles(d.v, zs[i..]), cnt)
    decreases |zs| - i
  {
    if i < |zs| && cnt > 0 {
      var inner := SingleZones(d.v, zs[i]);
      NestedBlocks(d, zs, i + 1, LeftOver(d, inner, 0, cnt));
      ThenBlocks(d, inner, Nested(d, zs, i + 1, LeftOver(d, inner, 0, cnt)), Singles(d.v, zs[i + 1..]), cnt);
      SinglesHead(d.v, zs, i);
    } else if i == |zs| {
      assert zs[i..] == [];
    }
  }

  // Listed zones, then steps that read the blocks of `more`
  lemma ThenBlocks(d: Disk, zs: seq<nat>, rest: seq<Step>, more: seq<nat>, cnt: nat)
    requires StepBlocks(rest) == WalkBlocks(d, more, LeftOver(d, zs, 0, cnt))
    ensures StepBlocks(Listed(d, zs, 0, cnt) + rest) == WalkBlocks(d, zs + more, cnt)
  {
    LeftAll(d, zs, cnt);
    StepBlocksAppend(Listed(d, zs, 0, cnt), rest);
    WalkAppend(d, zs, more, cnt);
  }

  lemma DirectThenBlocks(d: Disk, zs: seq<nat>, rest: seq<Step>, more: seq<nat>, cnt: nat)
    requires StepBlocks(rest) == WalkBlocks(d, more, LeftOver(d, zs, 0, cnt))
    ensures StepBlocks(Direct(d, zs, 0, cnt) + rest) == WalkBlocks(d, zs + more, cnt)
  {
    LeftAll(d, zs, cnt);
    StepBlocksAppend(Direct(d, zs, 0, cnt), rest);
    WalkAppend(d, zs, more, cnt);
  }

  predicate Readable(d: Disk, n: nat) { d.v.blockSize > 0 && Fits(d.v, d.inode(n).file) }

  function BlockCount(d: Disk, n: nat): nat
    requires Readable(d, n)
  {
    BlocksOf(d.inode(n).file.size, d.v.blockSize)
  }

  // The directory walk goes through the zones in the order of the file walk.
  lemma DirBlocks(d: Disk, n: nat)
    requires Readable(d, n)
    ensures StepBlocks(DirSteps(d, n)) == WalkBlocks(d, AllZones(d.v, d.inode(n).file), BlockCount(d, n))
  {
    var f := d.inode(n).file;
    DoubleIs(d.v, f.zones[d.v.ndzones + 1]);
    ZonesBlocks(d, f.zones[..d.v.ndzones], SingleZones(d.v, f.zones[d.v.ndzones]),
      SingleZones(d.v, f.zones[d.v.ndzones + 1]), BlockCount(d, n));
  }

  lemma DoubleIs(v: Volume, z: nat)
    ensures Singles(v, SingleZones(v, z)) == DoubleZones(v, z)
  {
  }

  lemma ZonesBlocks(d: Disk, direct: seq<nat>, single: seq<nat>, tables: seq<nat>, cnt: nat)
    ensures StepBlocks(ZoneSteps(d, direct, single, tables, cnt)) ==
              WalkBlocks(d, direct + single + Singles(d.v, tables), cnt)
  {
    var rest := LeftOver(d, direct, 0, cnt);
    var nested := Nested(d, tables, 0, LeftOver(d, single, 0, rest));
    assert tables[0..] == tables;
    NestedBlocks(d, tables, 0, LeftOver(d, single, 0, rest));
    ThenBlocks(d, single, nested, Singles(d.v, tables), rest);
    DirectThenBlocks(d, direct, Listed(d, single, 0, rest) + nested, single + Singles(d.v, tables), cnt);
    assert direct + single + Singles(d.v, tables) == direct + (single + Singles(d.v, tables));
  }

  // The blocks a directory has, as the file walk visits them.
  function OwnBlocks(d: Disk, n: nat): seq<nat>
    requires Readable(d, n)
  {
    Take(Blocks(d.v, AllZones(d.v, d.inode(n).file)), BlockCount(d, n))
  }

  lemma BlocksHead(v: Volume, zs: seq<nat>, cnt: nat)
    requires zs != []
    ensures Blocks(v, zs) == ZoneBlocks(v, zs[0]) + Blocks(v, zs[1..])
    ensures var a := Take(ZoneBlocks(v, zs[0]), cnt);
            Take(Blocks(v, zs), cnt) == a + Take(Blocks(v, zs[1..]), cnt - |a|)
  {
    assert zs == [zs[0]] + zs[1..];
    BlocksAppend(v, [zs[0]], zs[1..]);
    assert [zs[0]][..0] == [];
    assert Blocks(v, [zs[0]]) == ZoneBlocks(v, zs[0]);
    TakeAppend(ZoneBlocks(v, zs[0]), Blocks(v, zs[1..]), cnt);
  }

  // A zone is read right unless a block past its first is.
  lemma ZoneRight(v: Volume, z: nat, k: nat)
    requires z > 0 && 0 < k <= Bpz(v)
    ensures |Take(ZoneBlocks(v, z), k)| == k
    ensures if k == 1 then ReadOf(v, z, k) == Take(ZoneBlocks(v, z), k)
            else ReadOf(v, z, k)[1] != Take(ZoneBlocks(v, z), k)[1]
  {
    RightBlockIff(v, z, if k == 1 then 0 else 1);
  }

  lemma NoScale(v: Volume)
    ensures v.scale == 0 <==> Bpz(v) == 1
  {
  }

  lemma {:induction false} AsManyBlocks(d: Disk, zs: seq<nat>, cnt: nat)
    ensures |WalkBlocks(d, zs, cnt)| == |Take(Blocks(d.v, zs), cnt)|
    decreases |zs|
  {
    if zs != [] && cnt > 0 {
      var k := Reads(d, zs[0], cnt);
      AsManyBlocks(d, zs[1..], cnt - k);
      BlocksHead(d.v, zs, cnt);
      assert |Take(ZoneBlocks(d.v, zs[0]), cnt)| == k;
    }
  }

  lemma {:induction false} ZonesRightIff(d: Disk, zs: seq<nat>, cnt: nat)
    ensures WalkBlocks(d, zs, cnt) == Take(Blocks(d.v, zs), cnt) <==> ZonesAligned(d.v, zs, cnt)
    decreases |zs|
  {
    if zs != [] && cnt > 0 {
      if zs[0] == 0 {
        ZonesRightIff(d, zs[1..], cnt);
        HoleThenRest(d, zs, cnt);
      } else {
        ZonesRightIff(d, zs[1..], cnt - Reads(d, zs[0], cnt));
        ZoneThenRest(d, zs, cnt, Reads(d, zs[0], cnt));
        AlignedHead(d, zs, cnt, Reads(d, zs[0], cnt));
      }
    }
  }

  lemma AlignedHead(d: Disk, zs: seq<nat>, cnt: nat, k: nat)
    requires zs != [] && cnt > 0 && zs[0] != 0 && k == Reads(d, zs[0], cnt)
    ensures ZonesAligned(d.v, zs, cnt) <==> k == 1 && ZonesAligned(d.v, zs[1..], cnt - k)
  {
    NoScale(d.v);
    BlocksHead(d.v, zs, cnt);
  }

  // A zone is one block, or there is at most one block to read.
  predicate ZonesAligned(v: Volume, zs: seq<nat>, cnt: nat) {
    v.scale == 0 || cnt <= 1 || Blocks(v, zs) == []
  }

  lemma HoleThenRest(d: Disk, zs: seq<nat>, cnt: nat)
    requires zs != [] && zs[0] == 0
    ensures Blocks(d.v, zs) == Blocks(d.v, zs[1..]) && WalkBlocks(d, zs, cnt) == WalkBlocks(d, zs[1..], cnt)
  {
    BlocksHead(d.v, zs, cnt);
    HoleWalked(d, zs, cnt);
  }

  lemma HoleWalked(d: Disk, zs: seq<nat>, cnt: nat)
    requires zs != [] && zs[0] == 0
    ensures WalkBlocks(d, zs, cnt) == WalkBlocks(d, zs[1..], cnt)
  {
    if cnt > 0 {
      var rest := WalkBlocks(d, zs[1..], cnt);
      assert Reads(d, zs[0], cnt) == 0 && ReadOf(d.v, zs[0], 0) == [];
      assert [] + rest == rest;
    }
  }

  lemma ZoneThenRest(d: Disk, zs: seq<nat>, cnt: nat, k: nat)
    requires zs != [] && cnt > 0 && zs[0] != 0 && k == Reads(d, zs[0], cnt)
    ensures WalkBlocks(d, zs, cnt) == Take(Blocks(d.v, zs), cnt) <==>
              k == 1 && WalkBlocks(d, zs[1..], cnt - k) == Take(Blocks(d.v, zs[1..]), cnt - k)
  {
    BlocksHead(d.v, zs, cnt);
    ZoneRight(d.v, zs[0], k);
    assert Take(ZoneBlocks(d.v, zs[0]), cnt) == Take(ZoneBlocks(d.v, zs[0]), k);
    FirstDecides(ReadOf(d.v, zs[0], k), WalkBlocks(d, zs[1..], cnt - k),
      Take(ZoneBlocks(d.v, zs[0]), k), Take(Blocks(d.v, zs[1..]), cnt - k), k);
  }

  // Two readings of a zone and what follows, where the zone's are of length k and
  // differ at the second block if there is one
  lemma FirstDecides(a: seq<nat>, x: seq<nat>, b: seq<nat>, y: seq<nat>, k: nat)
    requires |a| == |b| == k > 0 && (if k == 1 then a == b else a[1] != b[1])
    ensures a + x == b + y <==> k == 1 && x == y
  {
    if k == 1 {
      SameHead(a, x, y);
    } else {
      assert (a + x)[1] == a[1] && (b + y)[1] == b[1];
    }
  }

  // The directory walk reads the blocks the file walk visits exactly when a zone
  // is one block, or there is at most one block to read.
  lemma AlignedIff(d: Disk, n: nat)
    requires Readable(d, n)
    ensures StepBlocks(DirSteps(d, n)) == OwnBlocks(d, n) <==> Aligned(d, n)
  {
    DirBlocks(d, n);
    ZonesRightIff(d, AllZones(d.v, d.inode(n).file), BlockCount(d, n));
  }

  predicate Aligned(d: Disk, n: nat)
    requires Readable(d, n)
  {
    ZonesAligned(d.v, AllZones(d.v, d.inode(n).file), BlockCount(d, n))
  }

  // ---------------------------------------------------------------- its entries

  function KeptIn(d: Disk, n: nat, bs: seq<nat>): seq<nat> {
    if bs == [] then [] else Kept(d, n, bs[0]) + KeptIn(d, n, bs[1..])
  }

  // The entries the walk follows from n.
  function Followed(d: Disk, n: nat): seq<nat> {
    if Readable(d, n) && d.inode(n).isDir then KeptIn(d, n, StepBlocks(DirSteps(d, n))) else []
  }

  function NamedIn(d: Disk, n: nat, bs: seq<nat>): seq<nat> {
    if bs == [] then [] else KeptOf(d.entries(bs[0]), n) + NamedIn(d, n, bs[1..])
  }

  // The children of n on the disk: the entries of its own blocks, less "." and
  // ".." at the start of the first.
  function Children(d: Disk, n: nat): seq<nat> {
    if Readable(d, n) && d.inode(n).isDir && OwnBlocks(d, n) != [] then
      Kept(d, n, OwnBlocks(d, n)[0]) + NamedIn(d, n, OwnBlocks(d, n)[1..])
    else []
  }

  lemma {:induction false} KeptOfAppend(a: seq<nat>, b: seq<nat>, n: nat)
    ensures KeptOf(a + b, n) == KeptOf(a, n) + KeptOf(b, n)
    decreases |a|
  {
    if a == [] {
      assert a + b == b;
    } else {
      assert (a + b)[1..] == a[1..] + b;
      KeptOfAppend(a[1..], b, n);
    }
  }

  lemma {:induction false} NotSelf(es: seq<nat>, n: nat)
    ensures n !in KeptOf(es, n)
    decreases |es|
  {
    if es != [] {
      NotSelf(es[1..], n);
    }
  }

  // The children named in the two entries of a block that are passed over
  function Passed(d: Disk, n: nat, b: nat): seq<nat> { KeptOf(Take(d.entries(b), 2), n) }

  lemma PassedOver(d: Disk, n: nat, b: nat)
    ensures KeptOf(d.entries(b), n) == Passed(d, n, b) + Kept(d, n, b)
  {
    var es := d.entries(b);
    if |es| > 2 {
      assert es == es[..2] + es[2..];
      KeptOfAppend(es[..2], es[2..], n);
    } else {
      assert Take(es, 2) == es;
    }
  }

  // No child is named in the first two entries of any of these blocks.
  predicate NonePassed(d: Disk, n: nat, bs: seq<nat>) {
    bs != [] ==> Passed(d, n, bs[0]) == [] && NonePassed(d, n, bs[1..])
  }

  lemma {:induction false} NonePassedIff(d: Disk, n: nat, bs: seq<nat>)
    ensures |KeptIn(d, n, bs)| <= |NamedIn(d, n, bs)|
    ensures KeptIn(d, n, bs) == NamedIn(d, n, bs) <==> NonePassed(d, n, bs)
    decreases |bs|
  {
    if bs != [] {
      NonePassedIff(d, n, bs[1..]);
      PassedOver(d, n, bs[0]);
      Prefixed(Passed(d, n, bs[0]), Kept(d, n, bs[0]), KeptIn(d, n, bs[1..]), NamedIn(d, n, bs[1..]));
    }
  }

  lemma Prefixed(p: seq<nat>, a: seq<nat>, b: seq<nat>, c: seq<nat>)
    requires |b| <= |c|
    ensures a + b == (p + a) + c <==> p == [] && b == c
  {
    if p == [] {
      assert p + a == a;
      SameHead(a, b, c);
    }
  }

  lemma SameHead(a: seq<nat>, b: seq<nat>, c: seq<nat>)
    ensures a + b == a + c <==> b == c
  {
    if a + b == a + c {
      assert b == (a + b)[|a|..] == (a + c)[|a|..] == c;
    }
  }

  // A directory whose blocks are read right is followed right exactly when no
  // child is named in the first two entries of a block after the first.
  lemma FollowedIff(d: Disk, n: nat)
    requires Readable(d, n) && d.inode(n).isDir && Aligned(d, n)
    ensures Followed(d, n) == Children(d, n) <==> OwnBlocks(d, n) == [] || NonePassed(d, n, OwnBlocks(d, n)[1..])
  {
    AlignedIff(d, n);
    var bs := OwnBlocks(d, n);
    if bs != [] {
      NonePassedIff(d, n, bs[1..]);
      SameHead(Kept(d, n, bs[0]), KeptIn(d, n, bs[1..]), NamedIn(d, n, bs[1..]));
    }
  }

  lemma OneBlockFollowed(d: Disk, n: nat)
    requires Readable(d, n) && (d.inode(n).isDir ==> BlockCount(d, n) <= 1)
    ensures Followed(d, n) == Children(d, n)
  {
    if d.inode(n).isDir {
      FollowedIff(d, n);
    }
  }

  // ---------------------------------------------------------------------- trees

  datatype Tree = Node(ino: nat, kids: seq<Tree>)

  ghost predicate Falling(kids: nat -> seq<nat>, rank: nat -> nat) {
    forall m: nat {:trigger kids(m)} :: rank(m) > 0 ==> KidsLower(rank, m, kids(m))
  }

  ghost function TreeOf(kids: nat -> seq<nat>, rank: nat -> nat, n: nat): Tree
    requires Falling(kids, rank) && rank(n) > 0
    decreases rank(n), 1, 0
  {
    assert KidsLower(rank, n, kids(n));
    Node(n, ForestOf(kids, rank, n, kids(n)))
  }

  ghost function ForestOf(kids: nat -> seq<nat>, rank: nat -> nat, n: nat, ks: seq<nat>): (r: seq<Tree>)
    requires Falling(kids, rank) && KidsLower(rank, n, ks)
    ensures |r| == |ks| && forall i :: 0 <= i < |r| ==> r[i].ino == ks[i]
    decreases rank(n), 0, |ks|
  {
    if ks == [] then [] else [TreeOf(kids, rank, ks[0])] + ForestOf(kids, rank, n, ks[1..])
  }

  // The inodes of a tree, each directory before what is in it.
  ghost function Members(t: Tree): seq<nat>
    decreases t, 0
  {
    [t.ino] + AllMembers(t.kids)
  }

  ghost function AllMembers(ts: seq<Tree>): seq<nat>
    decreases ts, |ts|
  {
    if ts == [] then [] else Members(ts[0]) + AllMembers(ts[1..])
  }

  ghost predicate SameKids(k1: nat -> seq<nat>, k2: nat -> seq<nat>, ms: seq<nat>) {
    forall i :: 0 <= i < |ms| ==> k1(ms[i]) == k2(ms[i])
  }

  lemma SameKidsAppend(k1: nat -> seq<nat>, k2: nat -> seq<nat>, a: seq<nat>, b: seq<nat>)
    ensures SameKids(k1, k2, a + b) <==> SameKids(k1, k2, a) && SameKids(k1, k2, b)
  {
    if SameKids(k1, k2, a + b) {
      forall i | 0 <= i < |a| ensures k1(a[i]) == k2(a[i]) { assert (a + b)[i] == a[i]; }
      forall i | 0 <= i < |b| ensures k1(b[i]) == k2(b[i]) { assert (a + b)[|a| + i] == b[i]; }
    }
  }

  lemma InosOf(a: seq<Tree>, ka: seq<nat>, b: seq<Tree>, kb: seq<nat>)
    requires |a| == |ka| && forall i :: 0 <= i < |a| ==> a[i].ino == ka[i]
    requires |b| == |kb| && forall i :: 0 <= i < |b| ==> b[i].ino == kb[i]
    ensures a == b ==> ka == kb
  {
  }

  // Two trees are the same exactly when every member of one has the same
  // children in both.
  lemma {:induction false} TreesEqualIff(
      k1: nat -> seq<nat>, r1: nat -> nat, k2: nat -> seq<nat>, r2: nat -> nat, n: nat)
    requires Falling(k1, r1) && Falling(k2, r2) && r1(n) > 0 && r2(n) > 0
    ensures TreeOf(k1, r1, n) == TreeOf(k2, r2, n) <==> SameKids(k1, k2, Members(TreeOf(k2, r2, n)))
    decreases r2(n), 1, 0
  {
    assert KidsLower(r1, n, k1(n)) && KidsLower(r2, n, k2(n));
    var t1, t2 := TreeOf(k1, r1, n), TreeOf(k2, r2, n);
    SameKidsAppend(k1, k2, [n], AllMembers(t2.kids));
    if k1(n) == k2(n) {
      ForestsEqualIff(k1, r1, n, k2, r2, n, k2(n));
      assert SameKids(k1, k2, [n]);
    } else {
      assert [n][0] == n;
      assert !SameKids(k1, k2, [n]);
      InosOf(t1.kids, k1(n), t2.kids, k2(n));
    }
  }

  lemma {:induction false} ForestsEqualIff(
      k1: nat -> seq<nat>, r1: nat -> nat, n1: nat, k2: nat -> seq<nat>, r2: nat -> nat, n2: nat, ks: seq<nat>)
    requires Falling(k1, r1) && Falling(k2, r2) && KidsLower(r1, n1, ks) && KidsLower(r2, n2, ks)
    ensures ForestOf(k1, r1, n1, ks) == ForestOf(k2, r2, n2, ks) <==>
              SameKids(k1, k2, AllMembers(ForestOf(k2, r2, n2, ks)))
    decreases r2(n2), 0, |ks|
  {
    if ks != [] {
      var f1, f2 := ForestOf(k1, r1, n1, ks), ForestOf(k2, r2, n2, ks);
      TreesEqualIff(k1, r1, k2, r2, ks[0]);
      ForestsEqualIff(k1, r1, n1, k2, r2, n2, ks[1..]);
      assert f1[1..] == ForestOf(k1, r1, n1, ks[1..]) && f2[1..] == ForestOf(k2, r2, n2, ks[1..]);
      SameKidsAppend(k1, k2, Members(f2[0]), AllMembers(f2[1..]));
      assert f1 == [f1[0]] + f1[1..] && f2 == [f2[0]] + f2[1..];
    }
  }

  // ------------------------------------------------------------ the walk's own tree

  function NodesIn(seen: seq<Seen>): seq<nat> {
    if seen == [] then []
    else NodesIn(seen[..|seen| - 1]) + (if seen[|seen| - 1].ZoneSeen? then [] else [seen[|seen| - 1].ino])
  }

  lemma {:induction false} NodesAppend(a: seq<Seen>, b: seq<Seen>)
    ensures NodesIn(a + b) == NodesIn(a) + NodesIn(b)
    decreases |b|
  {
    if b == [] {
      assert a + b == a;
    } else {
      assert (a + b)[..|a + b| - 1] == a + b[..|b| - 1];
      NodesAppend(a, b[..|b| - 1]);
    }
  }

  lemma NodesOne(s: Seen)
    ensures NodesIn([s]) == if s.ZoneSeen? then [] else [s.ino]
  {
    assert [s][..0] == [];
  }

  lemma {:induction false} LowerParts(rank: nat -> nat, n: nat, a: seq<nat>, b: seq<nat>)
    ensures KidsLower(rank, n, a + b) <==> KidsLower(rank, n, a) && KidsLower(rank, n, b)
    decreases |a|
  {
    if a == [] {
      assert a + b == b;
    } else {
      assert (a + b)[1..] == a[1..] + b;
      LowerParts(rank, n, a[1..], b);
    }
  }

  lemma {:induction false} StepsLower(d: Disk, rank: nat -> nat, n: nat, steps: seq<Step>)
    requires AllLower(d, rank, n, steps)
    ensures KidsLower(rank, n, KeptIn(d, n, StepBlocks(steps)))
    decreases |steps|
  {
    if steps != [] {
      StepsLower(d, rank, n, steps[1..]);
      if steps[0].Block? {
        var b := steps[0].b;
        assert StepBlocks(steps)[1..] == StepBlocks(steps[1..]);
        LowerParts(rank, n, Kept(d, n, b), KeptIn(d, n, StepBlocks(steps[1..])));
      } else {
        assert StepBlocks(steps) == StepBlocks(steps[1..]);
      }
    }
  }

  function Walks(d: Disk): nat -> seq<nat> { n => Followed(d, n) }

  function Names(d: Disk): nat -> seq<nat> { n => Children(d, n) }

  lemma WalkFalls(d: Disk, rank: nat -> nat)
    requires Ranked(d, rank)
    ensures Falling(Walks(d), rank)
  {
    forall m: nat | rank(m) > 0
      ensures KidsLower(rank, m, Walks(d)(m))
    {
      assert Sound(d, rank, m);
      if d.inode(m).isDir {
        StepsLower(d, rank, m, DirSteps(d, m));
      }
    }
  }

  ghost function WalkTree(d: Disk, rank: nat -> nat, n: nat): Tree
    requires Ranked(d, rank) && rank(n) > 0
  {
    WalkFalls(d, rank);
    TreeOf(Walks(d), rank, n)
  }

  lemma {:induction false} ForestAppend(kids: nat -> seq<nat>, rank: nat -> nat, n: nat, a: seq<nat>, b: seq<nat>)
    requires Falling(kids, rank) && KidsLower(rank, n, a) && KidsLower(rank, n, b)
    ensures KidsLower(rank, n, a + b)
    ensures AllMembers(ForestOf(kids, rank, n, a + b)) ==
              AllMembers(ForestOf(kids, rank, n, a)) + AllMembers(ForestOf(kids, rank, n, b))
    decreases |a|
  {
    LowerParts(rank, n, a, b);
    if a == [] {
      assert a + b == b;
    } else {
      assert (a + b)[1..] == a[1..] + b && (a + b)[0] == a[0];
      ForestAppend(kids, rank, n, a[1..], b);
      ForestHead(kids, rank, n, a);
      ForestHead(kids, rank, n, a + b);
      ZoneWalk.Assoc(Members(TreeOf(kids, rank, a[0])), AllMembers(ForestOf(kids, rank, n, a[1..])),
        AllMembers(ForestOf(kids, rank, n, b)));
    }
  }

  lemma ForestHead(kids: nat -> seq<nat>, rank: nat -> nat, n: nat, ks: seq<nat>)
    requires Falling(kids, rank) && KidsLower(rank, n, ks) && ks != []
    ensures AllMembers(ForestOf(kids, rank, n, ks)) ==
              Members(TreeOf(kids, rank, ks[0])) + AllMembers(ForestOf(kids, rank, n, ks[1..]))
  {
    var f := ForestOf(kids, rank, n, ks);
    assert f[0] == TreeOf(kids, rank, ks[0]) && f[1..] == ForestOf(kids, rank, n, ks[1..]);
  }

  // What the walk sees are the members of its tree, in order.
  lemma {:induction false} VisitsTree(d: Disk, rank: nat -> nat, n: nat)
    requires Ranked(d, rank) && rank(n) > 0
    ensures NodesIn(Trace(d, rank, n)) == Members(WalkTree(d, rank, n))
    decreases rank(n), 2, 0
  {
    WalkFalls(d, rank);
    assert Sound(d, rank, n);
    assert KidsLower(rank, n, Walks(d)(n));
    if d.inode(n).isDir {
      var s := DirSeen(d.inode(n).file.size, Turns(DirSteps(d, n)), n);
      NodesOne(s);
      NodesAppend([s], StepsTrace(d, rank, n, DirSteps(d, n)));
      StepsVisit(d, rank, n, DirSteps(d, n));
    } else {
      NodesOne(FileSeen(d.inode(n).file.size, n));
    }
  }

  lemma {:induction false} StepsVisit(d: Disk, rank: nat -> nat, n: nat, steps: seq<Step>)
    requires Ranked(d, rank) && AllLower(d, rank, n, steps)
    ensures Falling(Walks(d), rank) && KidsLower(rank, n, KeptIn(d, n, StepBlocks(steps)))
    ensures NodesIn(StepsTrace(d, rank, n, steps)) ==
              AllMembers(ForestOf(Walks(d), rank, n, KeptIn(d, n, StepBlocks(steps))))
    decreases rank(n), 1, |steps|
  {
    WalkFalls(d, rank);
    StepsLower(d, rank, n, steps);
    if steps != [] {
      KidsHead(d, n, steps);
      LowerParts(rank, n, StepKids(d, n, steps[0]), KeptIn(d, n, StepBlocks(steps[1..])));
      StepsVisit(d, rank, n, steps[1..]);
      StepVisit(d, rank, n, steps[0]);
      NodesAppend(StepTrace(d, rank, n, steps[0]), StepsTrace(d, rank, n, steps[1..]));
      ForestAppend(Walks(d), rank, n, StepKids(d, n, steps[0]), KeptIn(d, n, StepBlocks(steps[1..])));
    }
  }

  function StepKids(d: Disk, n: nat, s: Step): seq<nat> {
    match s
    case Zone => []
    case Block(b) => Kept(d, n, b)
  }

  lemma KidsHead(d: Disk, n: nat, steps: seq<Step>)
    requires steps != []
    ensures KeptIn(d, n, StepBlocks(steps)) == StepKids(d, n, steps[0]) + KeptIn(d, n, StepBlocks(steps[1..]))
  {
    var rest := StepBlocks(steps[1..]);
    match steps[0]
    case Zone => assert [] + rest == rest;
    case Block(b) => assert ([b] + rest)[1..] == rest;
  }

  lemma {:induction false} StepVisit(d: Disk, rank: nat -> nat, n: nat, s: Step)
    requires Ranked(d, rank) && KidsLower(rank, n, StepKids(d, n, s))
    ensures Falling(Walks(d), rank)
    ensures NodesIn(StepTrace(d, rank, n, s)) == AllMembers(ForestOf(Walks(d), rank, n, StepKids(d, n, s)))
    decreases rank(n), 1, 0
  {
    WalkFalls(d, rank);
    match s
    case Zone => NodesOne(ZoneSeen(d.inode(n).file.size));
    case Block(b) => KidsVisit(d, rank, n, Kept(d, n, b));
  }

  lemma {:induction false} KidsVisit(d: Disk, rank: nat -> nat, n: nat, kids: seq<nat>)
    requires Ranked(d, rank) && KidsLower(rank, n, kids)
    ensures Falling(Walks(d), rank)
    ensures NodesIn(KidsTrace(d, rank, n, kids)) == AllMembers(ForestOf(Walks(d), rank, n, kids))
    decreases rank(n), 0, |kids|
  {
    WalkFalls(d, rank);
    if kids != [] {
      VisitsTree(d, rank, kids[0]);
      KidsVisit(d, rank, n, kids[1..]);
      NodesAppend(Trace(d, rank, kids[0]), KidsTrace(d, rank, n, kids[1..]));
      ForestHead(Walks(d), rank, n, kids);
    }
  }

  // --------------------------------------------------------------- the disk's tree

  // The walk goes through the disk's tree exactly when it follows the children of
  // every inode in that tree.
  lemma WalkIsTreeIff(d: Disk, rank: nat -> nat, depth: nat -> nat, n: nat)
    requires Ranked(d, rank) && rank(n) > 0 && Falling(Names(d), depth) && depth(n) > 0
    ensures WalkTree(d, rank, n) == TreeOf(Names(d), depth, n) <==>
              SameKids(Walks(d), Names(d), Members(TreeOf(Names(d), depth, n)))
  {
    WalkFalls(d, rank);
    TreesEqualIff(Walks(d), rank, Names(d), depth, n);
  }
}
