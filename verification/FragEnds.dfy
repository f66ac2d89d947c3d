// Whether the fragmentation walk comes to an end, in terms of the tree on the disk.
module FragEnds {
  import opened FragEntries
  import opened FragFigures
  import opened FragLaws
  import opened FragTree
  import opened FragWalk
  import opened ZoneWalk

  // ------------------------------------------------------------ coming to an end

  // The recursion from n returns without going deeper than k calls.
  ghost predicate EndsIn(d: Disk, n: nat, k: nat)
    decreases k
  {
    k > 0 && Readable(d, n) && forall i :: 0 <= i < |Followed(d, n)| ==> EndsIn(d, Followed(d, n)[i], k - 1)
  }

  ghost predicate Ends(d: Disk, n: nat) { exists k: nat :: EndsIn(d, n, k) }

  lemma {:induction false} EndsLater(d: Disk, n: nat, k: nat, j: nat)
    requires EndsIn(d, n, k) && k <= j
    ensures EndsIn(d, n, j)
    decreases k
  {
    forall i | 0 <= i < |Followed(d, n)|
      ensures EndsIn(d, Followed(d, n)[i], j - 1)
    {
      EndsLater(d, Followed(d, n)[i], k - 1, j - 1);
    }
  }

  ghost function LeastFrom(d: Disk, n: nat, from: nat, k: nat): (r: nat)
    requires from <= k && EndsIn(d, n, k)
    ensures from <= r <= k && EndsIn(d, n, r)
    ensures forall j: nat :: from <= j < r ==> !EndsIn(d, n, j)
    decreases k - from
  {
    if EndsIn(d, n, from) then from else LeastFrom(d, n, from + 1, k)
  }

  ghost function DepthOf(d: Disk, n: nat): (r: nat)
    requires Ends(d, n)
    ensures EndsIn(d, n, r) && r > 0
    ensures forall j: nat :: j < r ==> !EndsIn(d, n, j)
  {
    var k: nat :| EndsIn(d, n, k);
    LeastFrom(d, n, 0, k)
  }

  // How deep the recursion goes; 0 where it does not end.
  ghost function RankOf(d: Disk): nat -> nat {
    n => if Ends(d, n) then DepthOf(d, n) else 0
  }

  lemma {:induction false} LowerFrom(rank: nat -> nat, n: nat, ks: seq<nat>)
    requires forall i :: 0 <= i < |ks| ==> 0 < rank(ks[i]) < rank(n)
    ensures KidsLower(rank, n, ks)
    decreases |ks|
  {
    if ks != [] {
      LowerFrom(rank, n, ks[1..]);
    }
  }

  lemma {:induction false} LowerTo(rank: nat -> nat, n: nat, ks: seq<nat>, i: nat)
    requires KidsLower(rank, n, ks) && i < |ks|
    ensures 0 < rank(ks[i]) < rank(n)
    decreases |ks|
  {
    if i > 0 {
      LowerTo(rank, n, ks[1..], i - 1);
    }
  }

  // StepsLower, the other way
  lemma {:induction false} LowerSteps(d: Disk, rank: nat -> nat, n: nat, steps: seq<Step>)
    requires KidsLower(rank, n, KeptIn(d, n, StepBlocks(steps)))
    ensures AllLower(d, rank, n, steps)
    decreases |steps|
  {
    if steps != [] {
      KidsHead(d, n, steps);
      LowerParts(rank, n, StepKids(d, n, steps[0]), KeptIn(d, n, StepBlocks(steps[1..])));
      LowerSteps(d, rank, n, steps[1..]);
    }
  }

  // Where the walk from n ends, ranks as FindIntFrag asks for them exist, and
  // conversely.
  lemma EndsRanked(d: Disk)
    requires d.v.blockSize > 0
    ensures Ranked(d, RankOf(d))
    ensures forall n: nat :: Ends(d, n) <==> RankOf(d)(n) > 0
  {
    forall n: nat | RankOf(d)(n) > 0
      ensures Sound(d, RankOf(d), n)
    {
      EndsSound(d, n);
    }
  }

  lemma EndsSound(d: Disk, n: nat)
    requires Ends(d, n)
    ensures Sound(d, RankOf(d), n)
  {
    if d.inode(n).isDir {
      var ks, k := Followed(d, n), DepthOf(d, n);
      forall i | 0 <= i < |ks|
        ensures 0 < RankOf(d)(ks[i]) < RankOf(d)(n)
      {
        assert EndsIn(d, ks[i], k - 1);
        assert Ends(d, ks[i]);
      }
      LowerFrom(RankOf(d), n, ks);
      LowerSteps(d, RankOf(d), n, DirSteps(d, n));
    }
  }

  lemma {:induction false} RankedEnds(d: Disk, rank: nat -> nat, n: nat)
    requires Ranked(d, rank) && rank(n) > 0
    ensures EndsIn(d, n, rank(n))
    decreases rank(n)
  {
    assert Sound(d, rank, n);
    WalkFalls(d, rank);
    var ks := Followed(d, n);
    assert KidsLower(rank, n, Walks(d)(n));
    forall i | 0 <= i < |ks|
      ensures EndsIn(d, ks[i], rank(n) - 1)
    {
      LowerTo(rank, n, ks, i);
      RankedEnds(d, rank, ks[i]);
      EndsLater(d, ks[i], rank(ks[i]), rank(n) - 1);
    }
  }

  // Two directories that the walk follows from one to the other
  lemma {:induction false} BackAndForth(d: Disk, m: nat, p: nat, k: nat)
    requires p in Followed(d, m) && m in Followed(d, p)
    ensures !EndsIn(d, m, k)
    decreases k
  {
    if EndsIn(d, m, k) {
      var i :| 0 <= i < |Followed(d, m)| && Followed(d, m)[i] == p;
      assert EndsIn(d, p, k - 1);
      var j :| 0 <= j < |Followed(d, p)| && Followed(d, p)[j] == m;
      BackAndForth(d, m, p, k - 2);
    }
  }

  // ------------------------------------------------------ on the tree of the disk

  // Every entry followed from m names a child of m.
  predicate StaysInTree(d: Disk, m: nat) {
    forall i :: 0 <= i < |Followed(d, m)| ==> Followed(d, m)[i] in Children(d, m)
  }

  // Every block m reads as a directory is a block of its own.
  predicate ReadsOwn(d: Disk, m: nat)
    requires Readable(d, m)
  {
    var bs := StepBlocks(DirSteps(d, m));
    forall i :: 0 <= i < |bs| ==> bs[i] in OwnBlocks(d, m)
  }

  lemma {:induction false} KeptFrom(d: Disk, n: nat, bs: seq<nat>, e: nat) returns (i: nat)
    requires e in KeptIn(d, n, bs)
    ensures i < |bs| && e in Kept(d, n, bs[i])
    decreases |bs|
  {
    if e in Kept(d, n, bs[0]) {
      i := 0;
    } else {
      i := KeptFrom(d, n, bs[1..], e);
      i := i + 1;
    }
  }

  lemma {:induction false} NamedAt(d: Disk, n: nat, bs: seq<nat>, i: nat, e: nat)
    requires i < |bs| && e in KeptOf(d.entries(bs[i]), n)
    ensures e in NamedIn(d, n, bs)
    decreases |bs|
  {
    if i > 0 {
      NamedAt(d, n, bs[1..], i - 1, e);
    }
  }

  lemma OwnNamesChildren(d: Disk, m: nat)
    requires Readable(d, m) && ReadsOwn(d, m)
    ensures StaysInTree(d, m)
  {
    forall i | 0 <= i < |Followed(d, m)|
      ensures Followed(d, m)[i] in Children(d, m)
    {
      var own := OwnBlocks(d, m);
      var k := KeptFrom(d, m, StepBlocks(DirSteps(d, m)), Followed(d, m)[i]);
      var j :| 0 <= j < |own| && own[j] == StepBlocks(DirSteps(d, m))[k];
      if j > 0 {
        PassedOver(d, m, own[j]);
        assert own[1..][j - 1] == own[j];
        NamedAt(d, m, own[1..], j - 1, Followed(d, m)[i]);
      }
    }
  }

  lemma {:induction false} KidMembers(kids: nat -> seq<nat>, rank: nat -> nat, n: nat, ks: seq<nat>, i: nat)
    requires Falling(kids, rank) && KidsLower(rank, n, ks) && i < |ks|
    ensures 0 < rank(ks[i]) < rank(n)
    ensures forall x :: x in Members(TreeOf(kids, rank, ks[i])) ==> x in AllMembers(ForestOf(kids, rank, n, ks))
    decreases |ks|
  {
    ForestHead(kids, rank, n, ks);
    if i > 0 {
      KidMembers(kids, rank, n, ks[1..], i - 1);
    }
  }

  // From the root of a finite tree the walk ends, if every member of the tree is
  // followed only to its children.
  lemma {:induction false} TreeWalkEnds(d: Disk, depth: nat -> nat, n: nat)
    requires Falling(Names(d), depth) && depth(n) > 0
    requires forall m :: m in Members(TreeOf(Names(d), depth, n)) ==> Readable(d, m) && StaysInTree(d, m)
    ensures EndsIn(d, n, depth(n))
    decreases depth(n)
  {
    var t := TreeOf(Names(d), depth, n);
    assert t.ino == n && n in Members(t);
    assert KidsLower(depth, n, Names(d)(n));
    var ks := Followed(d, n);
    forall i | 0 <= i < |ks|
      ensures EndsIn(d, ks[i], depth(n) - 1)
    {
      assert ks[i] in Children(d, n);
      var j :| 0 <= j < |Children(d, n)| && Children(d, n)[j] == ks[i];
      KidMembers(Names(d), depth, n, Children(d, n), j);
      TreeWalkEnds(d, depth, ks[i]);
      EndsLater(d, ks[i], depth(ks[i]), depth(n) - 1);
    }
  }

  // So it ends on every finite tree whose directories have one block to a zone, or
  // one block each.
  lemma AlignedTreeEnds(d: Disk, depth: nat -> nat, n: nat)
    requires Falling(Names(d), depth) && depth(n) > 0
    requires forall m :: m in Members(TreeOf(Names(d), depth, n)) ==>
               Readable(d, m) && (d.inode(m).isDir ==> Aligned(d, m))
    ensures Ends(d, n)
  {
    forall m | m in Members(TreeOf(Names(d), depth, n))
      ensures StaysInTree(d, m)
    {
      if d.inode(m).isDir {
        AlignedIff(d, m);
        OwnNamesChildren(d, m);
      }
    }
    TreeWalkEnds(d, depth, n);
  }

  // On such a tree fs_get_int_frag returns, whatever is elsewhere on the disk.
  method IntFragOfTree(d: Disk, ghost depth: nat -> nat, n: nat)
      returns (files: int, dirs: nat, blocks: nat, total: nat, least: nat, largest: nat, bins: seq<nat>)
    requires Falling(Names(d), depth) && depth(n) > 0
    requires forall m :: m in Members(TreeOf(Names(d), depth, n)) ==>
               Readable(d, m) && (d.inode(m).isDir ==> Aligned(d, m))
    ensures Ranked(d, RankOf(d)) && RankOf(d)(n) > 0
    ensures Printed(d, NodesIn(Trace(d, RankOf(d), n)), files, dirs, blocks, total, least, largest, bins)
    ensures Balanced(Trace(d, RankOf(d), n), d.v.blockSize, files, dirs, blocks, total)
  {
    assert n in Members(TreeOf(Names(d), depth, n));
    AlignedTreeEnds(d, depth, n);
    EndsRanked(d);
    files, dirs, blocks, total, least, largest, bins := GetIntFrag(d, RankOf(d), n);
  }

  // --------------------------------------------------------------- every tree

  // The directories of the whole disk form finite trees.
  ghost predicate Trees(d: Disk, depth: nat -> nat) {
    Falling(Names(d), depth) && forall m: nat {:trigger depth(m)} :: depth(m) > 0
  }

  // However the entries of a layout are filled in, as long as they make trees, the
  // walk ends wherever it starts.
  ghost predicate AlwaysEnds(v: Volume, inode: nat -> Inode) {
    forall entries: nat -> seq<nat>, depth: nat -> nat, n: nat
      {:trigger Ends(Disk(v, inode, entries), n), Trees(Disk(v, inode, entries), depth)} ::
      Trees(Disk(v, inode, entries), depth) ==> Ends(Disk(v, inode, entries), n)
  }

  ghost predicate AllReadable(v: Volume, inode: nat -> Inode) {
    v.blockSize > 0 && forall n: nat {:trigger inode(n)} :: Fits(v, inode(n).file)
  }

  function Blank(v: Volume, inode: nat -> Inode): Disk { Disk(v, inode, b => []) }

  // Every directory that can be walked to reads only blocks of its own.
  ghost predicate LayoutReadsOwn(v: Volume, inode: nat -> Inode)
    requires AllReadable(v, inode)
  {
    forall m: nat {:trigger inode(m)} :: m >= 2 && inode(m).isDir ==> ReadsOwn(Blank(v, inode), m)
  }

  lemma {:induction false} SameWalk(d: Disk, d': Disk, zs: seq<nat>, cnt: nat)
    requires d.v == d'.v
    ensures WalkBlocks(d, zs, cnt) == WalkBlocks(d', zs, cnt)
    decreases |zs|
  {
    if zs != [] && cnt > 0 {
      SameWalk(d, d', zs[1..], cnt - Reads(d, zs[0], cnt));
    }
  }

  // Which blocks are read does not depend on what is in them.
  lemma SameReads(v: Volume, inode: nat -> Inode, entries: nat -> seq<nat>, m: nat)
    requires AllReadable(v, inode)
    ensures var d := Disk(v, inode, entries);
            && Readable(d, m) && StepBlocks(DirSteps(d, m)) == StepBlocks(DirSteps(Blank(v, inode), m))
            && OwnBlocks(d, m) == OwnBlocks(Blank(v, inode), m)
  {
    var d := Disk(v, inode, entries);
    DirBlocks(d, m);
    DirBlocks(Blank(v, inode), m);
    SameWalk(d, Blank(v, inode), AllZones(v, inode(m).file), BlockCount(d, m));
  }

  lemma FollowedAtLeast2(d: Disk, n: nat)
    ensures forall i :: 0 <= i < |Followed(d, n)| ==> Followed(d, n)[i] >= 2
  {
    forall i | 0 <= i < |Followed(d, n)|
      ensures Followed(d, n)[i] >= 2
    {
      FollowedNames(d, n, Followed(d, n)[i]);
    }
  }

  lemma {:induction false} EndsByDepth(d: Disk, depth: nat -> nat, n: nat)
    requires AllReadable(d.v, d.inode) && LayoutReadsOwn(d.v, d.inode) && Trees(d, depth) && n >= 2
    ensures EndsIn(d, n, depth(n))
    decreases depth(n)
  {
    var ks := Followed(d, n);
    SameReads(d.v, d.inode, d.entries, n);
    FollowedAtLeast2(d, n);
    assert KidsLower(depth, n, Names(d)(n));
    if d.inode(n).isDir {
      assert ReadsOwn(d, n);
      OwnNamesChildren(d, n);
    }
    forall i | 0 <= i < |ks|
      ensures EndsIn(d, ks[i], depth(n) - 1)
    {
      var j :| 0 <= j < |Children(d, n)| && Children(d, n)[j] == ks[i];
      LowerTo(depth, n, Children(d, n), j);
      EndsByDepth(d, depth, ks[i]);
      EndsLater(d, ks[i], depth(ks[i]), depth(n) - 1);
    }
  }

  lemma {:induction false} CommonBound(d: Disk, ks: seq<nat>) returns (k: nat)
    requires forall i :: 0 <= i < |ks| ==> Ends(d, ks[i])
    ensures forall i :: 0 <= i < |ks| ==> EndsIn(d, ks[i], k)
    decreases |ks|
  {
    k := 0;
    if ks != [] {
      var n := |ks| - 1;
      var j := CommonBound(d, ks[..n]);
      var h := DepthOf(d, ks[n]);
      k := if j > h then j else h;
      forall i | 0 <= i < |ks|
        ensures EndsIn(d, ks[i], k)
      {
        if i < n { EndsLater(d, ks[..n][i], j, k); } else { EndsLater(d, ks[n], h, k); }
      }
    }
  }

  // A directory m that reads block b of another's, or of nobody's, and a directory
  // p: b names p, and the first block p reads names m.
  function Looped(b: nat, first: nat, m: nat, p: nat): nat -> seq<nat> {
    blk => [0, 0] + (if blk == b then [p] else []) + (if blk == first then [m] else [])
  }

  function Heights(m: nat, p: nat): nat -> nat { n => if n == m then 1 else if n == p then 2 else 3 }

  lemma LoopedEntries(b: nat, first: nat, m: nat, p: nat, blk: nat, n: nat)
    requires m >= 2 && p >= 2 && m != p
    ensures forall e :: e in KeptOf(Looped(b, first, m, p)(blk), n) ==>
              (e == p && blk == b && n != p) || (e == m && blk == first && n != m)
    ensures n == m && blk == b ==> p in KeptOf(Looped(b, first, m, p)(blk)[2..], n)
    ensures n == p && blk == first ==> m in KeptOf(Looped(b, first, m, p)(blk)[2..], n)
  {
    var es := Looped(b, first, m, p)(blk);
    assert es[2..] == (if blk == b then [p] else []) + (if blk == first then [m] else []);
    forall e
      ensures e in KeptOf(es, n) <==> e in es && e >= 2 && e != n
      ensures e in KeptOf(es[2..], n) <==> e in es[2..] && e >= 2 && e != n
    {
      if e >= 0 {
        KeptOfIff(es, n, e);
        KeptOfIff(es[2..], n, e);
      }
    }
  }

  lemma {:induction false} LoopedNames(d: Disk, b: nat, first: nat, m: nat, p: nat, n: nat, bs: seq<nat>)
    requires d.entries == Looped(b, first, m, p) && m >= 2 && p >= 2 && m != p && (n == m ==> b !in bs)
    ensures KidsLower(Heights(m, p), n, NamedIn(d, n, bs))
    decreases |bs|
  {
    if bs != [] {
      LoopedNames(d, b, first, m, p, n, bs[1..]);
      LoopedBlock(d, b, first, m, p, n, bs[0]);
      LowerParts(Heights(m, p), n, KeptOf(d.entries(bs[0]), n), NamedIn(d, n, bs[1..]));
    }
  }

  lemma LoopedBlock(d: Disk, b: nat, first: nat, m: nat, p: nat, n: nat, blk: nat)
    requires d.entries == Looped(b, first, m, p) && m >= 2 && p >= 2 && m != p && (n == m ==> blk != b)
    ensures KidsLower(Heights(m, p), n, KeptOf(d.entries(blk), n))
    ensures KidsLower(Heights(m, p), n, Kept(d, n, blk))
  {
    LoopedEntries(b, first, m, p, blk, n);
    var ks := KeptOf(d.entries(blk), n);
    forall i | 0 <= i < |ks| ensures 0 < Heights(m, p)(ks[i]) < Heights(m, p)(n) { assert ks[i] in ks; }
    LowerFrom(Heights(m, p), n, ks);
    PassedOver(d, n, blk);
    LowerParts(Heights(m, p), n, Passed(d, n, blk), Kept(d, n, blk));
  }

  // These entries make trees, on which the walk from m never returns.
  lemma LoopedEndless(v: Volume, inode: nat -> Inode, m: nat, p: nat, b: nat, first: nat)
    requires AllReadable(v, inode) && m >= 2 && p >= 2 && m != p && inode(m).isDir && inode(p).isDir
    requires b in StepBlocks(DirSteps(Blank(v, inode), m)) && b !in OwnBlocks(Blank(v, inode), m)
    requires first in StepBlocks(DirSteps(Blank(v, inode), p))
    ensures var d := Disk(v, inode, Looped(b, first, m, p)); Trees(d, Heights(m, p)) && !Ends(d, m)
  {
    var d := Disk(v, inode, Looped(b, first, m, p));
    LoopedTrees(d, m, p, b, first);
    SameReads(v, inode, d.entries, m);
    SameReads(v, inode, d.entries, p);
    LoopedFollows(d, m, p, b, first);
    forall k: nat ensures !EndsIn(d, m, k) { BackAndForth(d, m, p, k); }
  }

  lemma LoopedTrees(d: Disk, m: nat, p: nat, b: nat, first: nat)
    requires AllReadable(d.v, d.inode) && m >= 2 && p >= 2 && m != p && d.entries == Looped(b, first, m, p)
    requires b !in OwnBlocks(Blank(d.v, d.inode), m)
    ensures Trees(d, Heights(m, p))
  {
    forall n: nat
      ensures KidsLower(Heights(m, p), n, Names(d)(n))
    {
      SameReads(d.v, d.inode, d.entries, n);
      LoopedChildren(d, b, first, m, p, n);
    }
  }

  lemma LoopedFollows(d: Disk, m: nat, p: nat, b: nat, first: nat)
    requires Readable(d, m) && Readable(d, p) && d.inode(m).isDir && d.inode(p).isDir
    requires m >= 2 && p >= 2 && m != p && d.entries == Looped(b, first, m, p)
    requires b in StepBlocks(DirSteps(d, m)) && first in StepBlocks(DirSteps(d, p))
    ensures p in Followed(d, m) && m in Followed(d, p)
  {
    LoopedEntries(b, first, m, p, b, m);
    LoopedEntries(b, first, m, p, first, p);
    KeptInHas(d, m, StepBlocks(DirSteps(d, m)), b, p);
    KeptInHas(d, p, StepBlocks(DirSteps(d, p)), first, m);
  }

  lemma LoopedChildren(d: Disk, b: nat, first: nat, m: nat, p: nat, n: nat)
    requires d.entries == Looped(b, first, m, p) && m >= 2 && p >= 2 && m != p
    requires Readable(d, n) && (n == m ==> b !in OwnBlocks(d, n))
    ensures KidsLower(Heights(m, p), n, Children(d, n))
  {
    var own := OwnBlocks(d, n);
    if d.inode(n).isDir && own != [] {
      assert own[0] in own;
      LoopedBlock(d, b, first, m, p, n, own[0]);
      LoopedNames(d, b, first, m, p, n, own[1..]);
      LowerParts(Heights(m, p), n, Kept(d, n, own[0]), NamedIn(d, n, own[1..]));
    }
  }

  lemma {:induction false} KeptInHas(d: Disk, n: nat, bs: seq<nat>, b: nat, e: nat)
    requires b in bs && e in Kept(d, n, b)
    ensures e in KeptIn(d, n, bs)
    decreases |bs|
  {
    if bs[0] != b {
      KeptInHas(d, n, bs[1..], b, e);
    }
  }

  // On a layout with two directories that have blocks, the walk ends on every tree
  // exactly when each directory reads only blocks of its own.  The root cannot be
  // walked to, so what it reads does not matter.
  lemma AlwaysEndsIff(v: Volume, inode: nat -> Inode, p: nat, q: nat)
    requires AllReadable(v, inode) && p >= 2 && q >= 2 && p != q && inode(p).isDir && inode(q).isDir
    requires StepBlocks(DirSteps(Blank(v, inode), p)) != [] && StepBlocks(DirSteps(Blank(v, inode), q)) != []
    ensures AlwaysEnds(v, inode) <==> LayoutReadsOwn(v, inode)
  {
    if LayoutReadsOwn(v, inode) {
      forall entries: nat -> seq<nat>, depth: nat -> nat, n: nat | Trees(Disk(v, inode, entries), depth)
        ensures Ends(Disk(v, inode, entries), n)
      {
        EndsAnywhere(Disk(v, inode, entries), depth, n);
      }
    } else {
      var m: nat :| m >= 2 && inode(m).isDir && !ReadsOwn(Blank(v, inode), m);
      var bs := StepBlocks(DirSteps(Blank(v, inode), m));
      var i :| 0 <= i < |bs| && bs[i] !in OwnBlocks(Blank(v, inode), m);
      var r := if m == p then q else p;
      var first := StepBlocks(DirSteps(Blank(v, inode), r))[0];
      LoopedEndless(v, inode, m, r, bs[i], first);
      assert !Ends(Disk(v, inode, Looped(bs[i], first, m, r)), m);
    }
  }

  lemma EndsAnywhere(d: Disk, depth: nat -> nat, n: nat)
    requires AllReadable(d.v, d.inode) && LayoutReadsOwn(d.v, d.inode) && Trees(d, depth)
    ensures Ends(d, n)
  {
    var ks := Followed(d, n);
    FollowedAtLeast2(d, n);
    forall i | 0 <= i < |ks|
      ensures Ends(d, ks[i])
    {
      EndsByDepth(d, depth, ks[i]);
    }
    var k := CommonBound(d, ks);
    assert EndsIn(d, n, k + 1);
  }

  // ------------------------------------------------------- a tree without an end

  // Zones of two blocks; directory 2 has two blocks in zone 5, directory 3 one in
  // zone 10.  Block 20 belongs to 3 and names 3 and 2; 2 reads it for its second
  // block, takes 3 for a child, and the walk goes from one to the other for ever.
  function EndlessDisk(): Disk {
    Disk(Volume(10, 1, 1, 0, (b, i) => 0),
         n => Inode(n == 2 || n == 3,
                    File(if n == 2 then 20 else if n == 3 then 10 else 0, [if n == 2 then 5 else 10, 0, 0])),
         Looped(20, 20, 2, 3))
  }

  // What a directory of n blocks reads in its only zone
  lemma OnlyZone(d: Disk, m: nat, z: nat, n: nat)
    requires d.v == EndlessDisk().v && d.inode(m).file.zones == [z, 0, 0] && z > 0 && 0 < n <= 2 && Readable(d, m)
    requires BlockCount(d, m) == n
    ensures StepBlocks(DirSteps(d, m)) == ReadOf(d.v, z, n)
    ensures OwnBlocks(d, m) == Take([z * 2, z * 2 + 1], n)
  {
    DirBlocks(d, m);
    assert AllZones(d.v, d.inode(m).file) == [z];
    assert [z][1..] == [];
    BlocksHead(d.v, [z], n);
    ZoneOfTwo(d.v, z);
  }

  lemma ZoneOfTwo(v: Volume, z: nat)
    requires v == EndlessDisk().v && z > 0
    ensures Bpz(v) == 2 && ZoneBlocks(v, z) == [z * 2, z * 2 + 1]
  {
    assert Pow2(1) == 2;
  }

  lemma EndlessReads()
    ensures var d := EndlessDisk(); var blank := Blank(d.v, d.inode);
            && AllReadable(d.v, d.inode) && OneZone(d, 2) && OneZone(d, 3)
            && StepBlocks(DirSteps(blank, 2)) == [10, 20] && OwnBlocks(blank, 2) == [10, 11]
            && StepBlocks(DirSteps(blank, 3)) == [20]
  {
    var d := EndlessDisk();
    ZoneOfTwo(d.v, 5);
    OnlyZone(Blank(d.v, d.inode), 2, 5, 2);
    OnlyZone(Blank(d.v, d.inode), 3, 10, 1);
    ReadsTwo(d.v);
  }

  lemma ReadsTwo(v: Volume)
    requires v.scale == 1
    ensures ReadOf(v, 5, 2) == [10, 20] && ReadOf(v, 10, 1) == [20]
  {
    assert Pow2(1) == 2 && Pow2(2) == 4;
  }

  lemma EndlessWalk()
    ensures var d := EndlessDisk();
            && Trees(d, Heights(2, 3)) && (forall n: nat :: Readable(d, n)) && OneZone(d, 2) && OneZone(d, 3)
            && !Ends(d, 2) && forall rank: nat -> nat :: !(Ranked(d, rank) && rank(2) > 0)
  {
    var d := EndlessDisk();
    EndlessReads();
    assert 20 in [10, 20] && 20 !in [10, 11] && 20 in [20];
    LoopedEndless(d.v, d.inode, 2, 3, 20, 20);
    forall rank: nat -> nat
      ensures !(Ranked(d, rank) && rank(2) > 0)
    {
      if Ranked(d, rank) && rank(2) > 0 {
        RankedEnds(d, rank, 2);
      }
    }
  }
}
