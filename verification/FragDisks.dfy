// What the fragmentation walk makes of the tree on the disk, and disks on which it
// goes wrong.
module FragDisks {
  import opened FragEnds
  import opened FragFigures
  import opened FragLaws
  import opened FragTree
  import opened FragWalk
  import opened ZoneWalk

  // A finite tree below n whose members the walk can read.
  ghost predicate ReadableTree(d: Disk, depth: nat -> nat, n: nat) {
    && Falling(Names(d), depth) && depth(n) > 0
    && forall m :: m in Members(TreeOf(Names(d), depth, n)) ==> Readable(d, m)
  }

  // Where the walk follows the children of every member of the tree, it ends, and
  // sees exactly the members of the tree, in order.
  lemma FollowedVisitsAll(d: Disk, depth: nat -> nat, n: nat)
    requires ReadableTree(d, depth, n)
    requires SameKids(Walks(d), Names(d), Members(TreeOf(Names(d), depth, n)))
    ensures Ranked(d, RankOf(d)) && RankOf(d)(n) > 0
    ensures NodesIn(Trace(d, RankOf(d), n)) == Members(TreeOf(Names(d), depth, n))
  {
    var ms := Members(TreeOf(Names(d), depth, n));
    forall m | m in ms
      ensures StaysInTree(d, m)
    {
      var i :| 0 <= i < |ms| && ms[i] == m;
      assert Walks(d)(ms[i]) == Names(d)(ms[i]);
    }
    assert ms[0] == n;
    TreeWalkEnds(d, depth, n);
    EndsRanked(d);
    VisitsTree(d, RankOf(d), n);
    WalkIsTreeIff(d, RankOf(d), depth, n);
  }

  // The figures printed are then those of the tree: blocks over all its members,
  // slack over its files and, for each direct zone taken up, its directories.
  method IntFragOfWholeTree(d: Disk, ghost depth: nat -> nat, n: nat)
      returns (files: int, dirs: nat, blocks: nat, total: nat, least: nat, largest: nat, bins: seq<nat>)
    requires ReadableTree(d, depth, n)
    requires SameKids(Walks(d), Names(d), Members(TreeOf(Names(d), depth, n)))
    ensures Printed(d, Members(TreeOf(Names(d), depth, n)), files, dirs, blocks, total, least, largest, bins)
  {
    FollowedVisitsAll(d, depth, n);
    files, dirs, blocks, total, least, largest, bins := GetIntFrag(d, RankOf(d), n);
  }

  ghost predicate OneBlockEach(d: Disk, ms: seq<nat>) {
    forall i :: 0 <= i < |ms| ==> Readable(d, ms[i]) && (d.inode(ms[i]).isDir ==> BlockCount(d, ms[i]) <= 1)
  }

  // When no directory of the tree takes more than one block, the walk ends and
  // visits exactly the members of the tree, in order.
  lemma OneBlockVisitsAll(d: Disk, depth: nat -> nat, n: nat)
    requires Falling(Names(d), depth) && depth(n) > 0 && OneBlockEach(d, Members(TreeOf(Names(d), depth, n)))
    ensures Ranked(d, RankOf(d)) && RankOf(d)(n) > 0
    ensures NodesIn(Trace(d, RankOf(d), n)) == Members(TreeOf(Names(d), depth, n))
  {
    var ms := Members(TreeOf(Names(d), depth, n));
    forall i | 0 <= i < |ms|
      ensures Walks(d)(ms[i]) == Names(d)(ms[i])
    {
      OneBlockFollowed(d, ms[i]);
    }
    FollowedVisitsAll(d, depth, n);
  }

  // ------------------------------------------------------------ the files counted

  lemma {:induction false} DirsAmongNodes(seen: seq<Seen>, k: nat)
    requires k < |seen| && seen[k].DirSeen?
    ensures seen[k].ino in NodesIn(seen)
    decreases |seen|
  {
    if k < |seen| - 1 {
      DirsAmongNodes(seen[..|seen| - 1], k);
    }
  }

  // Where the walk follows the children of every inode of the tree, the number of
  // files printed is that of the tree exactly when every directory takes up one
  // direct zone.  Directories are never empty: they hold "." and "..".
  lemma FilesCountedIff(d: Disk, depth: nat -> nat, n: nat)
    requires ReadableTree(d, depth, n) && d.v.ndzones > 0
    requires SameKids(Walks(d), Names(d), Members(TreeOf(Names(d), depth, n)))
    requires forall m :: m in Members(TreeOf(Names(d), depth, n)) && d.inode(m).isDir ==> d.inode(m).file.size > 0
    ensures Ranked(d, RankOf(d)) && RankOf(d)(n) > 0 && AllFromDisk(d, Trace(d, RankOf(d), n))
    ensures var t, bs := Trace(d, RankOf(d), n), d.v.blockSize;
      |Slacks(t, bs)| - DirsIn(t) == FilesAmong(d, Members(TreeOf(Names(d), depth, n))) <==> OneZoneEach(d, t, One())
  {
    FollowedVisitsAll(d, depth, n);
    var t := Trace(d, RankOf(d), n);
    TraceFromDisk(d, RankOf(d), n);
    forall k | 0 <= k < |t| && t[k].DirSeen?
      ensures t[k].size > 0
    {
      DirsAmongNodes(t, k);
      assert FromDisk(d, t[k]);
    }
    VisitedFilesCountedIff(d, RankOf(d), n);
    FilesSeen(d, t);
  }

  // ----------------------------------------------------------- trees not visited

  // A disk on blocks of 10 whose only directory is inode 2.
  function OneDir(scale: nat, size: nat, zones: seq<nat>, entries: nat -> seq<nat>): Disk {
    Disk(Volume(10, scale, |zones|, 0, (b, i) => 0),
         n => Inode(n == 2, File(if n == 2 then size else 0, zones + [0, 0])), entries)
  }

  function Height(n: nat): nat { if n == 2 then 2 else 1 }

  lemma {:induction false} KidsAreFiles(ks: seq<nat>)
    requires 2 !in ks
    ensures KidsLower(Height, 2, ks)
    decreases |ks|
  {
    if ks != [] {
      assert ks[0] in ks;
      KidsAreFiles(ks[1..]);
    }
  }

  lemma {:induction false} StepsAreLower(d: Disk, steps: seq<Step>)
    ensures AllLower(d, Height, 2, steps)
    decreases |steps|
  {
    if steps != [] {
      StepsAreLower(d, steps[1..]);
      if steps[0].Block? && |d.entries(steps[0].b)| > 2 {
        NotSelf(d.entries(steps[0].b)[2..], 2);
        KidsAreFiles(Kept(d, 2, steps[0].b));
      }
    }
  }

  lemma {:induction false} NamedAreFiles(d: Disk, bs: seq<nat>)
    ensures KidsLower(Height, 2, NamedIn(d, 2, bs))
    decreases |bs|
  {
    if bs != [] {
      NamedAreFiles(d, bs[1..]);
      NotSelf(d.entries(bs[0]), 2);
      KidsAreFiles(KeptOf(d.entries(bs[0]), 2));
      LowerParts(Height, 2, KeptOf(d.entries(bs[0]), 2), NamedIn(d, 2, bs[1..]));
    }
  }

  lemma OneDirIsTree(scale: nat, size: nat, zones: seq<nat>, entries: nat -> seq<nat>)
    ensures var d := OneDir(scale, size, zones, entries); Ranked(d, Height) && Trees(d, Height)
  {
    var d := OneDir(scale, size, zones, entries);
    forall n: nat
      ensures Sound(d, Height, n)
    {
      if n == 2 {
        StepsAreLower(d, DirSteps(d, 2));
      }
    }
    forall m: nat
      ensures KidsLower(Height, m, Names(d)(m))
    {
      if m == 2 && OwnBlocks(d, 2) != [] {
        StepsAreLower(d, [Block(OwnBlocks(d, 2)[0])]);
        NamedAreFiles(d, OwnBlocks(d, 2)[1..]);
        LowerParts(Height, 2, Kept(d, 2, OwnBlocks(d, 2)[0]), NamedIn(d, 2, OwnBlocks(d, 2)[1..]));
      }
    }
  }

  lemma {:induction false} KidsAreMembers(kids: nat -> seq<nat>, rank: nat -> nat, n: nat, ks: seq<nat>, i: nat)
    requires Falling(kids, rank) && KidsLower(rank, n, ks) && i < |ks|
    ensures ks[i] in AllMembers(ForestOf(kids, rank, n, ks))
    decreases |ks|
  {
    ForestHead(kids, rank, n, ks);
    if i == 0 {
      assert Members(TreeOf(kids, rank, ks[0]))[0] == ks[0];
    } else {
      KidsAreMembers(kids, rank, n, ks[1..], i - 1);
    }
  }

  // A directory none of whose entries is followed hides what is below it.
  lemma Hidden(d: Disk, rank: nat -> nat, depth: nat -> nat, n: nat)
    requires Ranked(d, rank) && rank(n) > 0 && Falling(Names(d), depth) && depth(n) > 0 && Followed(d, n) == []
    ensures NodesIn(Trace(d, rank, n)) == [n]
    ensures forall i :: 0 <= i < |Children(d, n)| ==> Children(d, n)[i] in Members(TreeOf(Names(d), depth, n))
  {
    VisitsTree(d, rank, n);
    WalkFalls(d, rank);
    assert WalkTree(d, rank, n) == Node(n, []);
    assert KidsLower(depth, n, Names(d)(n));
    forall i | 0 <= i < |Children(d, n)|
      ensures Children(d, n)[i] in Members(TreeOf(Names(d), depth, n))
    {
      KidsAreMembers(Names(d), depth, n, Children(d, n), i);
    }
  }

  // Without indirect zones the direct ones are all.
  lemma OnlyDirect(d: Disk, size: nat, zones: seq<nat>)
    requires d == OneDir(d.v.scale, size, zones, d.entries)
    ensures Readable(d, 2) && BlockCount(d, 2) == BlocksOf(size, 10) && AllZones(d.v, d.inode(2).file) == zones
  {
    var f := d.inode(2).file;
    assert f.zones[..|zones|] == zones && f.zones[|zones|] == 0 && f.zones[|zones| + 1] == 0;
    assert zones + [] + [] == zones;
  }

  lemma TwoInZone5(d: Disk)
    requires d == OneDir(1, 20, [5], d.entries)
    ensures Readable(d, 2) && OneZone(d, 2) && StepBlocks(DirSteps(d, 2)) == [10, 20] && OwnBlocks(d, 2) == [10, 11]
  {
    DirBlocks(d, 2);
    OnlyDirect(d, 20, [5]);
    assert Pow2(1) == 2 && Pow2(2) == 4;
    BlocksHead(d.v, [5], 2);
    assert [5][1..] == [];
    assert ReadOf(d.v, 5, 2) == [10, 20] && ZoneBlocks(d.v, 5) == [10, 11];
  }

  lemma Misread(d: Disk)
    requires Readable(d, 2) && d.inode(2).isDir
    requires StepBlocks(DirSteps(d, 2)) == [10, 20] && OwnBlocks(d, 2) == [10, 11]
    requires d.entries(10) == [2, 1] && d.entries(11) == [0, 0, 3] && d.entries(20) == []
    ensures Children(d, 2) == [3] && Followed(d, 2) == []
  {
    KeptThird(3, 2);
    assert NamedIn(d, 2, [11]) == [3] by { assert [11][1..] == []; }
    assert KeptIn(d, 2, [20]) == [] by { assert [20][1..] == []; }
    assert [10, 20][1..] == [20] && [10, 11][1..] == [11];
  }

  lemma KeptThird(e: nat, n: nat)
    requires e >= 2 && e != n
    ensures KeptOf([0, 0, e], n) == [e]
  {
    var es := [0, 0, e];
    assert es[1..] == [0, e] && es[1..][1..] == [e] && [e][1..] == [];
    assert KeptOf([e], n) == [e];
  }

  // Where zones are two blocks, the second block of a directory is not found: file
  // 3 is in block 11, the walk reads block 20, and reports no file though the
  // directory takes up one direct zone.
  lemma MisreadBlock()
    ensures var d := OneDir(1, 20, [5], b => if b == 10 then [2, 1] else if b == 11 then [0, 0, 3] else []);
            && Ranked(d, Height) && Trees(d, Height) && Readable(d, 2) && OneZone(d, 2)
            && StepBlocks(DirSteps(d, 2)) == [10, 20] && OwnBlocks(d, 2) == [10, 11]
            && 3 in Members(TreeOf(Names(d), Height, 2)) && NodesIn(Trace(d, Height, 2)) == [2]
  {
    var d := OneDir(1, 20, [5], b => if b == 10 then [2, 1] else if b == 11 then [0, 0, 3] else []);
    OneDirIsTree(1, 20, [5], d.entries);
    TwoInZone5(d);
    Misread(d);
    Hidden(d, Height, Height, 2);
  }

  lemma TwoZonesOfOne(d: Disk)
    requires d == OneDir(0, 20, [5, 6], d.entries)
    ensures Readable(d, 2) && Aligned(d, 2) && StepBlocks(DirSteps(d, 2)) == OwnBlocks(d, 2) == [5, 6]
  {
    OnlyDirect(d, 20, [5, 6]);
    AlignedIff(d, 2);
    BlocksHead(d.v, [5, 6], 2);
    BlocksHead(d.v, [6], 1);
    assert [5, 6][1..] == [6] && [6][1..] == [];
    assert ZoneBlocks(d.v, 5) == [5] && ZoneBlocks(d.v, 6) == [6];
  }

  // Where zones are one block, the first two entries of the second block are
  // passed over: files 3 and 4 are not seen.
  lemma PassedEntries()
    ensures var d := OneDir(0, 20, [5, 6], b => if b == 5 then [2, 1] else if b == 6 then [3, 4] else []);
            && Ranked(d, Height) && Trees(d, Height) && Readable(d, 2) && Aligned(d, 2)
            && StepBlocks(DirSteps(d, 2)) == OwnBlocks(d, 2) == [5, 6]
            && 3 in Members(TreeOf(Names(d), Height, 2)) && NodesIn(Trace(d, Height, 2)) == [2]
  {
    var d := OneDir(0, 20, [5, 6], b => if b == 5 then [2, 1] else if b == 6 then [3, 4] else []);
    OneDirIsTree(0, 20, [5, 6], d.entries);
    TwoZonesOfOne(d);
    assert [3, 4][1..] == [4] && [4][1..] == [];
    assert Children(d, 2) == [3, 4];
    Hidden(d, Height, Height, 2);
  }

  // ------------------------------------------------------------- figures too high

  // A directory on two zones is not in one.
  lemma TwoZones(d: Disk, size: nat)
    requires d == OneDir(0, size, [5, 6], d.entries) && 10 < size
    ensures Ranked(d, Height) && AllFromDisk(d, Trace(d, Height, 2)) && NoneEmpty(Trace(d, Height, 2))
    ensures OneZoneEach(d, Trace(d, Height, 2), SlackOf(10)) ==> Slack(size, 10) == 0
    ensures !OneZoneEach(d, Trace(d, Height, 2), One())
  {
    OneDirIsTree(0, size, [5, 6], d.entries);
    OnlyDirect(d, size, [5, 6]);
    TraceFromDisk(d, Height, 2);
    var t := Trace(d, Height, 2);
    forall k | 0 <= k < |t| && t[k].DirSeen? ensures t[k].size > 0 { assert FromDisk(d, t[k]); }
    assert t[0].DirSeen? && t[0].ino == 2 && t[0].size == size;
    assert !OneZone(d, 2);
    assert OneZoneEach(d, t, SlackOf(10)) ==> OneZoneAt(d, t[0], SlackOf(10));
    assert OneZoneEach(d, t, One()) ==> OneZoneAt(d, t[0], One());
  }

  // On the disk of PassedEntries a file is printed and none is visited.
  lemma FileTooMany()
    ensures var d := OneDir(0, 20, [5, 6], b => if b == 5 then [2, 1] else if b == 6 then [3, 4] else []);
            && Ranked(d, Height)
            && var t := Trace(d, Height, 2); |Slacks(t, 10)| - DirsIn(t) > 0 == FilesIn(t)
  {
    var d := OneDir(0, 20, [5, 6], b => if b == 5 then [2, 1] else if b == 6 then [3, 4] else []);
    TwoZones(d, 20);
    var t := Trace(d, Height, 2);
    Conservation(d, Height, 2);
    ExcessIsZero(d, t, One());
    PassedEntries();
    TraceFromDisk(d, Height, 2);
    FilesSeen(d, t);
    assert FilesAmong(d, [2]) == 0;
  }

  // A directory of 15 bytes on two zones of one block has its slack counted twice.
  lemma SlackTwice(entries: nat -> seq<nat>)
    ensures var d := OneDir(0, 15, [5, 6], entries);
            && Ranked(d, Height)
            && var t := Trace(d, Height, 2); SizesIn(t) + Sum(Slacks(t, 10)) > 10 * BlocksIn(t, 10)
  {
    var d := OneDir(0, 15, [5, 6], entries);
    TwoZones(d, 15);
    var t := Trace(d, Height, 2);
    Conservation(d, Height, 2);
    ExcessIsZero(d, t, SlackOf(10));
    assert !OneZoneEach(d, t, SlackOf(10)) by { assert Slack(15, 10) == 5; }
  }
}
