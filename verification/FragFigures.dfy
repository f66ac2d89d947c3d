// The figures of the fragmentation walk, as sums over the inodes it saw.
module FragFigures {
  import opened ZoneWalk
  import opened FragWalk
  import opened FragLaws
  import opened FragTree

  // ------------------------------------------------------------ over a list of inodes

  // How many slack values an inode gives rise to: a directory one for each direct
  // zone it takes up.
  function Share(d: Disk, m: nat): nat {
    if !d.inode(m).isDir then 1 else if Readable(d, m) then Turns(DirSteps(d, m)) else 0
  }

  // Each inode weighed by its size, as often as it gives rise to a slack value
  function Weigh(d: Disk, ms: seq<nat>, w: nat -> nat): nat {
    if ms == [] then 0
    else
      var m := ms[|ms| - 1];
      Weigh(d, ms[..|ms| - 1], w) + Share(d, m) * w(d.inode(m).file.size)
  }

  // Each inode weighed once
  function Plain(d: Disk, ms: seq<nat>, w: nat -> nat): nat {
    if ms == [] then 0 else Plain(d, ms[..|ms| - 1], w) + w(d.inode(ms[|ms| - 1]).file.size)
  }

  function DirsAmong(d: Disk, ms: seq<nat>): nat {
    if ms == [] then 0 else DirsAmong(d, ms[..|ms| - 1]) + (if d.inode(ms[|ms| - 1]).isDir then 1 else 0)
  }

  function FilesAmong(d: Disk, ms: seq<nat>): nat {
    if ms == [] then 0 else FilesAmong(d, ms[..|ms| - 1]) + (if d.inode(ms[|ms| - 1]).isDir then 0 else 1)
  }

  function BlocksTaken(bs: nat): nat -> nat
    requires bs > 0
  {
    size => BlocksOf(size, bs)
  }

  function InBinOf(bs: nat, k: nat): nat -> nat
    requires bs > 0
  {
    size => if InBin(Slack(size, bs), bs, k) then 1 else 0
  }

  function IsSlack(bs: nat, v: nat): nat -> nat
    requires bs > 0
  {
    size => if Slack(size, bs) == v then 1 else 0
  }

  function Size(): nat -> nat { size => size }

  // ---------------------------------------------------------------- what was seen

  // The slack values of what was seen, each weighed by the size it comes from
  function Entered(seen: seq<Seen>, w: nat -> nat): nat {
    if seen == [] then 0
    else
      var s := seen[|seen| - 1];
      Entered(seen[..|seen| - 1], w) + (if s.DirSeen? then 0 else w(s.size))
  }

  lemma NodesLast(seen: seq<Seen>)
    requires seen != []
    ensures var before, s := NodesIn(seen[..|seen| - 1]), seen[|seen| - 1];
            && NodesIn(seen) == (if s.ZoneSeen? then before else before + [s.ino])
            && (!s.ZoneSeen? ==> NodesIn(seen)[..|NodesIn(seen)| - 1] == before)
  {
    var before := NodesIn(seen[..|seen| - 1]);
    assert before + [] == before;
  }

  lemma {:induction false} FilesSeen(d: Disk, seen: seq<Seen>)
    requires d.v.blockSize > 0 && AllFromDisk(d, seen)
    ensures FilesIn(seen) == FilesAmong(d, NodesIn(seen))
    decreases |seen|
  {
    if seen != [] {
      var n := |seen| - 1;
      FilesSeen(d, seen[..n]);
      NodesLast(seen);
      assert FromDisk(d, seen[n]);
    }
  }

  // Whatever the weight, what was entered is owed to the inodes seen, and to direct
  // zones that no directory announced.
  lemma {:induction false} EnteredIs(d: Disk, seen: seq<Seen>, w: nat -> nat)
    requires d.v.blockSize > 0 && AllFromDisk(d, seen)
    ensures Entered(seen, w) == Balance(seen, w) + Weigh(d, NodesIn(seen), w)
    decreases |seen|
  {
    if seen != [] {
      EnteredIs(d, seen[..|seen| - 1], w);
      NodesLast(seen);
      assert FromDisk(d, seen[|seen| - 1]);
    }
  }

  lemma {:induction false} OnceEach(d: Disk, seen: seq<Seen>)
    requires d.v.blockSize > 0 && AllFromDisk(d, seen)
    ensures SizesIn(seen) == Plain(d, NodesIn(seen), Size())
    ensures BlocksIn(seen, d.v.blockSize) == Plain(d, NodesIn(seen), BlocksTaken(d.v.blockSize))
    ensures DirsIn(seen) == DirsAmong(d, NodesIn(seen))
    decreases |seen|
  {
    if seen != [] {
      OnceEach(d, seen[..|seen| - 1]);
      NodesLast(seen);
      assert FromDisk(d, seen[|seen| - 1]);
    }
  }

  lemma SlacksLast(seen: seq<Seen>, bs: nat)
    requires bs > 0 && seen != []
    ensures var before, s := Slacks(seen[..|seen| - 1], bs), seen[|seen| - 1];
            && Slacks(seen, bs) == (if s.DirSeen? then before else before + [Slack(s.size, bs)])
            && (!s.DirSeen? ==> Slacks(seen, bs)[..|Slacks(seen, bs)| - 1] == before)
  {
    var before := Slacks(seen[..|seen| - 1], bs);
    assert before + [] == before;
  }

  // Their number, their sum, the bins and each single value are weights.
  lemma {:induction false} SlacksAre(seen: seq<Seen>, bs: nat, k: nat, v: nat)
    requires bs > 0
    ensures |Slacks(seen, bs)| == Entered(seen, One())
    ensures Sum(Slacks(seen, bs)) == Entered(seen, SlackOf(bs))
    ensures Count(Slacks(seen, bs), bs, k) == Entered(seen, InBinOf(bs, k))
    ensures multiset(Slacks(seen, bs))[v] == Entered(seen, IsSlack(bs, v))
    decreases |seen|
  {
    if seen != [] {
      SlacksAre(seen[..|seen| - 1], bs, k, v);
      SlacksLast(seen, bs);
    }
  }

  // ------------------------------------------------------------------ the figures

  // The slack values of a walk are, with their multiplicities, those of the inodes
  // it saw: one for each file and one for each direct zone a directory takes up.
  lemma FiguresAre(d: Disk, rank: nat -> nat, n: nat)
    requires Ranked(d, rank) && rank(n) > 0
    ensures var t, bs := Trace(d, rank, n), d.v.blockSize; var ms := NodesIn(t); var slacks := Slacks(t, bs);
      && SizesIn(t) == Plain(d, ms, Size()) && BlocksIn(t, bs) == Plain(d, ms, BlocksTaken(bs))
      && DirsIn(t) == DirsAmong(d, ms) && FilesIn(t) == FilesAmong(d, ms)
      && |slacks| == Weigh(d, ms, One()) && Sum(slacks) == Weigh(d, ms, SlackOf(bs))
      && (forall k: nat :: Count(slacks, bs, k) == Weigh(d, ms, InBinOf(bs, k)))
      && (forall v: nat :: multiset(slacks)[v] == Weigh(d, ms, IsSlack(bs, v)))
  {
    var t, bs := Trace(d, rank, n), d.v.blockSize;
    TraceFromDisk(d, rank, n);
    OnceEach(d, t);
    FilesSeen(d, t);
    WeightIs(d, rank, n, One());
    WeightIs(d, rank, n, SlackOf(bs));
    SlacksAre(t, bs, 0, 0);
    forall k: nat
      ensures Count(Slacks(t, bs), bs, k) == Weigh(d, NodesIn(t), InBinOf(bs, k))
    {
      SlacksAre(t, bs, k, 0);
      WeightIs(d, rank, n, InBinOf(bs, k));
    }
    forall v: nat
      ensures multiset(Slacks(t, bs))[v] == Weigh(d, NodesIn(t), IsSlack(bs, v))
    {
      SlacksAre(t, bs, 0, v);
      WeightIs(d, rank, n, IsSlack(bs, v));
    }
  }

  lemma WeightIs(d: Disk, rank: nat -> nat, n: nat, w: nat -> nat)
    requires Ranked(d, rank) && rank(n) > 0
    ensures Entered(Trace(d, rank, n), w) == Weigh(d, NodesIn(Trace(d, rank, n)), w)
  {
    TraceFromDisk(d, rank, n);
    TraceBalanced(d, rank, n, w);
    EnteredIs(d, Trace(d, rank, n), w);
  }

  // The blocks in the direct zones zs[i..k]
  function HeldBy(d: Disk, zs: seq<nat>, i: nat, k: nat): nat
    requires k <= |zs|
    decreases k - i
  {
    if i >= k then 0 else (if zs[i] == 0 then 0 else Bpz(d.v)) + HeldBy(d, zs, i + 1, k)
  }

  lemma {:induction false} TurnsFrom(d: Disk, zs: seq<nat>, i: nat, cnt: nat)
    requires i <= |zs|
    ensures var k := i + Turns(Direct(d, zs, i, cnt));
            && k <= |zs| && (k == |zs| || HeldBy(d, zs, i, k) >= cnt)
            && forall j :: i <= j < k ==> HeldBy(d, zs, i, j) < cnt
    decreases |zs| - i
  {
    DirectTurns(d, zs, i, cnt);
    if i < |zs| && cnt > 0 {
      var left := cnt - Reads(d, zs[i], cnt);
      TurnsFrom(d, zs, i + 1, left);
      var k := i + 1 + Turns(Direct(d, zs, i + 1, left));
      forall j | i <= j < k
        ensures HeldBy(d, zs, i, j) < cnt
      {
        assert j > i ==> HeldBy(d, zs, i + 1, j) < left;
      }
    }
  }

  // A directory takes up direct zones until they hold its blocks, or all of them.
  lemma ShareIs(d: Disk, m: nat)
    requires Readable(d, m) && d.inode(m).isDir
    ensures var zs, cnt, k := d.inode(m).file.zones, BlockCount(d, m), Share(d, m);
            && k <= d.v.ndzones && (k == d.v.ndzones || HeldBy(d, zs, 0, k) >= cnt)
            && forall j: nat :: j < k ==> HeldBy(d, zs, 0, j) < cnt
  {
    var f := d.inode(m).file;
    var zs := f.zones[..d.v.ndzones];
    DirTurns(d, m);
    TurnsFrom(d, zs, 0, BlockCount(d, m));
    forall j: nat | j <= Share(d, m)
      ensures HeldBy(d, f.zones, 0, j) == HeldBy(d, zs, 0, j)
    {
      HeldPrefix(d, f.zones, d.v.ndzones, 0, j);
    }
  }

  lemma {:induction false} HeldPrefix(d: Disk, zs: seq<nat>, n: nat, i: nat, k: nat)
    requires k <= n <= |zs|
    ensures HeldBy(d, zs, i, k) == HeldBy(d, zs[..n], i, k)
    decreases k - i
  {
    if i < k {
      HeldPrefix(d, zs, n, i + 1, k);
    }
  }

  // An inode among ms gives rise to the slack value v.
  ghost predicate Gives(d: Disk, ms: seq<nat>, bs: nat, v: nat)
    requires bs > 0
  {
    exists i :: 0 <= i < |ms| && Share(d, ms[i]) > 0 && Slack(d.inode(ms[i]).file.size, bs) == v
  }

  lemma {:induction false} GivesIff(d: Disk, ms: seq<nat>, bs: nat, v: nat)
    requires bs > 0
    ensures Gives(d, ms, bs, v) <==> Weigh(d, ms, IsSlack(bs, v)) > 0
    decreases |ms|
  {
    if ms != [] {
      var n := |ms| - 1;
      GivesIff(d, ms[..n], bs, v);
      assert forall i :: 0 <= i < n ==> ms[..n][i] == ms[i];
      var here := Slack(d.inode(ms[n]).file.size, bs) == v;
      assert Share(d, ms[n]) * IsSlack(bs, v)(d.inode(ms[n]).file.size) == if here then Share(d, ms[n]) else 0;
    }
  }

  // The least and the greatest slack value
  lemma ExtremesAre(d: Disk, rank: nat -> nat, n: nat)
    requires Ranked(d, rank) && rank(n) > 0
    ensures var t, bs := Trace(d, rank, n), d.v.blockSize; var ms := NodesIn(t);
            var least, largest := MinFrom(Slacks(t, bs), bs), MaxFrom(Slacks(t, bs));
      && (forall v: nat :: Gives(d, ms, bs, v) ==> least <= v <= largest)
      && (Slacks(t, bs) != [] ==> Gives(d, ms, bs, least) && Gives(d, ms, bs, largest))
      && (Slacks(t, bs) == [] ==> least == bs && largest == 0)
  {
    var t, bs := Trace(d, rank, n), d.v.blockSize;
    FiguresAre(d, rank, n);
    SlacksSmall(t, bs);
    forall v: nat
      ensures Gives(d, NodesIn(t), bs, v) <==> v in Slacks(t, bs)
    {
      GivesIff(d, NodesIn(t), bs, v);
    }
    if Slacks(t, bs) != [] {
      MinSumMax(Slacks(t, bs), bs);
    }
  }

  // ------------------------------------------------------- the figures reported

  // The figures printed, in terms of the inodes seen
  ghost predicate Printed(d: Disk, ms: seq<nat>, files: int, dirs: nat, blocks: nat, total: nat, least: nat,
      largest: nat, bins: seq<nat>)
    requires d.v.blockSize > 0
  {
    var bs := d.v.blockSize;
    && files == Weigh(d, ms, One()) - DirsAmong(d, ms) && dirs == DirsAmong(d, ms)
    && blocks == Plain(d, ms, BlocksTaken(bs)) && total == Weigh(d, ms, SlackOf(bs))
    && |bins| == BINS && (forall k :: 0 <= k < BINS ==> bins[k] == Weigh(d, ms, InBinOf(bs, k)))
    && (forall v: nat :: Gives(d, ms, bs, v) ==> least <= v <= largest)
    && (files + dirs > 0 ==> Gives(d, ms, bs, least) && Gives(d, ms, bs, largest))
    && (files + dirs == 0 ==> least == bs && largest == 0)
  }

  // The variables of the walk at its end
  ghost predicate Ended(t: seq<Seen>, bs: nat, entries: nat, dirs: nat, blocks: nat, total: nat, least: nat,
      largest: nat, bins: seq<nat>)
    requires bs > 0
  {
    && entries == |Slacks(t, bs)| && dirs == DirsIn(t) && blocks == BlocksIn(t, bs) && total == Sum(Slacks(t, bs))
    && least == MinFrom(Slacks(t, bs), bs) && largest == MaxFrom(Slacks(t, bs))
    && |bins| == BINS && forall k :: 0 <= k < BINS ==> bins[k] == Count(Slacks(t, bs), bs, k)
  }

  lemma EndedPrints(d: Disk, rank: nat -> nat, n: nat, entries: nat, dirs: nat, blocks: nat, total: nat, least: nat,
      largest: nat, bins: seq<nat>)
    requires Ranked(d, rank) && rank(n) > 0
    requires Ended(Trace(d, rank, n), d.v.blockSize, entries, dirs, blocks, total, least, largest, bins)
    ensures Printed(d, NodesIn(Trace(d, rank, n)), entries - dirs, dirs, blocks, total, least, largest, bins)
  {
    FiguresAre(d, rank, n);
    ExtremesAre(d, rank, n);
  }

  // The counts of what was seen behind the figures
  ghost predicate Balanced(t: seq<Seen>, bs: nat, files: int, dirs: nat, blocks: nat, total: nat)
    requires bs > 0
  {
    && files == FilesIn(t) + Excess(t, One()) && BinSum(Slacks(t, bs), bs, BINS) == files + dirs
    && SizesIn(t) + total == bs * blocks + Excess(t, SlackOf(bs))
  }

  lemma EndedBalances(d: Disk, rank: nat -> nat, n: nat, entries: nat, dirs: nat, blocks: nat, total: nat, least: nat,
      largest: nat, bins: seq<nat>)
    requires Ranked(d, rank) && rank(n) > 0
    requires Ended(Trace(d, rank, n), d.v.blockSize, entries, dirs, blocks, total, least, largest, bins)
    ensures Balanced(Trace(d, rank, n), d.v.blockSize, entries - dirs, dirs, blocks, total)
  {
    Conservation(d, rank, n);
    SlacksSmall(Trace(d, rank, n), d.v.blockSize);
    BinsSumToEntries(Slacks(Trace(d, rank, n), d.v.blockSize), d.v.blockSize);
  }

  lemma StatsEnded(s: FragStats)
    requires s.Valid()
    ensures Ended(s.seen, s.d.v.blockSize, s.numEntries, s.numDirs, s.totBlocks, s.totIntFrag, s.minVal, s.maxVal,
              s.fragStat[..])
  {
  }

  // fs_get_int_frag: the figures printed for the tree below inode n.
  method GetIntFrag(d: Disk, ghost rank: nat -> nat, n: nat)
    returns (files: int, dirs: nat, blocks: nat, total: nat, least: nat, largest: nat, bins: seq<nat>)
    requires Ranked(d, rank) && rank(n) > 0
    ensures Printed(d, NodesIn(Trace(d, rank, n)), files, dirs, blocks, total, least, largest, bins)
    ensures Balanced(Trace(d, rank, n), d.v.blockSize, files, dirs, blocks, total)
  {
    var stats := new FragStats(d, rank);
    stats.FindIntFrag(n);
    assert stats.seen == Trace(d, rank, n);
    StatsEnded(stats);
    var entries;
    entries, dirs, blocks, total := stats.numEntries, stats.numDirs, stats.totBlocks, stats.totIntFrag;
    least, largest, bins := stats.minVal, stats.maxVal, stats.fragStat[..];
    EndedPrints(d, rank, n, entries, dirs, blocks, total, least, largest, bins);
    EndedBalances(d, rank, n, entries, dirs, blocks, total, least, largest, bins);
    files := entries - dirs;
  }
}
