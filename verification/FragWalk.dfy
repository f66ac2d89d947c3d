// Internal fragmentation: the recursive walk over a directory tree.
module FragWalk {
  import opened ZoneWalk
  import Arithmetic

  const BINS := 8

  datatype Inode = Inode(isDir: bool, file: File)

  // `inode(n)` is inode n; `entries(b)` lists the inode numbers in block b read as
  // a directory block, 0 for an entry not in use.  The first block of a directory
  // starts with "." and "..".
  datatype Disk = Disk(v: Volume, inode: nat -> Inode, entries: nat -> seq<nat>)

  // -------------------------------------------------- what reading one inode does

  // Taking up a direct zone, and reading a directory block.
  datatype Step = Zone | Block(b: nat)

  // How many blocks of zone z are read when cnt are still to come.
  function Reads(d: Disk, z: nat, cnt: nat): (k: nat)
    ensures k <= cnt && (z == 0 ==> k == 0) && (z != 0 && cnt > 0 ==> k > 0)
  {
    if z == 0 then 0 else if cnt < Bpz(d.v) then cnt else Bpz(d.v)
  }

  // The block numbers as the text computes them, zone << (scale + i).
  function ZoneReads(d: Disk, z: nat, k: nat): (r: seq<Step>)
    ensures |r| == k && forall i :: 0 <= i < k ==> r[i] == Block(z * Pow2(d.v.scale + i))
  {
    seq(k, i requires 0 <= i < k => Block(z * Pow2(d.v.scale + i)))
  }

  // The direct zones zs[i..]
  function Direct(d: Disk, zs: seq<nat>, i: nat, cnt: nat): seq<Step>
    requires i <= |zs|
    decreases |zs| - i
  {
    if i == |zs| || cnt == 0 then []
    else
      var k := Reads(d, zs[i], cnt);
      [Zone] + (ZoneReads(d, zs[i], k) + Direct(d, zs, i + 1, cnt - k))
  }

  // The zones zs[i..] of an indirect zone
  function Listed(d: Disk, zs: seq<nat>, i: nat, cnt: nat): seq<Step>
    requires i <= |zs|
    decreases |zs| - i
  {
    if i == |zs| || cnt == 0 then []
    else
      var k := Reads(d, zs[i], cnt);
      ZoneReads(d, zs[i], k) + Listed(d, zs, i + 1, cnt - k)
  }

  // Blocks still to come after the zones zs[i..].
  function LeftOver(d: Disk, zs: seq<nat>, i: nat, cnt: nat): (r: nat)
    requires i <= |zs|
    ensures r <= cnt
    decreases |zs| - i
  {
    if i == |zs| || cnt == 0 then cnt else LeftOver(d, zs, i + 1, cnt - Reads(d, zs[i], cnt))
  }

  // The indirect zones zs[i..] of a double indirect zone
  function Nested(d: Disk, zs: seq<nat>, i: nat, cnt: nat): seq<Step>
    requires i <= |zs|
    decreases |zs| - i
  {
    if i == |zs| || cnt == 0 then []
    else
      var inner := SingleZones(d.v, zs[i]);
      Listed(d, inner, 0, cnt) + Nested(d, zs, i + 1, LeftOver(d, inner, 0, cnt))
  }

  // Direct zones, then those of the single and of the double indirect zone
  function ZoneSteps(d: Disk, direct: seq<nat>, single: seq<nat>, tables: seq<nat>, cnt: nat): seq<Step> {
    var rest := LeftOver(d, direct, 0, cnt);
    Direct(d, direct, 0, cnt) + (Listed(d, single, 0, rest) + Nested(d, tables, 0, LeftOver(d, single, 0, rest)))
  }

  function DirSteps(d: Disk, n: nat): seq<Step>
    requires d.v.blockSize > 0 && Fits(d.v, d.inode(n).file)
  {
    var f := d.inode(n).file;
    ZoneSteps(d, f.zones[..d.v.ndzones], SingleZones(d.v, f.zones[d.v.ndzones]),
      SingleZones(d.v, f.zones[d.v.ndzones + 1]), BlocksOf(f.size, d.v.blockSize))
  }

  // The entries of a block that are followed: not the first two of any block
  // (the text counts from 0 in each), not unused ones, not the root, not the
  // directory itself.
  function Kept(d: Disk, n: nat, b: nat): seq<nat> {
    if |d.entries(b)| <= 2 then [] else KeptOf(d.entries(b)[2..], n)
  }

  function KeptOf(es: seq<nat>, n: nat): seq<nat> {
    if es == [] then [] else (if es[0] < 2 || es[0] == n then [] else [es[0]]) + KeptOf(es[1..], n)
  }

  // ------------------------------------------------------ what the walk comes to

  // A file; a directory and the number of its direct zones taken up; a direct
  // zone of a directory of that size.
  datatype Seen = FileSeen(size: nat, ino: nat) | DirSeen(size: nat, turns: nat, ino: nat) | ZoneSeen(size: nat)

  // Inodes of rank 0 are not walked to.  The entries followed in a step are, and
  // have lower rank than the directory.
  ghost predicate Lower(d: Disk, rank: nat -> nat, n: nat, s: Step) {
    s.Block? ==> KidsLower(rank, n, Kept(d, n, s.b))
  }

  ghost predicate KidsLower(rank: nat -> nat, n: nat, kids: seq<nat>) {
    kids != [] ==> 0 < rank(kids[0]) < rank(n) && KidsLower(rank, n, kids[1..])
  }

  ghost predicate AllLower(d: Disk, rank: nat -> nat, n: nat, steps: seq<Step>) {
    steps != [] ==> Lower(d, rank, n, steps[0]) && AllLower(d, rank, n, steps[1..])
  }

  ghost predicate Sound(d: Disk, rank: nat -> nat, n: nat) {
    && d.v.blockSize > 0 && Fits(d.v, d.inode(n).file)
    && (d.inode(n).isDir ==> AllLower(d, rank, n, DirSteps(d, n)))
  }

  // From every inode walked to, the walk comes to an end.  Such ranks exist exactly
  // when it does (module FragEnds).
  ghost predicate Ranked(d: Disk, rank: nat -> nat) {
    d.v.blockSize > 0 && forall n: nat {:trigger Sound(d, rank, n)} :: rank(n) > 0 ==> Sound(d, rank, n)
  }

  function Turns(steps: seq<Step>): nat {
    if steps == [] then 0 else (if steps[0] == Zone then 1 else 0) + Turns(steps[1..])
  }

  ghost function Trace(d: Disk, rank: nat -> nat, n: nat): seq<Seen>
    requires Ranked(d, rank) && rank(n) > 0
    decreases rank(n), 2, 0
  {
    assert Sound(d, rank, n);
    var size := d.inode(n).file.size;
    if !d.inode(n).isDir then [FileSeen(size, n)]
    else [DirSeen(size, Turns(DirSteps(d, n)), n)] + StepsTrace(d, rank, n, DirSteps(d, n))
  }

  ghost function StepsTrace(d: Disk, rank: nat -> nat, n: nat, steps: seq<Step>): seq<Seen>
    requires Ranked(d, rank)
    decreases rank(n), 1, |steps|
  {
    if steps == [] then []
    else StepTrace(d, rank, n, steps[0]) + StepsTrace(d, rank, n, steps[1..])
  }

  ghost function StepTrace(d: Disk, rank: nat -> nat, n: nat, s: Step): seq<Seen>
    requires Ranked(d, rank)
    decreases rank(n), 1, 0
  {
    match s
    case Zone => [ZoneSeen(d.inode(n).file.size)]
    case Block(b) => KidsTrace(d, rank, n, Kept(d, n, b))
  }

  // The comparison of ranks holds wherever AllLower does.
  ghost function KidsTrace(d: Disk, rank: nat -> nat, n: nat, kids: seq<nat>): seq<Seen>
    requires Ranked(d, rank)
    decreases rank(n), 0, |kids|
  {
    if kids == [] then []
    else (if 0 < rank(kids[0]) < rank(n) then Trace(d, rank, kids[0]) else []) + KidsTrace(d, rank, n, kids[1..])
  }

  lemma {:induction false} StepsAppend(d: Disk, rank: nat -> nat, n: nat, a: seq<Step>, b: seq<Step>)
    requires Ranked(d, rank)
    ensures StepsTrace(d, rank, n, a + b) == StepsTrace(d, rank, n, a) + StepsTrace(d, rank, n, b)
    decreases |a|
  {
    if a == [] {
      assert a + b == b;
    } else {
      assert (a + b)[1..] == a[1..] + b && (a + b)[0] == a[0];
      StepsAppend(d, rank, n, a[1..], b);
      Joined(StepTrace(d, rank, n, a[0]), StepsTrace(d, rank, n, a[1..]), StepsTrace(d, rank, n, b));
    }
  }

  lemma {:induction false} LowerAppend(d: Disk, rank: nat -> nat, n: nat, a: seq<Step>, b: seq<Step>)
    ensures AllLower(d, rank, n, a + b) <==> AllLower(d, rank, n, a) && AllLower(d, rank, n, b)
    decreases |a|
  {
    if a == [] {
      assert a + b == b;
    } else {
      assert (a + b)[1..] == a[1..] + b && (a + b)[0] == a[0];
      LowerAppend(d, rank, n, a[1..], b);
    }
  }

  // Having seen s, the steps still to be done lead to goal.
  ghost predicate Owes(d: Disk, rank: nat -> nat, n: nat, s: seq<Seen>, steps: seq<Step>, goal: seq<Seen>)
    requires Ranked(d, rank)
  {
    AllLower(d, rank, n, steps) && s + StepsTrace(d, rank, n, steps) == goal
  }

  lemma OwesRest(d: Disk, rank: nat -> nat, n: nat, s: seq<Seen>, a: seq<Step>, b: seq<Step>, goal: seq<Seen>)
    requires Ranked(d, rank) && Owes(d, rank, n, s, a + b, goal)
    ensures AllLower(d, rank, n, a) && Owes(d, rank, n, s + StepsTrace(d, rank, n, a), b, goal)
  {
    StepsAppend(d, rank, n, a, b);
    LowerAppend(d, rank, n, a, b);
    Joined(s, StepsTrace(d, rank, n, a), StepsTrace(d, rank, n, b));
  }

  lemma OwesNone(d: Disk, rank: nat -> nat, n: nat, s: seq<Seen>, a: seq<Step>, b: seq<Step>, goal: seq<Seen>)
    requires Ranked(d, rank) && Owes(d, rank, n, s, a + b, goal) && a == []
    ensures Owes(d, rank, n, s, b, goal)
  {
    assert a + b == b;
  }

  lemma OwesZone(d: Disk, rank: nat -> nat, n: nat, s: seq<Seen>, b: seq<Step>, goal: seq<Seen>)
    requires Ranked(d, rank) && Owes(d, rank, n, s, [Zone] + b, goal)
    ensures Owes(d, rank, n, s + [ZoneSeen(d.inode(n).file.size)], b, goal)
  {
    OwesRest(d, rank, n, s, [Zone], b, goal);
    assert [Zone][1..] == [] && [Zone][0] == Zone;
    assert StepTrace(d, rank, n, Zone) + [] == StepTrace(d, rank, n, Zone);
  }

  lemma OwesBlock(d: Disk, rank: nat -> nat, n: nat, s: seq<Seen>, b: nat, rest: seq<Step>, goal: seq<Seen>)
    requires Ranked(d, rank) && Owes(d, rank, n, s, [Block(b)] + rest, goal)
    ensures Lower(d, rank, n, Block(b))
    ensures Owes(d, rank, n, s + KidsTrace(d, rank, n, Kept(d, n, b)), rest, goal)
  {
    OwesRest(d, rank, n, s, [Block(b)], rest, goal);
    assert [Block(b)][0] == Block(b) && [Block(b)][1..] == [];
    assert StepTrace(d, rank, n, Block(b)) + [] == StepTrace(d, rank, n, Block(b));
  }

  // The same of the entries es of a block
  ghost predicate OwesEntries(d: Disk, rank: nat -> nat, n: nat, s: seq<Seen>, es: seq<nat>, goal: seq<Seen>)
    requires Ranked(d, rank)
  {
    KidsLower(rank, n, KeptOf(es, n)) && s + KidsTrace(d, rank, n, KeptOf(es, n)) == goal
  }

  lemma OwesKid(d: Disk, rank: nat -> nat, n: nat, s: seq<Seen>, e: nat, rest: seq<nat>)
    requires Ranked(d, rank) && KidsLower(rank, n, [e] + rest)
    ensures 0 < rank(e) < rank(n) && KidsLower(rank, n, rest)
    ensures s + KidsTrace(d, rank, n, [e] + rest) == (s + Trace(d, rank, e)) + KidsTrace(d, rank, n, rest)
  {
    assert ([e] + rest)[1..] == rest && ([e] + rest)[0] == e;
    Joined(s, Trace(d, rank, e), KidsTrace(d, rank, n, rest));
  }

  lemma Joined(s: seq<Seen>, a: seq<Seen>, b: seq<Seen>)
    ensures (s + a) + b == s + (a + b)
  {
  }

  // ----------------------------------------------------------------- statistics

  function Slack(size: nat, bs: nat): (r: nat)
    requires bs > 0
    ensures r < bs
  {
    var used := size % bs;
    if used == 0 then 0 else bs - used
  }

  // The slack values entered into the statistics.
  function Slacks(seen: seq<Seen>, bs: nat): seq<nat>
    requires bs > 0
  {
    if seen == [] then []
    else
      var last := seen[|seen| - 1];
      Slacks(seen[..|seen| - 1], bs) + (if last.DirSeen? then [] else [Slack(last.size, bs)])
  }

  function BinOf(slack: nat, bs: nat): (k: nat)
    requires bs > 0 && slack < bs
    ensures k < BINS
  {
    (slack * BINS) / bs
  }

  // Bin k is for the slack values v with k/8 <= v/bs < (k+1)/8.
  predicate InBin(v: nat, bs: nat, k: nat) { k * bs <= v * BINS < (k + 1) * bs }

  lemma BinIff(v: nat, bs: nat, k: nat)
    requires bs > 0 && v < bs
    ensures InBin(v, bs, k) <==> k == BinOf(v, bs)
  {
    var q := BinOf(v, bs);
    assert v * BINS == q * bs + (v * BINS) % bs;
    if k < q {
      Arithmetic.Larger(k + 1, q, bs);
    } else if k > q {
      Arithmetic.Larger(q + 1, k, bs);
    }
  }

  function Count(slacks: seq<nat>, bs: nat, k: nat): nat {
    if slacks == [] then 0
    else Count(slacks[..|slacks| - 1], bs, k) + (if InBin(slacks[|slacks| - 1], bs, k) then 1 else 0)
  }

  function Sum(slacks: seq<nat>): nat {
    if slacks == [] then 0 else Sum(slacks[..|slacks| - 1]) + slacks[|slacks| - 1]
  }

  function MinFrom(slacks: seq<nat>, top: nat): nat {
    if slacks == [] then top
    else
      var m, s := MinFrom(slacks[..|slacks| - 1], top), slacks[|slacks| - 1];
      if s < m then s else m
  }

  function MaxFrom(slacks: seq<nat>): nat {
    if slacks == [] then 0
    else
      var m, s := MaxFrom(slacks[..|slacks| - 1]), slacks[|slacks| - 1];
      if s > m then s else m
  }

  function DirsIn(seen: seq<Seen>): nat {
    if seen == [] then 0 else DirsIn(seen[..|seen| - 1]) + (if seen[|seen| - 1].DirSeen? then 1 else 0)
  }

  function BlocksIn(seen: seq<Seen>, bs: nat): nat
    requires bs > 0
  {
    if seen == [] then 0
    else
      var last := seen[|seen| - 1];
      BlocksIn(seen[..|seen| - 1], bs) + (if last.ZoneSeen? then 0 else BlocksOf(last.size, bs))
  }

  // ------------------------------------------------------------------- the walk

  class FragStats {
    const d: Disk
    ghost const rank: nat -> nat
    var totIntFrag: nat
    var numEntries: nat
    var minVal: nat
    var maxVal: nat
    var numDirs: nat
    const fragStat: array<nat>
    var totBlocks: nat

    ghost var seen: seq<Seen>

    // The figures are those of the slack values.
    ghost predicate Figures(slacks: seq<nat>)
      reads this, fragStat
    {
      && fragStat.Length == BINS && d.v.blockSize > 0
      && totIntFrag == Sum(slacks) && numEntries == |slacks|
      && minVal == MinFrom(slacks, d.v.blockSize) && maxVal == MaxFrom(slacks)
      && (forall k :: 0 <= k < BINS ==> fragStat[k] == Count(slacks, d.v.blockSize, k))
    }

    // At every point of the walk the statistics are those of what has been seen.
    ghost predicate Valid()
      reads this, fragStat
    {
      && Ranked(d, rank) && Figures(Slacks(seen, d.v.blockSize))
      && numDirs == DirsIn(seen) && totBlocks == BlocksIn(seen, d.v.blockSize)
    }

    // The initialisation in fs_get_int_frag
    constructor (d: Disk, ghost rank: nat -> nat)
      requires Ranked(d, rank)
      ensures Valid() && fresh(fragStat) && seen == [] && this.d == d && this.rank == rank
    {
      this.d, this.rank := d, rank;
      totIntFrag, numEntries, numDirs, totBlocks := 0, 0, 0, 0;
      minVal, maxVal := d.v.blockSize, 0;
      fragStat := new nat[BINS](_ => 0);
      seen := [];
    }

    // Entering a slack value
    method Enter(size: nat, ghost slacks: seq<nat>)
      requires Figures(slacks)
      modifies this`totIntFrag, this`numEntries, this`minVal, this`maxVal, fragStat
      ensures Figures(slacks + [Slack(size, d.v.blockSize)])
    {
      var used := size % d.v.blockSize;
      var slack := if used == 0 then 0 else d.v.blockSize - used;
      assert (slacks + [slack])[..|slacks|] == slacks;
      totIntFrag := totIntFrag + slack;
      minVal := if slack < minVal then slack else minVal;
      maxVal := if slack > maxVal then slack else maxVal;
      numEntries := numEntries + 1;
      var bin := BinOf(slack, d.v.blockSize);
      forall k | 0 <= k < BINS
        ensures Count(slacks + [slack], d.v.blockSize, k) == Count(slacks, d.v.blockSize, k) + if k == bin then 1 else 0
      {
        BinIff(slack, d.v.blockSize, k);
      }
      fragStat[bin] := fragStat[bin] + 1;
    }

    method EnterFile(size: nat, ghost n: nat)
      requires Valid()
      modifies this, fragStat
      ensures Valid() && seen == old(seen) + [FileSeen(size, n)]
    {
      assert (seen + [FileSeen(size, n)])[..|seen|] == seen;
      totBlocks := totBlocks + BlocksOf(size, d.v.blockSize);
      Enter(size, Slacks(seen, d.v.blockSize));
      seen := seen + [FileSeen(size, n)];
    }

    method EnterDir(size: nat, ghost turns: nat, ghost n: nat)
      requires Valid()
      modifies this, fragStat
      ensures Valid() && seen == old(seen) + [DirSeen(size, turns, n)]
    {
      assert (seen + [DirSeen(size, turns, n)])[..|seen|] == seen;
      assert Slacks(seen + [DirSeen(size, turns, n)], d.v.blockSize) == Slacks(seen, d.v.blockSize);
      totBlocks := totBlocks + BlocksOf(size, d.v.blockSize);
      numDirs := numDirs + 1;
      seen := seen + [DirSeen(size, turns, n)];
    }

    method EnterZone(size: nat)
      requires Valid()
      modifies this, fragStat
      ensures Valid() && seen == old(seen) + [ZoneSeen(size)]
    {
      assert (seen + [ZoneSeen(size)])[..|seen|] == seen;
      Enter(size, Slacks(seen, d.v.blockSize));
      seen := seen + [ZoneSeen(size)];
    }

    // find_int_frag
    method FindIntFrag(n: nat)
      requires Valid() && rank(n) > 0
      modifies this, fragStat
      ensures Valid() && seen == old(seen) + Trace(d, rank, n)
      decreases rank(n), 6, 0
    {
      assert Sound(d, rank, n);
      var f := d.inode(n).file;
      if !d.inode(n).isDir {
        EnterFile(f.size, n);
      } else {
        EnterDir(f.size, Turns(DirSteps(d, n)), n);
        ReadDir(n, f);
        Joined(old(seen), [DirSeen(f.size, Turns(DirSteps(d, n)), n)], StepsTrace(d, rank, n, DirSteps(d, n)));
      }
    }

    // The directory branch of find_int_frag
    method ReadDir(n: nat, f: File)
      requires Valid() && d.inode(n) == Inode(true, f) && Sound(d, rank, n)
      modifies this, fragStat
      ensures Valid() && seen == old(seen) + StepsTrace(d, rank, n, DirSteps(d, n))
      decreases rank(n), 5, 0
    {
      ghost var goal := seen + StepsTrace(d, rank, n, DirSteps(d, n));
      ghost var direct := f.zones[..d.v.ndzones];
      ghost var single, double := SingleZones(d.v, f.zones[d.v.ndzones]), SingleZones(d.v, f.zones[d.v.ndzones + 1]);
      var left := BlocksOf(f.size, d.v.blockSize);
      ghost var rest := LeftOver(d, direct, 0, left);
      ghost var last := LeftOver(d, single, 0, rest);
      OwesRest(d, rank, n, seen, Direct(d, direct, 0, left),
        Listed(d, single, 0, rest) + Nested(d, double, 0, last), goal);
      left := DirectZones(n, f, left);
      left := SingleIfLeft(n, f.zones[d.v.ndzones], left, Nested(d, double, 0, last), goal);
      if left > 0 {
        DoubleInd(n, f.zones[d.v.ndzones + 1], left);
      } else {
        assert seen + [] == seen;
      }
    }

    // The single indirect zone is read only if blocks are left.
    method SingleIfLeft(n: nat, z: nat, cnt: nat, ghost rest: seq<Step>, ghost goal: seq<Seen>) returns (left: nat)
      requires Valid() && Owes(d, rank, n, seen, Listed(d, SingleZones(d.v, z), 0, cnt) + rest, goal)
      modifies this, fragStat
      ensures Valid() && Owes(d, rank, n, seen, rest, goal) && left == LeftOver(d, SingleZones(d.v, z), 0, cnt)
      decreases rank(n), 4, 1
    {
      left := cnt;
      if left > 0 {
        left := ListedSingle(n, z, left, rest, goal);
      } else {
        OwesNone(d, rank, n, seen, Listed(d, SingleZones(d.v, z), 0, cnt), rest, goal);
      }
    }

    method DirectZones(n: nat, f: File, cnt: nat) returns (left: nat)
      requires Valid() && d.inode(n).file == f && Fits(d.v, f)
      requires AllLower(d, rank, n, Direct(d, f.zones[..d.v.ndzones], 0, cnt))
      modifies this, fragStat
      ensures Valid() && seen == old(seen) + StepsTrace(d, rank, n, Direct(d, f.zones[..d.v.ndzones], 0, cnt))
      ensures left == LeftOver(d, f.zones[..d.v.ndzones], 0, cnt)
      decreases rank(n), 4, 0
    {
      ghost var zs := f.zones[..d.v.ndzones];
      ghost var goal := old(seen) + StepsTrace(d, rank, n, Direct(d, zs, 0, cnt));
      left := cnt;
      var i := 0;
      while i < d.v.ndzones && left > 0
        invariant 0 <= i <= d.v.ndzones && Valid()
        invariant Owes(d, rank, n, seen, Direct(d, zs, i, left), goal)
        invariant LeftOver(d, zs, i, left) == LeftOver(d, zs, 0, cnt)
      {
        left := DirectTurn(n, f.zones[i], f.size, zs, i, left, goal);
        i := i + 1;
      }
      assert seen + [] == seen;
    }

    method DirectTurn(n: nat, z: nat, size: nat, ghost zs: seq<nat>, ghost i: nat, cnt: nat, ghost goal: seq<Seen>)
      returns (left: nat)
      requires Valid() && d.inode(n).file.size == size && i < |zs| && zs[i] == z && cnt > 0
      requires Owes(d, rank, n, seen, Direct(d, zs, i, cnt), goal)
      modifies this, fragStat
      ensures Valid() && left == cnt - Reads(d, z, cnt)
      ensures Owes(d, rank, n, seen, Direct(d, zs, i + 1, left), goal)
      decreases rank(n), 3, 1
    {
      left := DirectZone(n, z, size, cnt, Direct(d, zs, i + 1, cnt - Reads(d, z, cnt)), goal);
    }

    // One direct zone: its slack, then its blocks
    method DirectZone(n: nat, z: nat, size: nat, cnt: nat, ghost rest: seq<Step>, ghost goal: seq<Seen>)
      returns (left: nat)
      requires Valid() && d.inode(n).file.size == size
      requires Owes(d, rank, n, seen, [Zone] + (ZoneReads(d, z, Reads(d, z, cnt)) + rest), goal)
      modifies this, fragStat
      ensures Valid() && left == cnt - Reads(d, z, cnt)
      ensures Owes(d, rank, n, seen, rest, goal)
      decreases rank(n), 3, 0
    {
      OwesZone(d, rank, n, seen, ZoneReads(d, z, Reads(d, z, cnt)) + rest, goal);
      EnterZone(size);
      left := ListedZone(n, z, cnt, rest, goal);
    }

    // get_frag_for_dir_zone
    method DirZone(n: nat, z: nat, cnt: nat) returns (left: nat)
      requires Valid() && AllLower(d, rank, n, ZoneReads(d, z, Reads(d, z, cnt)))
      modifies this, fragStat
      ensures Valid() && seen == old(seen) + StepsTrace(d, rank, n, ZoneReads(d, z, Reads(d, z, cnt)))
      ensures left == cnt - Reads(d, z, cnt)
      decreases rank(n), 2, 0
    {
      ghost var k := Reads(d, z, cnt);
      ghost var all := ZoneReads(d, z, k);
      left := cnt;
      if left == 0 || z == 0 {
        assert all == [] && seen + [] == seen;
        return;
      }
      ghost var goal := old(seen) + StepsTrace(d, rank, n, all);
      var i := 0;
      assert all[0..] == all;
      while i < Bpz(d.v) && left > 0
        invariant 0 <= i <= k && left == cnt - i && Valid()
        invariant Owes(d, rank, n, seen, all[i..], goal)
      {
        var b := z * Pow2(d.v.scale + i);
        assert all[i..] == [Block(b)] + all[i + 1..];
        OwesBlock(d, rank, n, seen, b, all[i + 1..], goal);
        ReadBlock(n, b);
        left := left - 1;
        i := i + 1;
      }
      assert all[i..] == [] && seen + [] == seen;
    }

    // The entries of one directory block
    method ReadBlock(n: nat, b: nat)
      requires Valid() && Lower(d, rank, n, Block(b))
      modifies this, fragStat
      ensures Valid() && seen == old(seen) + KidsTrace(d, rank, n, Kept(d, n, b))
      decreases rank(n), 1, 0
    {
      var es := d.entries(b);
      if |es| <= 2 {
        assert seen + [] == seen;
        return;
      }
      ghost var goal := old(seen) + KidsTrace(d, rank, n, Kept(d, n, b));
      var i := 2;
      while i < |es|
        invariant 2 <= i <= |es| && Valid() && OwesEntries(d, rank, n, seen, es[i..], goal)
      {
        assert es[i..][0] == es[i] && es[i..][1..] == es[i + 1..];
        ReadEntry(n, es[i], es[i..], goal);
        i := i + 1;
      }
      assert es[i..] == [] && seen + [] == seen;
    }

    // One entry: followed, or passed over
    method ReadEntry(n: nat, e: nat, ghost es: seq<nat>, ghost goal: seq<Seen>)
      requires Valid() && es != [] && e == es[0] && OwesEntries(d, rank, n, seen, es, goal)
      modifies this, fragStat
      ensures Valid() && OwesEntries(d, rank, n, seen, es[1..], goal)
      decreases rank(n), 0, 0
    {
      if !(e < 2 || e == n) {
        OwesKid(d, rank, n, seen, e, KeptOf(es[1..], n));
        FindIntFrag(e);
      } else {
        assert KeptOf(es, n) == KeptOf(es[1..], n);
      }
    }

    method ListedZone(n: nat, z: nat, cnt: nat, ghost rest: seq<Step>, ghost goal: seq<Seen>) returns (left: nat)
      requires Valid() && Owes(d, rank, n, seen, ZoneReads(d, z, Reads(d, z, cnt)) + rest, goal)
      modifies this, fragStat
      ensures Valid() && left == cnt - Reads(d, z, cnt)
      ensures Owes(d, rank, n, seen, rest, goal)
      decreases rank(n), 2, 1
    {
      OwesRest(d, rank, n, seen, ZoneReads(d, z, Reads(d, z, cnt)), rest, goal);
      left := DirZone(n, z, cnt);
    }

    // get_frag_sin_ind_zone
    method SingleInd(n: nat, z: nat, cnt: nat) returns (left: nat)
      requires Valid() && AllLower(d, rank, n, Listed(d, SingleZones(d.v, z), 0, cnt))
      modifies this, fragStat
      ensures Valid() && seen == old(seen) + StepsTrace(d, rank, n, Listed(d, SingleZones(d.v, z), 0, cnt))
      ensures left == LeftOver(d, SingleZones(d.v, z), 0, cnt)
      decreases rank(n), 3, 0
    {
      left := cnt;
      if z == 0 {
        assert seen + [] == seen;
        return;
      }
      ghost var zs := Table(d.v, z, d.v.nindirs);
      ghost var goal := old(seen) + StepsTrace(d, rank, n, Listed(d, zs, 0, cnt));
      var i := 0;
      while i < d.v.nindirs && left > 0
        invariant 0 <= i <= d.v.nindirs && Valid()
        invariant Owes(d, rank, n, seen, Listed(d, zs, i, left), goal)
        invariant LeftOver(d, zs, i, left) == LeftOver(d, zs, 0, cnt)
      {
        var y := d.v.indir(z * Bpz(d.v), i);
        left := ListedZone(n, y, left, Listed(d, zs, i + 1, left - Reads(d, y, left)), goal);
        i := i + 1;
      }
      assert seen + [] == seen;
    }

    method ListedSingle(n: nat, z: nat, cnt: nat, ghost rest: seq<Step>, ghost goal: seq<Seen>) returns (left: nat)
      requires Valid() && Owes(d, rank, n, seen, Listed(d, SingleZones(d.v, z), 0, cnt) + rest, goal)
      modifies this, fragStat
      ensures Valid() && left == LeftOver(d, SingleZones(d.v, z), 0, cnt)
      ensures Owes(d, rank, n, seen, rest, goal)
      decreases rank(n), 3, 1
    {
      OwesRest(d, rank, n, seen, Listed(d, SingleZones(d.v, z), 0, cnt), rest, goal);
      left := SingleInd(n, z, cnt);
    }

    method NestedTurn(n: nat, z: nat, ghost zs: seq<nat>, ghost i: nat, cnt: nat, ghost goal: seq<Seen>)
      returns (left: nat)
      requires Valid() && i < |zs| && zs[i] == z && cnt > 0 && Owes(d, rank, n, seen, Nested(d, zs, i, cnt), goal)
      modifies this, fragStat
      ensures Valid() && Owes(d, rank, n, seen, Nested(d, zs, i + 1, left), goal)
      decreases rank(n), 3, 2
    {
      left := ListedSingle(n, z, cnt, Nested(d, zs, i + 1, LeftOver(d, SingleZones(d.v, z), 0, cnt)), goal);
    }

    // get_frag_dbl_ind_zone
    method DoubleInd(n: nat, z: nat, cnt: nat)
      requires Valid() && AllLower(d, rank, n, Nested(d, SingleZones(d.v, z), 0, cnt))
      modifies this, fragStat
      ensures Valid() && seen == old(seen) + StepsTrace(d, rank, n, Nested(d, SingleZones(d.v, z), 0, cnt))
      decreases rank(n), 4, 0
    {
      if z == 0 {
        assert seen + [] == seen;
        return;
      }
      ghost var zs := Table(d.v, z, d.v.nindirs);
      ghost var goal := old(seen) + StepsTrace(d, rank, n, Nested(d, zs, 0, cnt));
      var left := cnt;
      var i := 0;
      while i < d.v.nindirs && left > 0
        invariant 0 <= i <= d.v.nindirs && Valid()
        invariant Owes(d, rank, n, seen, Nested(d, zs, i, left), goal)
      {
        left := NestedTurn(n, d.v.indir(z * Bpz(d.v), i), zs, i, left, goal);
        i := i + 1;
      }
      assert seen + [] == seen;
    }
  }
}
