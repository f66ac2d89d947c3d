// What the internal fragmentation figures say about the tree walked over.
module FragLaws {
  import opened ZoneWalk
  import opened FragWalk
  import Arithmetic

  // ---------------------------------------------------------------- the figures

  function BinSum(slacks: seq<nat>, bs: nat, k: nat): nat {
    if k == 0 then 0 else BinSum(slacks, bs, k - 1) + Count(slacks, bs, k - 1)
  }

  ghost predicate Small(slacks: seq<nat>, bs: nat) { forall k :: 0 <= k < |slacks| ==> slacks[k] < bs }

  // Every entry is in exactly one of the eight bins.
  lemma {:induction false} BinsSumToEntries(slacks: seq<nat>, bs: nat)
    requires bs > 0 && Small(slacks, bs)
    ensures BinSum(slacks, bs, BINS) == |slacks|
    decreases |slacks|
  {
    if slacks == [] {
      NoneIn(bs, BINS);
    } else {
      var n := |slacks| - 1;
      BinsSumToEntries(slacks[..n], bs);
      OneMoreIn(slacks, bs, BINS);
    }
  }

  lemma {:induction false} NoneIn(bs: nat, k: nat)
    ensures BinSum([], bs, k) == 0
  {
    if k > 0 {
      NoneIn(bs, k - 1);
    }
  }

  lemma {:induction false} OneMoreIn(slacks: seq<nat>, bs: nat, k: nat)
    requires bs > 0 && slacks != [] && slacks[|slacks| - 1] < bs
    ensures BinSum(slacks, bs, k) ==
            BinSum(slacks[..|slacks| - 1], bs, k) + if BinOf(slacks[|slacks| - 1], bs) < k then 1 else 0
  {
    if k > 0 {
      OneMoreIn(slacks, bs, k - 1);
      BinIff(slacks[|slacks| - 1], bs, k - 1);
    }
  }

  // The least and the greatest are entries, and bound the average.
  lemma {:induction false} MinSumMax(slacks: seq<nat>, bs: nat)
    requires Small(slacks, bs) && slacks != []
    ensures MinFrom(slacks, bs) in slacks && MaxFrom(slacks) in slacks
    ensures forall v :: v in slacks ==> MinFrom(slacks, bs) <= v <= MaxFrom(slacks)
    ensures |slacks| * MinFrom(slacks, bs) <= Sum(slacks) <= |slacks| * MaxFrom(slacks)
    decreases |slacks|
  {
    var n := |slacks| - 1;
    var rest, v := slacks[..n], slacks[n];
    assert slacks == rest + [v];
    if n > 0 {
      MinSumMax(rest, bs);
      Widen(n, MinFrom(rest, bs), MinFrom(slacks, bs));
      Widen(n, MaxFrom(slacks), MaxFrom(rest));
    }
  }

  lemma Widen(n: nat, a: nat, b: nat)
    requires b <= a
    ensures n * b <= n * a && (n + 1) * b == n * b + b && (n + 1) * a == n * a + a
  {
  }

  lemma {:induction false} SlacksSmall(seen: seq<Seen>, bs: nat)
    requires bs > 0
    ensures Small(Slacks(seen, bs), bs)
    decreases |seen|
  {
    if seen != [] {
      SlacksSmall(seen[..|seen| - 1], bs);
    }
  }

  // --------------------------------------------------------------- conservation

  function SizesIn(seen: seq<Seen>): nat {
    if seen == [] then 0
    else SizesIn(seen[..|seen| - 1]) + (if seen[|seen| - 1].ZoneSeen? then 0 else seen[|seen| - 1].size)
  }

  function FilesIn(seen: seq<Seen>): nat {
    if seen == [] then 0 else FilesIn(seen[..|seen| - 1]) + (if seen[|seen| - 1].FileSeen? then 1 else 0)
  }

  // Weighing sizes by w: what the direct zones seen weigh beyond what the
  // directories seen announced.
  function Balance(seen: seq<Seen>, w: nat -> nat): int {
    if seen == [] then 0
    else Balance(seen[..|seen| - 1], w) + match seen[|seen| - 1]
      case FileSeen(_, _) => 0
      case DirSeen(size, turns, _) => -(turns * w(size))
      case ZoneSeen(size) => w(size)
  }

  // What directories weigh beyond one direct zone each.
  function Excess(seen: seq<Seen>, w: nat -> nat): int {
    if seen == [] then 0
    else Excess(seen[..|seen| - 1], w) + match seen[|seen| - 1]
      case DirSeen(size, turns, _) => (turns - 1) * w(size)
      case _ => 0
  }

  lemma {:induction false} BalanceAppend(a: seq<Seen>, b: seq<Seen>, w: nat -> nat)
    ensures Balance(a + b, w) == Balance(a, w) + Balance(b, w)
    decreases |b|
  {
    if b == [] {
      assert a + b == a;
    } else {
      assert (a + b)[..|a + b| - 1] == a + b[..|b| - 1];
      BalanceAppend(a, b[..|b| - 1], w);
    }
  }

  lemma BalanceOne(s: Seen, w: nat -> nat)
    ensures s.FileSeen? ==> Balance([s], w) == 0
    ensures s.DirSeen? ==> Balance([s], w) == -(s.turns * w(s.size))
    ensures s.ZoneSeen? ==> Balance([s], w) == w(s.size)
  {
    assert [s][..0] == [];
  }

  // The direct zones seen are those the directories announced.
  lemma {:induction false} TraceBalanced(d: Disk, rank: nat -> nat, n: nat, w: nat -> nat)
    requires Ranked(d, rank) && rank(n) > 0
    ensures Balance(Trace(d, rank, n), w) == 0
    decreases rank(n), 2, 0
  {
    assert Sound(d, rank, n);
    var size := d.inode(n).file.size;
    if d.inode(n).isDir {
      var steps := DirSteps(d, n);
      StepsBalance(d, rank, n, steps, w);
      BalanceOne(DirSeen(size, Turns(steps), n), w);
      BalanceAppend([DirSeen(size, Turns(steps), n)], StepsTrace(d, rank, n, steps), w);
    } else {
      BalanceOne(FileSeen(size, n), w);
    }
  }

  lemma {:induction false} StepsBalance(d: Disk, rank: nat -> nat, n: nat, steps: seq<Step>, w: nat -> nat)
    requires Ranked(d, rank)
    ensures Balance(StepsTrace(d, rank, n, steps), w) == Turns(steps) * w(d.inode(n).file.size)
    decreases rank(n), 1, |steps|
  {
    if steps != [] {
      var size := d.inode(n).file.size;
      StepsBalance(d, rank, n, steps[1..], w);
      BalanceAppend(StepTrace(d, rank, n, steps[0]), StepsTrace(d, rank, n, steps[1..]), w);
      StepBalance(d, rank, n, steps[0], w);
      OneLess(Turns(steps), w(size));
    }
  }

  lemma {:induction false} StepBalance(d: Disk, rank: nat -> nat, n: nat, s: Step, w: nat -> nat)
    requires Ranked(d, rank)
    ensures Balance(StepTrace(d, rank, n, s), w) == if s == Zone then w(d.inode(n).file.size) else 0
    decreases rank(n), 1, 0
  {
    match s
    case Zone => BalanceOne(ZoneSeen(d.inode(n).file.size), w);
    case Block(b) => KidsBalanced(d, rank, n, Kept(d, n, b), w);
  }

  lemma {:induction false} KidsBalanced(d: Disk, rank: nat -> nat, n: nat, kids: seq<nat>, w: nat -> nat)
    requires Ranked(d, rank)
    ensures Balance(KidsTrace(d, rank, n, kids), w) == 0
    decreases rank(n), 0, |kids|
  {
    if kids != [] {
      var first := if 0 < rank(kids[0]) < rank(n) then Trace(d, rank, kids[0]) else [];
      if 0 < rank(kids[0]) < rank(n) {
        TraceBalanced(d, rank, kids[0], w);
      }
      KidsBalanced(d, rank, n, kids[1..], w);
      BalanceAppend(first, KidsTrace(d, rank, n, kids[1..]), w);
    }
  }

  function SlackOf(bs: nat): nat -> nat
    requires bs > 0
  {
    size => Slack(size, bs)
  }

  function One(): nat -> nat { size => 1 }

  lemma FillsBlocks(size: nat, bs: nat)
    requires bs > 0
    ensures size + Slack(size, bs) == bs * BlocksOf(size, bs)
  {
    var q, r := size / bs, size % bs;
    assert size == q * bs + r;
    Ceiling(q, r, bs);
    Arithmetic.Larger(q + 1, q + 1, bs);
  }

  lemma Ceiling(q: nat, r: nat, bs: nat)
    requires r < bs
    ensures (q * bs + r + bs - 1) / bs == if r == 0 then q else q + 1
  {
    if r == 0 {
      Arithmetic.DivMod(q, bs - 1, bs);
    } else {
      Arithmetic.Larger(q + 1, q + 1, bs);
      Arithmetic.DivMod(q + 1, r - 1, bs);
    }
  }

  lemma {:induction false} SizesAndSlack(seen: seq<Seen>, bs: nat)
    requires bs > 0
    ensures SizesIn(seen) + Sum(Slacks(seen, bs)) ==
            bs * BlocksIn(seen, bs) + Balance(seen, SlackOf(bs)) + Excess(seen, SlackOf(bs))
    decreases |seen|
  {
    if seen != [] {
      var rest, s := seen[..|seen| - 1], seen[|seen| - 1];
      SizesAndSlack(rest, bs);
      LastSlack(seen, bs);
      FillsBlocks(s.size, bs);
      Sums(bs, BlocksIn(rest, bs), BlocksOf(s.size, bs));
      if s.DirSeen? {
        OneLess(s.turns, Slack(s.size, bs));
      }
    }
  }

  lemma LastSlack(seen: seq<Seen>, bs: nat)
    requires bs > 0 && seen != []
    ensures var s := seen[|seen| - 1]; var last := if s.DirSeen? then 0 else Slack(s.size, bs);
            Sum(Slacks(seen, bs)) == Sum(Slacks(seen[..|seen| - 1], bs)) + last
  {
    var before := Slacks(seen[..|seen| - 1], bs);
    var s := seen[|seen| - 1];
    assert before + [] == before;
    assert (before + [Slack(s.size, bs)])[..|before|] == before;
  }

  lemma Sums(c: int, a: int, b: int)
    ensures c * (a + b) == c * a + c * b
  {
  }

  lemma OneLess(t: int, w: int)
    ensures (t - 1) * w == t * w - w
  {
  }

  lemma {:induction false} EntriesAndDirs(seen: seq<Seen>, bs: nat)
    requires bs > 0
    ensures |Slacks(seen, bs)| - DirsIn(seen) == FilesIn(seen) + Balance(seen, One()) + Excess(seen, One())
    decreases |seen|
  {
    if seen != [] {
      EntriesAndDirs(seen[..|seen| - 1], bs);
      var s := seen[|seen| - 1];
      if s.DirSeen? {
        OneLess(s.turns, 1);
      }
    }
  }

  // Sizes and fragmentation fill the blocks used, but for the slack of a
  // directory counted again for each direct zone it takes up beyond the first.
  lemma Conservation(d: Disk, rank: nat -> nat, n: nat)
    requires Ranked(d, rank) && rank(n) > 0
    ensures var t, bs := Trace(d, rank, n), d.v.blockSize;
      && SizesIn(t) + Sum(Slacks(t, bs)) == bs * BlocksIn(t, bs) + Excess(t, SlackOf(bs))
      && |Slacks(t, bs)| - DirsIn(t) == FilesIn(t) + Excess(t, One())
  {
    var t, bs := Trace(d, rank, n), d.v.blockSize;
    TraceBalanced(d, rank, n, SlackOf(bs));
    TraceBalanced(d, rank, n, One());
    SizesAndSlack(t, bs);
    EntriesAndDirs(t, bs);
  }

  // -------------------------------------------------------- when it is exact

  // A directory takes up just one direct zone when there is no other, or when
  // its blocks are all in the first.
  predicate OneZone(d: Disk, m: nat)
    requires d.v.blockSize > 0 && Fits(d.v, d.inode(m).file)
  {
    var f := d.inode(m).file;
    d.v.ndzones == 1 || (f.zones[0] != 0 && BlocksOf(f.size, d.v.blockSize) <= Bpz(d.v))
  }

  lemma {:induction false} TurnsAppend(a: seq<Step>, b: seq<Step>)
    ensures Turns(a + b) == Turns(a) + Turns(b)
    decreases |a|
  {
    if a == [] {
      assert a + b == b;
    } else {
      assert (a + b)[1..] == a[1..] + b;
      TurnsAppend(a[1..], b);
    }
  }

  lemma {:induction false} NoTurns(steps: seq<Step>)
    requires forall i :: 0 <= i < |steps| ==> steps[i].Block?
    ensures Turns(steps) == 0
    decreases |steps|
  {
    if steps != [] {
      NoTurns(steps[1..]);
    }
  }

  lemma {:induction false} ListedNoTurns(d: Disk, zs: seq<nat>, i: nat, cnt: nat)
    requires i <= |zs|
    ensures forall j :: 0 <= j < |Listed(d, zs, i, cnt)| ==> Listed(d, zs, i, cnt)[j].Block?
    decreases |zs| - i
  {
    if i < |zs| && cnt > 0 {
      ListedNoTurns(d, zs, i + 1, cnt - Reads(d, zs[i], cnt));
    }
  }

  lemma {:induction false} NestedNoTurns(d: Disk, zs: seq<nat>, i: nat, cnt: nat)
    requires i <= |zs|
    ensures forall j :: 0 <= j < |Nested(d, zs, i, cnt)| ==> Nested(d, zs, i, cnt)[j].Block?
    decreases |zs| - i
  {
    if i < |zs| && cnt > 0 {
      var inner := SingleZones(d.v, zs[i]);
      ListedNoTurns(d, inner, 0, cnt);
      NestedNoTurns(d, zs, i + 1, LeftOver(d, inner, 0, cnt));
    }
  }

  lemma DirectTurns(d: Disk, zs: seq<nat>, i: nat, cnt: nat)
    requires i <= |zs|
    ensures Turns(Direct(d, zs, i, cnt)) ==
            if i == |zs| || cnt == 0 then 0 else 1 + Turns(Direct(d, zs, i + 1, cnt - Reads(d, zs[i], cnt)))
  {
    if i < |zs| && cnt > 0 {
      var k := Reads(d, zs[i], cnt);
      var x, rest := ZoneReads(d, zs[i], k), Direct(d, zs, i + 1, cnt - k);
      NoTurns(x);
      TurnsAppend(x, rest);
      TurnsAppend([Zone], x + rest);
      assert [Zone][1..] == [];
    }
  }

  lemma DirTurns(d: Disk, m: nat)
    requires d.v.blockSize > 0 && Fits(d.v, d.inode(m).file)
    ensures var f := d.inode(m).file;
            Turns(DirSteps(d, m)) == Turns(Direct(d, f.zones[..d.v.ndzones], 0, BlocksOf(f.size, d.v.blockSize)))
  {
    var f := d.inode(m).file;
    var direct, cnt := f.zones[..d.v.ndzones], BlocksOf(f.size, d.v.blockSize);
    var rest := LeftOver(d, direct, 0, cnt);
    var single := SingleZones(d.v, f.zones[d.v.ndzones]);
    var double := SingleZones(d.v, f.zones[d.v.ndzones + 1]);
    var a, b := Direct(d, direct, 0, cnt), Listed(d, single, 0, rest);
    var c := Nested(d, double, 0, LeftOver(d, single, 0, rest));
    ListedNoTurns(d, single, 0, rest);
    NestedNoTurns(d, double, 0, LeftOver(d, single, 0, rest));
    NoTurns(b + c);
    TurnsAppend(a, b + c);
  }

  // A directory that is not empty takes up a direct zone, and just one exactly
  // when OneZone says so.
  lemma OneTurnIff(d: Disk, m: nat)
    requires d.v.blockSize > 0 && d.v.ndzones > 0 && Fits(d.v, d.inode(m).file)
    ensures d.inode(m).file.size > 0 ==> Turns(DirSteps(d, m)) >= 1
    ensures d.inode(m).file.size > 0 ==> (Turns(DirSteps(d, m)) == 1 <==> OneZone(d, m))
  {
    var f := d.inode(m).file;
    var zs, cnt := f.zones[..d.v.ndzones], BlocksOf(f.size, d.v.blockSize);
    if f.size > 0 {
      FillsBlocks(f.size, d.v.blockSize);
      assert cnt > 0;
      var left := cnt - Reads(d, zs[0], cnt);
      DirTurns(d, m);
      DirectTurns(d, zs, 0, cnt);
      DirectTurns(d, zs, 1, left);
    }
  }

  // Files and directories are recorded as they are on the disk.
  ghost predicate FromDisk(d: Disk, s: Seen)
    requires d.v.blockSize > 0
  {
    s.ZoneSeen? ||
      var i := d.inode(s.ino);
      && s.size == i.file.size && Fits(d.v, i.file) && s.DirSeen? == i.isDir
      && (s.DirSeen? ==> s.turns == Turns(DirSteps(d, s.ino)))
  }

  ghost predicate AllFromDisk(d: Disk, seen: seq<Seen>)
    requires d.v.blockSize > 0
  {
    forall k :: 0 <= k < |seen| ==> FromDisk(d, seen[k])
  }

  lemma {:induction false} TraceFromDisk(d: Disk, rank: nat -> nat, n: nat)
    requires Ranked(d, rank) && rank(n) > 0
    ensures AllFromDisk(d, Trace(d, rank, n))
    decreases rank(n), 2, 0
  {
    assert Sound(d, rank, n);
    if d.inode(n).isDir {
      StepsFromDisk(d, rank, n, DirSteps(d, n));
    }
  }

  lemma {:induction false} StepsFromDisk(d: Disk, rank: nat -> nat, n: nat, steps: seq<Step>)
    requires Ranked(d, rank)
    ensures AllFromDisk(d, StepsTrace(d, rank, n, steps))
    decreases rank(n), 1, |steps|
  {
    if steps != [] {
      StepsFromDisk(d, rank, n, steps[1..]);
      if steps[0].Block? {
        KidsFromDisk(d, rank, n, Kept(d, n, steps[0].b));
      }
    }
  }

  lemma {:induction false} KidsFromDisk(d: Disk, rank: nat -> nat, n: nat, kids: seq<nat>)
    requires Ranked(d, rank)
    ensures AllFromDisk(d, KidsTrace(d, rank, n, kids))
    decreases rank(n), 0, |kids|
  {
    if kids != [] {
      KidsFromDisk(d, rank, n, kids[1..]);
      if 0 < rank(kids[0]) < rank(n) {
        TraceFromDisk(d, rank, kids[0]);
      }
    }
  }

  ghost predicate OneZoneAt(d: Disk, s: Seen, w: nat -> nat)
    requires d.v.blockSize > 0 && FromDisk(d, s)
  {
    s.DirSeen? ==> OneZone(d, s.ino) || w(s.size) == 0
  }

  // Every directory seen takes up one direct zone, or weighs nothing.
  ghost predicate OneZoneEach(d: Disk, seen: seq<Seen>, w: nat -> nat)
    requires d.v.blockSize > 0 && AllFromDisk(d, seen)
  {
    forall k :: 0 <= k < |seen| ==> OneZoneAt(d, seen[k], w)
  }

  // No directory seen is empty; one that is empty has no slack.
  predicate NoneEmpty(seen: seq<Seen>) { forall k :: 0 <= k < |seen| && seen[k].DirSeen? ==> seen[k].size > 0 }

  lemma {:induction false} ExcessIsZero(d: Disk, seen: seq<Seen>, w: nat -> nat)
    requires d.v.blockSize > 0 && d.v.ndzones > 0 && AllFromDisk(d, seen)
    requires w(0) == 0 || NoneEmpty(seen)
    ensures Excess(seen, w) >= 0 && (Excess(seen, w) == 0 <==> OneZoneEach(d, seen, w))
    decreases |seen|
  {
    if seen != [] {
      var n := |seen| - 1;
      var rest, s := seen[..n], seen[n];
      LastToo(d, seen, w);
      ExcessIsZero(d, rest, w);
      if s.DirSeen? {
        ExcessAt(d, s, w);
      }
    }
  }

  lemma ExcessAt(d: Disk, s: Seen, w: nat -> nat)
    requires d.v.blockSize > 0 && d.v.ndzones > 0 && FromDisk(d, s) && s.DirSeen?
    requires w(0) == 0 || s.size > 0
    ensures (s.turns - 1) * w(s.size) >= 0 && ((s.turns - 1) * w(s.size) == 0 <==> OneZoneAt(d, s, w))
  {
    OneTurnIff(d, s.ino);
    NonNegative(s.turns, w(s.size));
  }

  lemma LastToo(d: Disk, seen: seq<Seen>, w: nat -> nat)
    requires d.v.blockSize > 0 && AllFromDisk(d, seen) && seen != []
    ensures AllFromDisk(d, seen[..|seen| - 1])
    ensures NoneEmpty(seen) ==> NoneEmpty(seen[..|seen| - 1])
    ensures NoneEmpty(seen) && seen[|seen| - 1].DirSeen? ==> seen[|seen| - 1].size > 0
    ensures OneZoneEach(d, seen, w) <==> OneZoneEach(d, seen[..|seen| - 1], w) && OneZoneAt(d, seen[|seen| - 1], w)
  {
    var rest := seen[..|seen| - 1];
    assert forall k :: 0 <= k < |rest| ==> rest[k] == seen[k];
  }

  lemma NonNegative(t: nat, w: nat)
    requires t >= 1 || w == 0
    ensures (t - 1) * w >= 0 && ((t - 1) * w == 0 <==> t == 1 || w == 0)
  {
  }

  // Sizes and fragmentation fill the blocks used exactly when every directory
  // seen takes up one direct zone or fills its last block.
  lemma ConservedIff(d: Disk, rank: nat -> nat, n: nat)
    requires Ranked(d, rank) && rank(n) > 0 && d.v.ndzones > 0
    ensures AllFromDisk(d, Trace(d, rank, n))
    ensures var t, bs := Trace(d, rank, n), d.v.blockSize;
      SizesIn(t) + Sum(Slacks(t, bs)) == bs * BlocksIn(t, bs) <==> OneZoneEach(d, t, SlackOf(bs))
  {
    Conservation(d, rank, n);
    TraceFromDisk(d, rank, n);
    ExcessIsZero(d, Trace(d, rank, n), SlackOf(d.v.blockSize));
  }

  // The count of files printed is that of the files visited exactly when every
  // directory seen takes up one direct zone; directories are never empty, they
  // hold "." and "..".  Whether the files visited are those of the tree is
  // another matter (module FragTree).
  lemma VisitedFilesCountedIff(d: Disk, rank: nat -> nat, n: nat)
    requires Ranked(d, rank) && rank(n) > 0 && d.v.ndzones > 0
    requires NoneEmpty(Trace(d, rank, n))
    ensures AllFromDisk(d, Trace(d, rank, n))
    ensures var t, bs := Trace(d, rank, n), d.v.blockSize;
      |Slacks(t, bs)| - DirsIn(t) == FilesIn(t) <==> OneZoneEach(d, t, One())
  {
    Conservation(d, rank, n);
    TraceFromDisk(d, rank, n);
    ExcessIsZero(d, Trace(d, rank, n), One());
  }

  // --------------------------------------------------------- the block numbers

  // Block i of zone z is numbered rightly, as (z << scale) + i, only for i = 0.
  lemma RightBlockIff(v: Volume, z: nat, i: nat)
    requires z > 0 && i < Bpz(v)
    ensures z * Pow2(v.scale + i) == z * Bpz(v) + i <==> i == 0
  {
    if i > 0 {
      Powers(v.scale, i);
      Steep(i);
      var p := z * Bpz(v);
      assert v.scale > 0 && Pow2(v.scale) >= 2;
      Widen(Bpz(v), z, 1);
      assert z * (Bpz(v) * Pow2(i)) == p * Pow2(i) by { Assoc(z, Bpz(v), Pow2(i)); }
      Grows(p, Pow2(i), i);
    }
  }

  lemma {:induction false} Powers(a: nat, b: nat)
    ensures Pow2(a + b) == Pow2(a) * Pow2(b)
    decreases b
  {
    if b > 0 {
      Powers(a, b - 1);
    }
  }

  lemma {:induction false} Steep(i: nat)
    ensures Pow2(i) >= i + 1
  {
    if i > 0 {
      Steep(i - 1);
    }
  }

  lemma Assoc(a: int, b: int, c: int)
    ensures a * (b * c) == (a * b) * c
  {
  }

  lemma Grows(p: nat, q: nat, i: nat)
    requires p >= 2 && q >= i + 1 && i > 0
    ensures p * q > p + i
  {
    assert p * (q - 1) >= 2 * i by { Widen(q - 1, p, 2); Widen(2, q - 1, i); }
  }
}
