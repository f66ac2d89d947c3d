// External fragmentation: scanning the inode bitmap.
module BitmapScan {
  import opened ZoneWalk
  import Arithmetic

  // `word(n, w)` is word w of block n of the inode bitmap; `sizeOf(i)` is the
  // size recorded in inode i.
  datatype FileSystem = FileSystem(
    ninodes: nat, imapBlocks: nat, wordsPerBlock: nat, bitsPerWord: nat,
    blockSize: nat, blocksPerZone: nat, word: (nat, nat) -> nat, sizeOf: nat -> nat)

  // The superblock of a mounted volume: no empty bitmap, blocks, words or zones.
  predicate Mounted(fs: FileSystem) {
    fs.imapBlocks > 0 && fs.wordsPerBlock > 0 && fs.bitsPerWord > 0 && fs.blockSize > 0 && fs.blocksPerZone > 0
  }

  // Bit number of bit i of word w of block n.
  function BitNo(fs: FileSystem, n: nat, w: nat, i: nat): nat {
    (n * fs.wordsPerBlock + w) * fs.bitsPerWord + i
  }

  function Capacity(fs: FileSystem): nat { BitNo(fs, fs.imapBlocks, 0, 0) }

  // Inode b is allocated when bit b of the map is set.
  function Allocated(fs: FileSystem, b: nat): bool
    requires Mounted(fs)
  {
    var chunk := b / fs.bitsPerWord;
    Arithmetic.Bit(fs.word(chunk / fs.wordsPerBlock, chunk % fs.wordsPerBlock), b % fs.bitsPerWord)
  }

  // The bit the innermost loop looks at is that of the inode number it is at.
  lemma BitIs(fs: FileSystem, n: nat, w: nat, i: nat)
    requires Mounted(fs) && w < fs.wordsPerBlock && i < fs.bitsPerWord
    ensures Allocated(fs, BitNo(fs, n, w, i)) == Arithmetic.Bit(fs.word(n, w), i)
  {
    Arithmetic.DivMod(n * fs.wordsPerBlock + w, i, fs.bitsPerWord);
    Arithmetic.DivMod(n, w, fs.wordsPerBlock);
  }

  // Bit i of a word is its binary digit of weight 2 to the i.
  lemma {:induction false} BitIsDigit(k: nat, i: nat)
    ensures Arithmetic.Bit(k, i) <==> (k / Pow2(i)) % 2 == 1
    decreases i
  {
    if i > 0 {
      BitIsDigit(k / 2, i - 1);
      DivTwice(k, Pow2(i - 1));
    }
  }

  lemma DivTwice(k: nat, b: nat)
    requires b > 0
    ensures (k / 2) / b == k / (2 * b)
  {
    var m := k / 2;
    var q, r := m / b, m % b;
    assert m == q * b + r;
    assert q * (2 * b) == 2 * (q * b);
    Arithmetic.DivMod(q, 2 * r + k % 2, 2 * b);
  }

  // ------------------------------------------------------------- one inode

  // FragInInode on the blocks an inode uses.
  function FragOf(used: nat, blocksPerZone: nat): nat
    requires blocksPerZone > 0
  {
    var last := used % blocksPerZone;
    if last != 0 then blocksPerZone - last else 0
  }

  predicate FillsUp(used: nat, f: nat, bpz: nat)
    requires bpz > 0
  {
    (used + f) % bpz == 0
  }

  function ZonesOf(used: nat, bpz: nat): nat
    requires bpz > 0
  {
    (used + bpz - 1) / bpz
  }

  // It is the least number of blocks that fills up the last zone.
  lemma FragIsLeast(used: nat, bpz: nat)
    requires bpz > 0
    ensures FillsUp(used, FragOf(used, bpz), bpz)
    ensures forall f: nat :: FillsUp(used, f, bpz) ==> FragOf(used, bpz) <= f
    ensures used + FragOf(used, bpz) == ZonesOf(used, bpz) * bpz
  {
    FragFills(used, bpz);
    forall f: nat | FillsUp(used, f, bpz)
      ensures FragOf(used, bpz) <= f
    {
      NoneSmaller(used, bpz, f);
    }
  }

  lemma FragFills(used: nat, bpz: nat)
    requires bpz > 0
    ensures FillsUp(used, FragOf(used, bpz), bpz)
    ensures used + FragOf(used, bpz) == ZonesOf(used, bpz) * bpz
  {
    var q, r := used / bpz, used % bpz;
    assert used == q * bpz + r;
    if r == 0 {
      Arithmetic.DivMod(q, bpz - 1, bpz);
      Arithmetic.DivMod(q, 0, bpz);
    } else {
      Arithmetic.Larger(q + 1, q + 1, bpz);
      Arithmetic.DivMod(q + 1, 0, bpz);
      Arithmetic.DivMod(q + 1, r - 1, bpz);
    }
  }

  lemma NoneSmaller(used: nat, bpz: nat, f: nat)
    requires bpz > 0 && FillsUp(used, f, bpz)
    ensures FragOf(used, bpz) <= f
  {
    var q, r := used / bpz, used % bpz;
    if r != 0 && r + f < bpz {
      Arithmetic.DivMod(q, r + f, bpz);
    }
  }

  function UsedBy(fs: FileSystem, b: nat): nat
    requires Mounted(fs)
  {
    BlocksOf(fs.sizeOf(b), fs.blockSize)
  }

  // f fills up the last zone of inode b, as the blocks that hold its size leave it.
  ghost predicate IsFrag(fs: FileSystem, b: nat, f: nat)
    requires Mounted(fs)
  {
    exists u: nat :: Covers(u, fs.sizeOf(b), fs.blockSize) && FillsUp(u, f, fs.blocksPerZone) && f < fs.blocksPerZone
  }

  lemma FragIsFrag(fs: FileSystem, b: nat, f: nat)
    requires Mounted(fs)
    ensures Covers(UsedBy(fs, b), fs.sizeOf(b), fs.blockSize)
    ensures IsFrag(fs, b, f) <==> f == FragOf(UsedBy(fs, b), fs.blocksPerZone)
  {
    var used, bpz := UsedBy(fs, b), fs.blocksPerZone;
    BlocksCover(fs.sizeOf(b), fs.blockSize, used);
    FragIsLeast(used, bpz);
    if IsFrag(fs, b, f) {
      var u: nat :| Covers(u, fs.sizeOf(b), fs.blockSize) && FillsUp(u, f, bpz) && f < bpz;
      BlocksCover(fs.sizeOf(b), fs.blockSize, u);
      OneBelow(used, f, FragOf(used, bpz), bpz);
    }
  }

  // Two numbers below d cannot both make n a multiple of it.
  lemma OneBelow(n: nat, f: nat, g: nat, d: nat)
    requires f < d && g < d && (n + f) % d == 0 && (n + g) % d == 0
    ensures f == g
  {
    var p, q := (n + f) / d, (n + g) / d;
    assert n + f == p * d && n + g == q * d;
    if p < q { Arithmetic.Larger(p + 1, q, d); Arithmetic.Larger(p + 1, p + 1, d); }
    if q < p { Arithmetic.Larger(q + 1, p, d); Arithmetic.Larger(q + 1, q + 1, d); }
  }

  method FragInInode(fs: FileSystem, b: nat) returns (f: nat)
    requires Mounted(fs)
    ensures IsFrag(fs, b, f)
    ensures f == FragOf(UsedBy(fs, b), fs.blocksPerZone)
    ensures FillsUp(UsedBy(fs, b), f, fs.blocksPerZone)
    ensures forall g: nat :: FillsUp(UsedBy(fs, b), g, fs.blocksPerZone) ==> f <= g
    ensures UsedBy(fs, b) + f == ZonesOf(UsedBy(fs, b), fs.blocksPerZone) * fs.blocksPerZone
  {
    FragIsLeast(UsedBy(fs, b), fs.blocksPerZone);
    FragIsFrag(fs, b, FragOf(UsedBy(fs, b), fs.blocksPerZone));
    var used := BlocksOf(fs.sizeOf(b), fs.blockSize);
    var last := used % fs.blocksPerZone;
    f := 0;
    if last != 0 {
      f := fs.blocksPerZone - last;
    }
  }

  // -------------------------------------------------------------- all inodes

  // The allocated inodes from 1 up to n, n excluded; bit 0 stands for none.
  function Inodes(fs: FileSystem, n: nat): (r: seq<nat>)
    requires Mounted(fs)
  {
    if n <= 1 then [] else Inodes(fs, n - 1) + (if Allocated(fs, n - 1) then [n - 1] else [])
  }

  lemma {:induction false} InodesAre(fs: FileSystem, n: nat)
    requires Mounted(fs)
    ensures forall b: nat :: b in Inodes(fs, n) <==> 1 <= b < n && Allocated(fs, b)
    ensures forall j, k :: 0 <= j < k < |Inodes(fs, n)| ==> Inodes(fs, n)[j] < Inodes(fs, n)[k]
  {
    if n > 1 {
      InodesAre(fs, n - 1);
      var prev := Inodes(fs, n - 1);
      assert forall j :: 0 <= j < |prev| ==> prev[j] in prev;
    }
  }

  function FragSum(fs: FileSystem, bs: seq<nat>): nat
    requires Mounted(fs)
  {
    if bs == [] then 0 else FragSum(fs, bs[..|bs| - 1]) + FragOf(UsedBy(fs, bs[|bs| - 1]), fs.blocksPerZone)
  }

  function UsedSum(fs: FileSystem, bs: seq<nat>): nat
    requires Mounted(fs)
  {
    if bs == [] then 0 else UsedSum(fs, bs[..|bs| - 1]) + UsedBy(fs, bs[|bs| - 1])
  }

  function ZoneSum(fs: FileSystem, bs: seq<nat>): nat
    requires Mounted(fs)
  {
    if bs == [] then 0 else ZoneSum(fs, bs[..|bs| - 1]) + ZonesOf(UsedBy(fs, bs[|bs| - 1]), fs.blocksPerZone)
  }

  // Used blocks and fragmented blocks together are whole zones.
  lemma {:induction false} UsedPlusFrag(fs: FileSystem, bs: seq<nat>)
    requires Mounted(fs)
    ensures UsedSum(fs, bs) + FragSum(fs, bs) == ZoneSum(fs, bs) * fs.blocksPerZone
    decreases |bs|
  {
    if bs != [] {
      UsedPlusFrag(fs, bs[..|bs| - 1]);
      var u := UsedBy(fs, bs[|bs| - 1]);
      FragFills(u, fs.blocksPerZone);
      Distribute(ZoneSum(fs, bs[..|bs| - 1]), ZonesOf(u, fs.blocksPerZone), fs.blocksPerZone);
    }
  }

  lemma Distribute(a: int, b: int, c: int)
    ensures (a + b) * c == a * c + b * c
  {
  }

  function FragMax(fs: FileSystem, bs: seq<nat>): nat
    requires Mounted(fs)
  {
    if bs == [] then 0
    else
      var m, f := FragMax(fs, bs[..|bs| - 1]), FragOf(UsedBy(fs, bs[|bs| - 1]), fs.blocksPerZone);
      if f > m then f else m
  }

  lemma {:induction false} FragMaxIs(fs: FileSystem, bs: seq<nat>)
    requires Mounted(fs)
    ensures forall k :: 0 <= k < |bs| ==> FragOf(UsedBy(fs, bs[k]), fs.blocksPerZone) <= FragMax(fs, bs)
    ensures bs != [] ==> exists k :: 0 <= k < |bs| && FragOf(UsedBy(fs, bs[k]), fs.blocksPerZone) == FragMax(fs, bs)
    decreases |bs|
  {
    if bs != [] {
      var n := |bs| - 1;
      FragMaxIs(fs, bs[..n]);
      if n > 0 {
        var k :| 0 <= k < n && FragOf(UsedBy(fs, bs[..n][k]), fs.blocksPerZone) == FragMax(fs, bs[..n]);
        assert bs[..n][k] == bs[k];
      }
      assert forall k :: 0 <= k < n ==> bs[..n][k] == bs[k];
    }
  }

  // The fragments of the inodes bs, one by one
  ghost predicate AreFrags(fs: FileSystem, bs: seq<nat>, frags: seq<nat>)
    requires Mounted(fs)
  {
    |frags| == |bs| && forall k :: 0 <= k < |bs| ==> IsFrag(fs, bs[k], frags[k])
  }

  function Total(frags: seq<nat>): nat {
    if frags == [] then 0 else Total(frags[..|frags| - 1]) + frags[|frags| - 1]
  }

  ghost predicate IsGreatest(frags: seq<nat>, m: nat) {
    (forall k :: 0 <= k < |frags| ==> frags[k] <= m) && (m in frags || (m == 0 && frags == []))
  }

  // They are what FragSum and FragMax speak of.
  lemma {:induction false} FragsAre(fs: FileSystem, bs: seq<nat>, frags: seq<nat>, m: nat)
    requires Mounted(fs) && AreFrags(fs, bs, frags)
    ensures Total(frags) == FragSum(fs, bs) && (IsGreatest(frags, m) <==> m == FragMax(fs, bs))
    decreases |bs|
  {
    if bs == [] {
      return;
    }
    var n := |bs| - 1;
    FragsAre(fs, bs[..n], frags[..n], FragMax(fs, bs[..n]));
    FragIsFrag(fs, bs[n], frags[n]);
    assert frags == frags[..n] + [frags[n]];
    if IsGreatest(frags, m) {
      var k :| 0 <= k < |frags| && frags[k] == m;
      assert k < n ==> frags[..n][k] == m;
    }
  }

  // ------------------------------------------------------------------ the scan

  // FraginFS.  `examined` lists the inodes looked at, in order.  The report is
  // printed on meeting the first bit past the map, so not when the map fills its
  // blocks exactly.
  method FragInFS(fs: FileSystem)
    returns (total: nat, largest: nat, scanned: nat, reported: bool, ghost examined: seq<nat>, ghost frags: seq<nat>)
    requires Mounted(fs)
    ensures var limit := if fs.ninodes + 1 < Capacity(fs) then fs.ninodes + 1 else Capacity(fs);
            && scanned == limit && examined == Inodes(fs, limit)
            && AreFrags(fs, examined, frags) && total == Total(frags) && IsGreatest(frags, largest)
    ensures reported <==> fs.ninodes + 1 < Capacity(fs)
  {
    var mapBits := fs.ninodes + 1;
    total, largest, scanned, reported, examined, frags := 0, 0, 0, false, [], [];
    var n := 0;
    while n < fs.imapBlocks
      invariant 0 <= n <= fs.imapBlocks && scanned == BitNo(fs, n, 0, 0) <= mapBits
      invariant Counted(fs, total, largest, scanned, examined, frags)
    {
      var w := 0;
      while w < fs.wordsPerBlock
        invariant 0 <= w <= fs.wordsPerBlock && scanned == BitNo(fs, n, w, 0) <= mapBits
        invariant Counted(fs, total, largest, scanned, examined, frags)
      {
        var k := fs.word(n, w);
        var i := 0;
        while i < fs.bitsPerWord
          invariant 0 <= i <= fs.bitsPerWord && scanned == BitNo(fs, n, w, i) <= mapBits
          invariant Counted(fs, total, largest, scanned, examined, frags)
        {
          BelowCapacity(fs, n, w, i);
          if BitNo(fs, n, w, i) >= mapBits {
            reported := true;
            return;
          }
          BitIs(fs, n, w, i);
          if Arithmetic.Bit(k, i) && scanned != 0 {
            var f := FragInInode(fs, scanned);
            CountOne(fs, total, largest, scanned, examined, frags, f);
            examined, frags := examined + [scanned], frags + [f];
            total := total + f;
            if f > largest {
              largest := f;
            }
          } else {
            CountNone(fs, total, largest, scanned, examined, frags);
          }
          scanned := scanned + 1;
          i := i + 1;
        }
        NextWord(fs, n, w);
        w := w + 1;
      }
      NextBlock(fs, n);
      n := n + 1;
    }
  }

  ghost predicate Counted(
      fs: FileSystem, total: nat, largest: nat, scanned: nat, examined: seq<nat>, frags: seq<nat>)
    requires Mounted(fs)
  {
    && examined == Inodes(fs, scanned)
    && AreFrags(fs, examined, frags) && total == Total(frags) && IsGreatest(frags, largest)
  }

  lemma Snoc(s: seq<nat>, x: nat)
    ensures (s + [x])[..|s| + 1 - 1] == s
  {
  }

  // One more inode with its fragment
  lemma CountOne(fs: FileSystem, total: nat, largest: nat, b: nat, examined: seq<nat>, frags: seq<nat>, f: nat)
    requires Mounted(fs) && Counted(fs, total, largest, b, examined, frags) && b > 0 && Allocated(fs, b)
    requires IsFrag(fs, b, f)
    ensures Counted(fs, total + f, if f > largest then f else largest, b + 1, examined + [b], frags + [f])
  {
    Snoc(examined, b);
    Snoc(frags, f);
    var m, all := if f > largest then f else largest, frags + [f];
    assert forall k :: 0 <= k < |frags| ==> all[k] == frags[k];
    assert all[|frags|] == f;
    assert m in all;
  }

  lemma CountNone(fs: FileSystem, total: nat, largest: nat, b: nat, examined: seq<nat>, frags: seq<nat>)
    requires Mounted(fs) && Counted(fs, total, largest, b, examined, frags) && (b == 0 || !Allocated(fs, b))
    ensures Counted(fs, total, largest, b + 1, examined, frags)
  {
    assert Inodes(fs, b) + [] == Inodes(fs, b);
  }

  lemma NextWord(fs: FileSystem, n: nat, w: nat)
    ensures BitNo(fs, n, w, fs.bitsPerWord) == BitNo(fs, n, w + 1, 0)
  {
  }

  lemma NextBlock(fs: FileSystem, n: nat)
    ensures BitNo(fs, n, fs.wordsPerBlock, 0) == BitNo(fs, n + 1, 0, 0)
  {
  }

  lemma BelowCapacity(fs: FileSystem, n: nat, w: nat, i: nat)
    requires n < fs.imapBlocks && w < fs.wordsPerBlock && i < fs.bitsPerWord
    ensures BitNo(fs, n, w, i) < Capacity(fs)
  {
    Arithmetic.Larger(n + 1, fs.imapBlocks, fs.wordsPerBlock);
    var c := n * fs.wordsPerBlock + w;
    Arithmetic.Larger(c + 1, fs.imapBlocks * fs.wordsPerBlock, fs.bitsPerWord);
  }
}
