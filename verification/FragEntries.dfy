// Which entries of its blocks make an inode a child of a directory, and which the
// walk follows.
module FragEntries {
  import opened FragTree
  import opened FragWalk

  // A child is any inode but the root and the directory itself.
  lemma {:induction false} KeptOfIff(es: seq<nat>, n: nat, x: nat)
    ensures x in KeptOf(es, n) <==> x in es && x >= 2 && x != n
    decreases |es|
  {
    if es != [] {
      KeptOfIff(es[1..], n, x);
      assert es == [es[0]] + es[1..];
    }
  }

  // Entry e of block b, or one further on, names x.
  predicate NamesFrom(d: Disk, b: nat, e: nat, x: nat) {
    exists i :: e <= i < |d.entries(b)| && d.entries(b)[i] == x
  }

  lemma KeptIff(d: Disk, n: nat, b: nat, x: nat)
    ensures x in Kept(d, n, b) <==> NamesFrom(d, b, 2, x) && x >= 2 && x != n
    ensures x in KeptOf(d.entries(b), n) <==> NamesFrom(d, b, 0, x) && x >= 2 && x != n
  {
    var es := d.entries(b);
    KeptOfIff(es, n, x);
    if |es| > 2 {
      KeptOfIff(es[2..], n, x);
      if NamesFrom(d, b, 2, x) {
        var i :| 2 <= i < |es| && es[i] == x;
        assert es[2..][i - 2] == x;
      }
      if x in es[2..] {
        var i :| 0 <= i < |es[2..]| && es[2..][i] == x;
        assert es[i + 2] == x;
      }
    }
  }

  // Some block from bs[j] on names x from entry e on.
  predicate NamedFrom(d: Disk, bs: seq<nat>, j: nat, e: nat, x: nat) {
    exists k :: j <= k < |bs| && NamesFrom(d, bs[k], e, x)
  }

  lemma NamedNext(d: Disk, bs: seq<nat>, e: nat, x: nat)
    requires bs != []
    ensures NamedFrom(d, bs[1..], 0, e, x) <==> NamedFrom(d, bs, 1, e, x)
    ensures NamedFrom(d, bs, 0, e, x) <==> NamesFrom(d, bs[0], e, x) || NamedFrom(d, bs, 1, e, x)
  {
    if NamedFrom(d, bs[1..], 0, e, x) {
      var k :| 0 <= k < |bs[1..]| && NamesFrom(d, bs[1..][k], e, x);
      assert NamesFrom(d, bs[k + 1], e, x);
    }
    if NamedFrom(d, bs, 1, e, x) {
      var k :| 1 <= k < |bs| && NamesFrom(d, bs[k], e, x);
      assert bs[1..][k - 1] == bs[k];
    }
  }

  lemma {:induction false} KeptInIff(d: Disk, n: nat, bs: seq<nat>, x: nat)
    ensures x in KeptIn(d, n, bs) <==> NamedFrom(d, bs, 0, 2, x) && x >= 2 && x != n
    ensures x in NamedIn(d, n, bs) <==> NamedFrom(d, bs, 0, 0, x) && x >= 2 && x != n
    decreases |bs|
  {
    if bs != [] {
      KeptIff(d, n, bs[0], x);
      KeptInIff(d, n, bs[1..], x);
      NamedNext(d, bs, 0, x);
      NamedNext(d, bs, 2, x);
    }
  }

  // The walk follows what entries from the third on name, in the blocks it reads;
  // neither the root nor the directory itself counts.
  lemma FollowedNames(d: Disk, n: nat, x: nat)
    requires Readable(d, n) && d.inode(n).isDir
    ensures x in Followed(d, n) <==> NamedFrom(d, StepBlocks(DirSteps(d, n)), 0, 2, x) && x >= 2 && x != n
  {
    KeptInIff(d, n, StepBlocks(DirSteps(d, n)), x);
  }

  // The children are what the entries of its own blocks name, but for the first two
  // of the first block.
  lemma ChildrenNames(d: Disk, n: nat, x: nat)
    requires Readable(d, n) && d.inode(n).isDir
    ensures var bs := OwnBlocks(d, n);
            x in Children(d, n) <==>
              && bs != [] && (NamesFrom(d, bs[0], 2, x) || NamedFrom(d, bs, 1, 0, x))
              && x >= 2 && x != n
  {
    var bs := OwnBlocks(d, n);
    if bs != [] {
      KeptIff(d, n, bs[0], x);
      KeptInIff(d, n, bs[1..], x);
      NamedNext(d, bs, 0, x);
    }
  }
}
