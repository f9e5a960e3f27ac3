/** Cluster chains over the words of a FAT, free entries, and what allocating, linking and freeing
    do to them. */
module Chains {
  import opened Arithmetic
  import opened Blocks
  import opened FatTable

  /** Entry values as the code reads them. */
  function Entry(f: seq<Word>, c: nat): nat
    requires c < |f|
  {
    Low28(f[c])
  }

  predicate IsEoc(v: nat) { v >= FAT32_EOC }

  /** A chain of FAT `f`: distinct clusters, each entry naming the next, the last one end-of-chain. */
  ghost predicate IsChain(f: seq<Word>, ch: seq<nat>) {
    && |ch| > 0
    && (forall i :: 0 <= i < |ch| ==> 2 <= ch[i] < |f|)
    && (forall i, j :: 0 <= i < j < |ch| ==> ch[i] != ch[j])
    && (forall i :: 0 <= i < |ch| - 1 ==> Entry(f, ch[i]) == ch[i + 1])
    && IsEoc(Entry(f, ch[|ch| - 1]))
  }

  ghost predicate ChainFrom(f: seq<Word>, ch: seq<nat>, c: nat) {
    IsChain(f, ch) && ch[0] == c
  }

  /** Chains that share no cluster. */
  ghost predicate Disjoint(a: seq<nat>, b: seq<nat>) {
    forall i, j :: 0 <= i < |a| && 0 <= j < |b| ==> a[i] != b[j]
  }

  /** A sound first FAT for a set of live chains. */
  ghost predicate Sound(f: seq<Word>, live: seq<seq<nat>>) {
    && (forall k :: 0 <= k < |live| ==> IsChain(f, live[k]))
    && (forall k, m :: 0 <= k < m < |live| ==> Disjoint(live[k], live[m]))
  }

  /** Distinct cluster numbers of one volume: a chain is never longer than the volume. */
  lemma ChainFits(ch: seq<nat>, n: nat)
    requires forall i :: 0 <= i < |ch| ==> 2 <= ch[i] < n
    requires forall i, j :: 0 <= i < j < |ch| ==> ch[i] != ch[j]
    ensures |ch| > 0 ==> |ch| <= n - 2
  {
    var used := set i | 0 <= i < |ch| :: ch[i];
    DistinctCard(ch);
    assert used <= ClusterNumbers(n);
    SubsetCard(used, ClusterNumbers(n));
  }

  lemma {:induction false} DistinctCard(ch: seq<nat>)
    requires forall i, j :: 0 <= i < j < |ch| ==> ch[i] != ch[j]
    ensures |set i | 0 <= i < |ch| :: ch[i]| == |ch|
  {
    if |ch| > 0 {
      var init := ch[..|ch| - 1];
      DistinctCard(init);
      assert (set i | 0 <= i < |ch| :: ch[i]) == (set i | 0 <= i < |init| :: init[i]) + {ch[|ch| - 1]};
    }
  }

  /** The cluster numbers 2..n-1. */
  function ClusterNumbers(n: nat): (s: set<nat>)
    ensures forall c :: c in s <==> 2 <= c < n
    ensures |s| == if n < 2 then 0 else n - 2
  {
    if n <= 2 then {} else ClusterNumbers(n - 1) + {n - 1}
  }

  /** The number of free entries among clusters 2..n-1. */
  function CountFree(f: seq<Word>, n: nat): nat
    requires n <= |f|
  {
    if n <= 2 then 0 else CountFree(f, n - 1) + if Entry(f, n - 1) == FAT32_FREE then 1 else 0
  }

  /** The number of free clusters of a whole FAT. */
  function FreeCount(f: seq<Word>): nat { CountFree(f, |f|) }

  lemma {:induction false} CountAfterSet(f: seq<Word>, n: nat, c: nat, w: Word)
    requires n <= |f| && 2 <= c < |f|
    ensures CountFree(f[c := w], n) == CountFree(f, n) + (if c < n then Freed(f[c], w) else 0)
  {
    if n > 2 {
      CountAfterSet(f, n - 1, c, w);
    }
  }

  /** How the free count moves when one word replaces another. */
  function Freed(before: Word, after: Word): int {
    (if Low28(after) == FAT32_FREE then 1 else 0) - (if Low28(before) == FAT32_FREE then 1 else 0)
  }

  lemma {:induction false} CountBound(f: seq<Word>, n: nat)
    requires n <= |f|
    ensures CountFree(f, n) <= n
  {
    if n > 2 {
      CountBound(f, n - 1);
    }
  }

  lemma {:induction false} CountIsZero(f: seq<Word>, n: nat)
    requires n <= |f|
    ensures CountFree(f, n) == 0 <==> forall c :: 2 <= c < n ==> Entry(f, c) != FAT32_FREE
  {
    if n > 2 {
      CountIsZero(f, n - 1);
    }
  }

  /** The cluster after `c` in the circular order that fat32_alloc_cluster searches. */
  function After(c: nat, last: nat): nat { if c == last then 2 else c + 1 }

  /** The first free cluster among the `k` clusters that start at `c`, in circular order. */
  function ScanFree(f: seq<Word>, c: nat, k: nat): (r: nat)
    requires 2 <= c < |f|
    ensures r == FAT32_BAD || (2 <= r < |f| && Entry(f, r) == FAT32_FREE)
    decreases k
  {
    if k == 0 then FAT32_BAD
    else if Entry(f, c) == FAT32_FREE then c
    else ScanFree(f, After(c, |f| - 1), k - 1)
  }

  /** The k-th cluster of the circular order that starts at `c`. */
  function Nth(c: nat, k: nat, n: nat): (r: nat)
    requires 2 <= c < n
    ensures k < n - 2 ==> 2 <= r < n && (r == c + k || r == c + k - (n - 2))
  {
    if c + k < n then c + k else c + k - (n - 2)
  }

  lemma {:induction false} ScanMisses(f: seq<Word>, c: nat, k: nat, j: nat)
    requires 2 <= c < |f| <= FAT32_BAD && j < k <= |f| - 2
    requires ScanFree(f, c, k) == FAT32_BAD
    ensures 2 <= Nth(c, j, |f|) < |f| && Entry(f, Nth(c, j, |f|)) != FAT32_FREE
    decreases j
  {
    if j > 0 {
      ScanMisses(f, After(c, |f| - 1), k - 1, j - 1);
      assert Nth(After(c, |f| - 1), j - 1, |f|) == Nth(c, j, |f|);
    }
  }

  /** One full turn of the circular search visits every cluster, so it fails only on a full volume. */
  lemma ScanFindsAny(f: seq<Word>, c: nat)
    requires 2 <= c < |f| <= FAT32_BAD
    ensures ScanFree(f, c, |f| - 2) == FAT32_BAD <==> FreeCount(f) == 0
  {
    CountIsZero(f, |f|);
    if ScanFree(f, c, |f| - 2) == FAT32_BAD {
      forall x | 2 <= x < |f| ensures Entry(f, x) != FAT32_FREE {
        var j := if x >= c then x - c else x - c + (|f| - 2);
        ScanMisses(f, c, |f| - 2, j);
      }
    }
  }

  /** The search takes the first free cluster on the circle of all cluster numbers. */
  lemma {:induction false} ScanIsFirst(f: seq<Word>, c: nat, k: nat) returns (j: nat)
    requires 2 <= c < |f| <= FAT32_BAD && k <= |f| - 2 && ScanFree(f, c, k) != FAT32_BAD
    ensures j < k && ScanFree(f, c, k) == Nth(c, j, |f|)
    ensures forall i: nat :: i < j ==> Entry(f, Nth(c, i, |f|)) != FAT32_FREE
    decreases k
  {
    j := 0;
    if Entry(f, c) != FAT32_FREE {
      var c1 := After(c, |f| - 1);
      var j1 := ScanIsFirst(f, c1, k - 1);
      j := j1 + 1;
      forall i: nat | i < j ensures Entry(f, Nth(c, i, |f|)) != FAT32_FREE {
        if i > 0 {
          assert Nth(c1, i - 1, |f|) == Nth(c, i, |f|);
        }
      }
    }
  }

  /** A chain whose entries were not touched is still a chain. */
  lemma ChainKept(f: seq<Word>, f': seq<Word>, ch: seq<nat>)
    requires IsChain(f, ch) && |f'| == |f|
    requires forall i :: 0 <= i < |ch| ==> f'[ch[i]] == f[ch[i]]
    ensures IsChain(f', ch)
  {
  }

  /** What the entry of the i-th cluster of a chain says. */
  lemma ChainStep(f: seq<Word>, ch: seq<nat>, i: nat)
    requires IsChain(f, ch) && i < |ch|
    ensures 2 <= ch[i] < |f|
    ensures if i < |ch| - 1 then Entry(f, ch[i]) == ch[i + 1] && 2 <= ch[i + 1] < |f| else IsEoc(Entry(f, ch[i]))
  {
    assert i < |ch| - 1 ==> Entry(f, ch[i]) == ch[i + 1];
  }

  lemma ChainIsLive(f: seq<Word>, ch: seq<nat>, i: nat)
    requires IsChain(f, ch) && i < |ch|
    ensures Entry(f, ch[i]) != FAT32_FREE
  {
    assert i < |ch| - 1 ==> Entry(f, ch[i]) == ch[i + 1];
  }

  /** Every entry of the clusters `cs` set free, one after the other, in both copies. */
  function FreeAll(v: FatImage, cs: seq<nat>): (r: FatImage)
    requires |v.fat1| == |v.fat2| && forall i :: 0 <= i < |cs| ==> cs[i] < |v.fat1|
    ensures |r.fat1| == |r.fat2| == |v.fat1| && r.data == v.data
    ensures forall x :: 0 <= x < |v.fat1| && x !in cs ==> r.fat1[x] == v.fat1[x] && r.fat2[x] == v.fat2[x]
    ensures forall x :: 0 <= x < |v.fat1| && x in cs ==>
      Entry(r.fat1, x) == FAT32_FREE && Entry(r.fat2, x) == FAT32_FREE
    ensures forall x :: 0 <= x < |v.fat1| ==> r.fat1[x] / ENTRY_RANGE == v.fat1[x] / ENTRY_RANGE
    decreases |cs|
  {
    if cs == [] then v else
      var init := cs[..|cs| - 1];
      assert cs == init + [cs[|cs| - 1]];
      SetEntry(FreeAll(v, init), cs[|cs| - 1], FAT32_FREE)
  }

  /** Freeing the first `k` clusters of a chain frees `k` clusters. */
  lemma {:induction false} FreeAllCounts(v: FatImage, ch: seq<nat>, k: nat)
    requires |v.fat1| == |v.fat2| && IsChain(v.fat1, ch) && k <= |ch|
    ensures FreeCount(FreeAll(v, ch[..k]).fat1) == FreeCount(v.fat1) + k
  {
    if k > 0 {
      FreeAllCounts(v, ch, k - 1);
      OneMoreFreed(v, ch, k);
    }
  }

  lemma OneMoreFreed(v: FatImage, ch: seq<nat>, k: nat)
    requires |v.fat1| == |v.fat2| && IsChain(v.fat1, ch) && 0 < k <= |ch|
    ensures FreeCount(FreeAll(v, ch[..k]).fat1) == FreeCount(FreeAll(v, ch[..k - 1]).fat1) + 1
  {
    hide CountFree, Merge28;
    var part := FreeAll(v, ch[..k - 1]).fat1;
    var c := ch[k - 1];
    assert ch[..k][..k - 1] == ch[..k - 1];
    assert c !in ch[..k - 1];
    ChainIsLive(v.fat1, ch, k - 1);
    CountAfterSet(part, |part|, c, Merge28(part[c], FAT32_FREE));
  }

  /** Freeing one live chain leaves the others as they are and the volume sound. */
  lemma FreeKeepsSound(v: FatImage, live: seq<seq<nat>>, k: nat)
    requires |v.fat1| == |v.fat2| && Sound(v.fat1, live) && k < |live|
    ensures Sound(FreeAll(v, live[k]).fat1, live[..k] + live[k + 1..])
  {
    hide IsChain, FreeAll;
    var rest := live[..k] + live[k + 1..];
    ChainBounds(v.fat1, live[k]);
    var f := FreeAll(v, live[k]).fat1;
    forall m | 0 <= m < |rest| ensures IsChain(f, rest[m]) {
      OtherChainKept(v, live, k, if m < k then m else m + 1);
    }
    forall m, n | 0 <= m < n < |rest| ensures Disjoint(rest[m], rest[n]) {
      assert Disjoint(live[if m < k then m else m + 1], live[if n < k then n else n + 1]);
    }
  }

  lemma ChainBounds(f: seq<Word>, ch: seq<nat>)
    requires IsChain(f, ch)
    ensures forall i :: 0 <= i < |ch| ==> ch[i] < |f|
  {
  }

  lemma OtherChainKept(v: FatImage, live: seq<seq<nat>>, k: nat, m: nat)
    requires |v.fat1| == |v.fat2| && Sound(v.fat1, live) && k < |live| && m < |live| && m != k
    ensures IsChain(FreeAll(v, live[k]).fat1, live[m])
  {
    assert Disjoint(live[if m < k then m else k], live[if m < k then k else m]);
    forall i | 0 <= i < |live[m]| ensures live[m][i] !in live[k] {
    }
    ChainKept(v.fat1, FreeAll(v, live[k]).fat1, live[m]);
  }

  /** Marking a free cluster end-of-chain adds a chain of one cluster. */
  lemma AllocKeepsSound(v: FatImage, live: seq<seq<nat>>, c: nat)
    requires |v.fat1| == |v.fat2| && Sound(v.fat1, live)
    requires 2 <= c < |v.fat1| && Entry(v.fat1, c) == FAT32_FREE
    ensures Sound(SetEntry(v, c, FAT32_EOC).fat1, live + [[c]])
  {
    var f := SetEntry(v, c, FAT32_EOC).fat1;
    var all := live + [[c]];
    forall m | 0 <= m < |live| ensures IsChain(f, live[m]) && Disjoint(live[m], [c]) {
      FreeNotInChain(v.fat1, live[m], c);
      ChainKept(v.fat1, f, live[m]);
    }
    forall m, n | 0 <= m < n < |all| ensures Disjoint(all[m], all[n]) {
      assert all[m] == live[m] && (n < |live| ==> Disjoint(live[m], live[n]));
    }
  }

  lemma FreeNotInChain(f: seq<Word>, ch: seq<nat>, c: nat)
    requires IsChain(f, ch) && c < |f| && Entry(f, c) == FAT32_FREE
    ensures c !in ch
  {
    forall i | 0 <= i < |ch| ensures ch[i] != c {
      ChainIsLive(f, ch, i);
    }
  }

  /** Pointing the end of one chain at a chain of one cluster joins the two. */
  lemma LinkJoins(v: FatImage, ch: seq<nat>, c: nat)
    requires |v.fat1| == |v.fat2| && IsChain(v.fat1, ch) && IsChain(v.fat1, [c]) && c !in ch && c < FAT32_BAD
    ensures IsChain(SetEntry(v, ch[|ch| - 1], c).fat1, ch + [c])
  {
    var f := SetEntry(v, ch[|ch| - 1], c).fat1;
    var all := ch + [c];
    forall i | 0 <= i < |all| - 1 ensures Entry(f, all[i]) == all[i + 1] {
      assert i < |ch| - 1 ==> all[i + 1] == ch[i + 1] && ch[i] != ch[|ch| - 1];
    }
  }

  /** Linking a chain of one cluster behind another live chain keeps the volume sound. */
  lemma LinkKeepsSound(v: FatImage, live: seq<seq<nat>>, k: nat, c: nat)
    requires |v.fat1| == |v.fat2| && Sound(v.fat1, live + [[c]]) && k < |live| && c < FAT32_BAD
    ensures IsChain(v.fat1, live[k])
    ensures Sound(SetEntry(v, live[k][|live[k]| - 1], c).fat1, live[k := live[k] + [c]])
  {
    hide IsChain;
    var all := live + [[c]];
    assert all[k] == live[k] && all[|live|] == [c];
    assert Disjoint(all[k], all[|live|]);
    LinkOne(v, live[k], c);
    var f, after := SetEntry(v, live[k][|live[k]| - 1], c).fat1, live[k := live[k] + [c]];
    forall m | 0 <= m < |after| ensures IsChain(f, after[m]) {
      if m != k {
        assert all[m] == live[m];
        assert Disjoint(all[if m < k then m else k], all[if m < k then k else m]);
        OtherChainUnlinked(v, live[k], live[m], c);
      }
    }
    forall m, n | 0 <= m < n < |after| ensures Disjoint(after[m], after[n]) {
      assert Disjoint(all[m], all[n]) && Disjoint(all[m], all[|live|]) && Disjoint(all[n], all[|live|]);
      OneMoreApart(live[m], live[n], c);
    }
  }

  lemma LinkOne(v: FatImage, ch: seq<nat>, c: nat)
    requires |v.fat1| == |v.fat2| && IsChain(v.fat1, ch) && IsChain(v.fat1, [c]) && Disjoint(ch, [c]) && c < FAT32_BAD
    ensures |ch| > 0 && ch[|ch| - 1] < |v.fat1| && IsChain(SetEntry(v, ch[|ch| - 1], c).fat1, ch + [c])
  {
    assert c !in ch by {
      forall i | 0 <= i < |ch| ensures ch[i] != c {
        assert [c][0] == c;
      }
    }
    LinkJoins(v, ch, c);
  }

  lemma OtherChainUnlinked(v: FatImage, ch: seq<nat>, other: seq<nat>, c: nat)
    requires |v.fat1| == |v.fat2| && IsChain(v.fat1, ch) && IsChain(v.fat1, other)
    requires Disjoint(ch, other) || Disjoint(other, ch)
    ensures IsChain(SetEntry(v, ch[|ch| - 1], c).fat1, other)
  {
    ChainKept(v.fat1, SetEntry(v, ch[|ch| - 1], c).fat1, other);
  }

  lemma OneMoreApart(a: seq<nat>, b: seq<nat>, c: nat)
    requires Disjoint(a, b) && Disjoint(a, [c]) && Disjoint(b, [c])
    ensures Disjoint(a + [c], b) && Disjoint(a, b + [c])
  {
    assert [c][0] == c;
  }
}
