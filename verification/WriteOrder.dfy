/** What a crash can see: the first FAT after every single-sector device write. */
module WriteOrder {
  import opened Blocks
  import opened SectorCache
  import opened FatTable
  import opened VolumeState
  import opened Chains
  import opened FileBytes

  /** No entry links to a cluster whose own entry is free. */
  ghost predicate NoDangling(f: seq<Word>) {
    forall c :: 2 <= c < |f| ==> LinkHeld(f, c)
  }

  predicate LinkHeld(f: seq<Word>, c: nat)
    requires c < |f|
  {
    2 <= Entry(f, c) < |f| ==> Entry(f, Entry(f, c)) != FAT32_FREE
  }

  /** The device holds the whole first FAT that readers see, and none of its links dangles. */
  ghost predicate Ordered(g: Geometry, w: World)
    requires Mounted(g, w)
  {
    Stored(g, w).fat1 == Seen(g, w).fat1 && NoDangling(Seen(g, w).fat1)
  }

  /** After each write to the volume's device between `w0` and `w1`, no on-disk link dangles. */
  ghost predicate CrashSafe(g: Geometry, w0: World, w1: World) {
    && w0.history <= w1.history
    && forall k :: |w0.history| <= k < |w1.history| && w1.history[k].dev == g.dev ==>
         g.Fits(|w1.history[k].image|) && NoDangling(Fat1(g, w1.history[k].image))
  }

  lemma CrashSafeTransitive(g: Geometry, w0: World, w1: World, w2: World)
    requires CrashSafe(g, w0, w1) && CrashSafe(g, w1, w2)
    ensures CrashSafe(g, w0, w2)
  {
    forall k | |w0.history| <= k < |w2.history| && w2.history[k].dev == g.dev
      ensures g.Fits(|w2.history[k].image|) && NoDangling(Fat1(g, w2.history[k].image))
    {
      if k < |w1.history| {
        assert w2.history[k] == w1.history[k];
      }
    }
  }

  /** FATs that differ in at most one entry. */
  ghost predicate OneEntryApart(f: seq<Word>, f': seq<Word>, c: nat) {
    |f| == |f'| && forall i :: 0 <= i < |f| && i != c ==> f[i] == f'[i]
  }

  /** Moving one entry at a time, the device only ever shows the FAT before or after. */
  lemma OneEntryAtATime(g: Geometry, w0: World, w1: World, lo: seq<Word>, hi: seq<Word>, c: nat)
    requires Mounted(g, w1) && Fat1Within(g, w0, w1, lo, hi) && OneEntryApart(lo, hi, c)
    requires NoDangling(lo) && NoDangling(hi)
    ensures CrashSafe(g, w0, w1)
  {
    forall k | |w0.history| <= k < |w1.history| && w1.history[k].dev == g.dev
      ensures NoDangling(Fat1(g, w1.history[k].image))
    {
      OneOfTwo(Fat1(g, w1.history[k].image), lo, hi, c);
    }
  }

  lemma OneOfTwo(m: seq<Word>, lo: seq<Word>, hi: seq<Word>, c: nat)
    requires Mixed(m, lo, hi) && OneEntryApart(lo, hi, c)
    ensures m == lo || m == hi
  {
    if c < |m| && m[c] == hi[c] {
      assert m == hi;
    } else {
      assert m == lo;
    }
  }

  /** Taking a free cluster makes no link dangle. */
  lemma TakeKeepsLinks(v: FatImage, c: nat)
    requires |v.fat1| == |v.fat2| <= FAT32_BAD && 2 <= c < |v.fat1| && NoDangling(v.fat1)
    ensures NoDangling(SetEntry(v, c, FAT32_EOC).fat1)
    ensures OneEntryApart(v.fat1, SetEntry(v, c, FAT32_EOC).fat1, c)
  {
    var f := SetEntry(v, c, FAT32_EOC).fat1;
    forall x | 2 <= x < |f| ensures LinkHeld(f, x) {
      assert LinkHeld(v.fat1, x);
    }
  }

  /** Linking to a cluster that is not free makes no link dangle. */
  lemma LinkKeepsLinks(v: FatImage, cur: nat, added: nat)
    requires |v.fat1| == |v.fat2| <= FAT32_BAD && 2 <= cur < |v.fat1| && 2 <= added < |v.fat1|
    requires NoDangling(v.fat1) && Entry(v.fat1, added) != FAT32_FREE
    ensures NoDangling(SetEntry(v, cur, added).fat1)
    ensures OneEntryApart(v.fat1, SetEntry(v, cur, added).fat1, cur)
  {
    var f := SetEntry(v, cur, added).fat1;
    forall x | 2 <= x < |f| ensures LinkHeld(f, x) {
      assert LinkHeld(v.fat1, x);
    }
  }

  /** A sound volume, all of whose links belong to live chains, has no dangling link. */
  lemma SoundHasNoDangling(f: seq<Word>, live: seq<seq<nat>>)
    requires Sound(f, live)
    requires forall c :: 2 <= c < |f| && 2 <= Entry(f, c) < |f| ==> exists k :: 0 <= k < |live| && c in live[k]
    requires |f| <= FAT32_BAD
    ensures NoDangling(f)
  {
    forall c | 2 <= c < |f| && 2 <= Entry(f, c) < |f| ensures Entry(f, Entry(f, c)) != FAT32_FREE {
      var k :| 0 <= k < |live| && c in live[k];
      var i :| 0 <= i < |live[k]| && live[k][i] == c;
      ChainStep(f, live[k], i);
      ChainIsLive(f, live[k], i + 1);
    }
  }
}
