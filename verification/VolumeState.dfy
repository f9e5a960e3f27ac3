/** How cache traffic shows at the level of one mounted volume: the volume the readers see, the
    volume on the device, and what every single-sector device write leaves in the first FAT. */
module VolumeState {
  import opened Blocks
  import opened SectorCache
  import opened FatTable

  ghost predicate Mounted(g: Geometry, w: World) {
    && Coherent(w)
    && g.dev < |w.disks|
    && g.Fits(|w.disks[g.dev]|)
  }

  /** The volume as every cached reader sees it. */
  ghost function Seen(g: Geometry, w: World): FatImage
    requires Mounted(g, w)
  {
    Abs(g, View(w, g.dev))
  }

  /** The volume as it lies on the device. */
  ghost function Stored(g: Geometry, w: World): FatImage
    requires Mounted(g, w)
  {
    Abs(g, w.disks[g.dev])
  }

  /** Every device other than the volume's own looks as before. */
  ghost predicate ElsewhereSame(g: Geometry, w0: World, w1: World)
    requires SameShape(w0, w1)
  {
    forall d: nat :: d < |w0.disks| && d != g.dev ==> View(w1, d) == View(w0, d)
  }

  ghost predicate Step(g: Geometry, w0: World, w1: World) {
    Mounted(g, w0) && Mounted(g, w1) && SameShape(w0, w1) && ElsewhereSame(g, w0, w1)
  }

  /** What a mounted volume's numbers satisfy. */
  lemma VolumeBounds(g: Geometry, w: World)
    requires Mounted(g, w)
    ensures Coherent(w) && |w.slots| == CACHE_BLOCKS && g.dev < |w.disks| && Quiet(w, w) && Step(g, w, w)
    ensures 1 <= g.totalClusters && g.totalClusters + 1 < FAT32_BAD && 1 <= g.sectorsPerCluster <= 8
    ensures |Seen(g, w).fat1| == |Seen(g, w).fat2| == |Seen(g, w).data| == g.totalClusters + 2
    ensures |Stored(g, w).fat1| == g.totalClusters + 2
  {
    QuietSame(w, w);
  }

  /** What holds across any step. */
  lemma StepBounds(g: Geometry, w0: World, w1: World)
    requires Step(g, w0, w1)
    ensures Mounted(g, w0) && Mounted(g, w1) && |w0.disks[g.dev]| == |w1.disks[g.dev]|
    ensures w0.failures <= w1.failures && w0.history <= w1.history
  {
  }

  /** Each entry of `m` comes from `lo` or from `hi`. */
  ghost predicate Mixed(m: seq<Word>, lo: seq<Word>, hi: seq<Word>) {
    && |m| == |lo| == |hi|
    && forall i :: 0 <= i < |m| ==> m[i] == lo[i] || m[i] == hi[i]
  }

  function Fat1(g: Geometry, img: Disk): seq<Word>
    requires g.Fits(|img|)
  {
    FatWords(img, g.fatStart, g.totalClusters + 2)
  }

  /** From `w0` to `w1` the first FAT on the device only ever mixes entries of `lo` and `hi`. */
  ghost predicate Fat1Within(g: Geometry, w0: World, w1: World, lo: seq<Word>, hi: seq<Word>)
    requires Mounted(g, w1)
  {
    && w0.history <= w1.history
    && Mixed(Stored(g, w1).fat1, lo, hi)
    && forall k :: |w0.history| <= k < |w1.history| && w1.history[k].dev == g.dev ==>
         g.Fits(|w1.history[k].image|) && Mixed(Fat1(g, w1.history[k].image), lo, hi)
  }

  /** If the first FAT was all on the device, it moved entry by entry from its old to its new value. */
  ghost predicate Tracked(g: Geometry, w0: World, w1: World)
    requires Mounted(g, w0) && Mounted(g, w1)
  {
    Stored(g, w0).fat1 == Seen(g, w0).fat1 ==> Fat1Within(g, w0, w1, Seen(g, w0).fat1, Seen(g, w1).fat1)
  }

  lemma BetweenMixes(g: Geometry, a: Disk, b: Disk, m: Disk)
    requires Between(a, b, m) && g.Fits(|a|)
    ensures Mixed(Fat1(g, m), Fat1(g, a), Fat1(g, b))
  {
    forall c | 0 <= c < g.totalClusters + 2
      ensures Fat1(g, m)[c] == Fat1(g, a)[c] || Fat1(g, m)[c] == Fat1(g, b)[c]
    {
      EntryPlace(c, g.totalClusters + 2);
    }
  }

  lemma SettledWithin(g: Geometry, w0: World, w1: World)
    requires Mounted(g, w0) && Mounted(g, w1) && SameShape(w0, w1) && Settled(w0, w1, g.dev)
    ensures Fat1Within(g, w0, w1, Stored(g, w0).fat1, Seen(g, w0).fat1)
  {
    var d := g.dev;
    BetweenMixes(g, w0.disks[d], View(w0, d), w1.disks[d]);
    forall k | |w0.history| <= k < |w1.history| && w1.history[k].dev == d
      ensures g.Fits(|w1.history[k].image|) && Mixed(Fat1(g, w1.history[k].image), Stored(g, w0).fat1, Seen(g, w0).fat1)
    {
      BetweenMixes(g, w0.disks[d], View(w0, d), w1.history[k].image);
    }
  }

  /** Reads, evictions and flushes leave the volume as seen unchanged. */
  lemma QuietVolume(g: Geometry, w0: World, w1: World)
    requires Mounted(g, w0) && Coherent(w1) && Quiet(w0, w1)
    ensures Mounted(g, w1) && w0.failures <= w1.failures
    ensures Step(g, w0, w1) && Seen(g, w1) == Seen(g, w0) && View(w1, g.dev) == View(w0, g.dev)
    ensures Fat1Within(g, w0, w1, Stored(g, w0).fat1, Seen(g, w0).fat1)
    ensures Tracked(g, w0, w1) && KeepsClean(g, w0, w1, {})
    ensures w0.disks[g.dev] == View(w0, g.dev) ==> w1.disks[g.dev] == View(w1, g.dev)
  {
    forall d: nat | d < |w0.disks| ensures View(w1, d) == View(w0, d) {
      QuietViews(w0, w1, d);
    }
    assert Settled(w0, w1, g.dev);
    SettledWithin(g, w0, w1);
    SettledKeepsClean(g, w0, w1, {});
  }

  /** A cached sector write changes the view at one sector of the volume's device. */
  lemma WroteVolume(g: Geometry, w0: World, w1: World, lba: nat, data: Sector)
    requires Mounted(g, w0) && Coherent(w1) && Wrote(w0, w1, g.dev, lba, data)
    ensures Mounted(g, w1)
    ensures Step(g, w0, w1) && View(w1, g.dev) == Put(View(w0, g.dev), lba, data)
    ensures Fat1Within(g, w0, w1, Stored(g, w0).fat1, Seen(g, w0).fat1) && Settled(w0, w1, g.dev)
  {
    forall d: nat | d < |w0.disks|
      ensures View(w1, d) == if d == g.dev then Put(View(w0, d), lba, data) else View(w0, d)
    {
      WroteViews(w0, w1, g.dev, lba, data, d);
    }
    assert Settled(w0, w1, g.dev);
    SettledWithin(g, w0, w1);
  }

  lemma StepTransitive(g: Geometry, w0: World, w1: World, w2: World)
    requires Step(g, w0, w1) && Step(g, w1, w2)
    ensures Step(g, w0, w2)
  {
    forall d: nat | d < |w0.disks| && d != g.dev ensures View(w2, d) == View(w0, d) {
      assert View(w1, d) == View(w0, d);
    }
  }

  /** Two stretches of history whose entries all come from `lo` or `hi` make one. */
  lemma WithinTransitive(g: Geometry, w0: World, w1: World, w2: World,
                         lo: seq<Word>, hi: seq<Word>, lo': seq<Word>, hi': seq<Word>)
    requires Mounted(g, w1) && Mounted(g, w2)
    requires Fat1Within(g, w0, w1, lo, hi) && Fat1Within(g, w1, w2, lo', hi')
    requires Mixed(lo', lo, hi) && Mixed(hi', lo, hi)
    ensures Fat1Within(g, w0, w2, lo, hi)
  {
    forall k | |w0.history| <= k < |w2.history| && w2.history[k].dev == g.dev
      ensures g.Fits(|w2.history[k].image|) && Mixed(Fat1(g, w2.history[k].image), lo, hi)
    {
      if k < |w1.history| {
        assert w2.history[k] == w1.history[k];
      }
    }
  }

  /** Clusters that were clean (the device held what readers saw) and are not in `t` stay clean. */
  ghost predicate KeepsClean(g: Geometry, w0: World, w1: World, t: set<nat>)
    requires Mounted(g, w0) && Mounted(g, w1)
  {
    forall c: nat :: g.InRange(c) && c !in t && Stored(g, w0).data[c] == Seen(g, w0).data[c] ==>
      Stored(g, w1).data[c] == Seen(g, w1).data[c]
  }

  lemma KeepsCleanTransitive(g: Geometry, w0: World, w1: World, w2: World, t: set<nat>, t': set<nat>, u: set<nat>)
    requires Mounted(g, w0) && Mounted(g, w1) && Mounted(g, w2)
    requires KeepsClean(g, w0, w1, t) && KeepsClean(g, w1, w2, t') && t <= u && t' <= u
    ensures KeepsClean(g, w0, w2, u)
  {
  }

  /** A volume that is all on the device is clean everywhere. */
  lemma AllClean(g: Geometry, w0: World, w1: World, t: set<nat>)
    requires Mounted(g, w0) && Mounted(g, w1) && Stored(g, w1) == Seen(g, w1)
    ensures KeepsClean(g, w0, w1, t)
  {
  }

  lemma {:induction false} EqualBytesEqualSectors(a: Disk, b: Disk, lba: nat, n: nat)
    requires lba + n <= |a| && lba + n <= |b| && SectorBytes(a, lba, n) == SectorBytes(b, lba, n)
    ensures forall l :: lba <= l < lba + n ==> a[l] == b[l]
  {
    if n > 0 {
      var x, y := SectorBytes(a, lba, n), SectorBytes(b, lba, n);
      assert SectorBytes(a, lba, n - 1) == x[..(n - 1) * BLOCK_SIZE] && a[lba + n - 1] == x[(n - 1) * BLOCK_SIZE..];
      assert SectorBytes(b, lba, n - 1) == y[..(n - 1) * BLOCK_SIZE] && b[lba + n - 1] == y[(n - 1) * BLOCK_SIZE..];
      EqualBytesEqualSectors(a, b, lba, n - 1);
    }
  }

  /** Cache traffic that changes no byte of the clusters outside `t` keeps them clean. */
  lemma SettledKeepsClean(g: Geometry, w0: World, w1: World, t: set<nat>)
    requires Mounted(g, w0) && Mounted(g, w1) && SameShape(w0, w1) && Settled(w0, w1, g.dev)
    requires forall c: nat :: g.InRange(c) && c !in t ==> Seen(g, w1).data[c] == Seen(g, w0).data[c]
    ensures KeepsClean(g, w0, w1, t)
  {
    forall c: nat | g.InRange(c) && c !in t && Stored(g, w0).data[c] == Seen(g, w0).data[c]
      ensures Stored(g, w1).data[c] == Seen(g, w1).data[c]
    {
      OneClusterClean(g, w0, w1, c);
    }
  }

  lemma OneClusterClean(g: Geometry, w0: World, w1: World, c: nat)
    requires Mounted(g, w0) && Mounted(g, w1) && SameShape(w0, w1) && Settled(w0, w1, g.dev)
    requires g.InRange(c) && Stored(g, w0).data[c] == Seen(g, w0).data[c]
    ensures Stored(g, w1).data[c] == Seen(g, w0).data[c]
  {
    var d := g.dev;
    var lba, n := g.ClusterLba(c), g.sectorsPerCluster;
    ClusterOnDevice(g, |w0.disks[d]|, c);
    EqualBytesEqualSectors(w0.disks[d], View(w0, d), lba, n);
    SameSectors(w1.disks[d], View(w0, d), lba, n);
  }
}
