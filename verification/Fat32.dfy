/** FAT entries, the circular allocator and the write barrier of fs/fat32.c. */
module Fat32 {
  import opened Blocks
  import opened SectorCache
  import opened FatTable
  import opened VolumeState
  import opened Chains

  /** One mounted volume: fixed placement, and the two allocator fields that change. */
  class Volume {
    const cache: Cache
    const g: Geometry
    var freeClusters: Word
    var nextFree: Word

    constructor (cache: Cache, g: Geometry, freeClusters: Word, nextFree: Word)
      ensures this.cache == cache && this.g == g
      ensures this.freeClusters == freeClusters && this.nextFree == nextFree
    {
      this.cache, this.g, this.freeClusters, this.nextFree := cache, g, freeClusters, nextFree;
    }

    ghost predicate Valid()
      reads cache.slots, cache.table
    {
      Mounted(g, cache.W())
    }

    ghost function Now(): World
      reads cache.slots, cache.table
    {
      cache.W()
    }

    /** fat32_read_fat: a failing transfer reads as FAT32_BAD. */
    method ReadFat(c: nat) returns (v: nat)
      requires Valid()
      modifies cache.slots, cache.table
      ensures Valid() && Quiet(old(Now()), Now())
      ensures v < ENTRY_RANGE
      ensures !g.InRange(c) ==> v == FAT32_BAD && cache.table.failures == old(cache.table.failures)
      ensures g.InRange(c) && cache.table.failures == old(cache.table.failures) ==>
        v == Entry(Seen(g, old(Now())).fat1, c)
      ensures g.InRange(c) && cache.table.failures != old(cache.table.failures) ==> v == FAT32_BAD
    {
      ghost var w0 := Now();
      if c < 2 || c > g.totalClusters + 1 {
        QuietSame(w0, w0);
        return FAT32_BAD;
      }
      var lba := g.fatStart + c * 4 / BLOCK_SIZE;
      var off := c * 4 % BLOCK_SIZE;
      PutFat1(g, View(w0, g.dev), c, 0, lba, off);
      var ok, sector := cache.Read(g.dev, lba);
      QuietVolume(g, w0, Now());
      if !ok {
        return FAT32_BAD;
      }
      assert Lookup(Now(), g.dev, lba) == Some(View(Now(), g.dev)[lba]);
      v := Load32(sector, off) % ENTRY_RANGE;
    }

    /** fat32_write_fat: both copies, first FAT1, each entry under its own reserved nibble. */
    method WriteFat(c: nat, value: nat) returns (ok: bool)
      requires Valid()
      modifies cache.slots, cache.table
      ensures Valid() && Step(g, old(Now()), Now()) && Tracked(g, old(Now()), Now())
      ensures KeepsClean(g, old(Now()), Now(), {}) && ReservedKept(g, old(Now()), Now())
      ensures ok ==> g.InRange(c) && Seen(g, Now()) == SetEntry(Seen(g, old(Now())), c, value)
      ensures !ok ==>
        || Seen(g, Now()) == Seen(g, old(Now()))
        || (g.InRange(c) && Seen(g, Now()) == SetFirst(Seen(g, old(Now())), c, value))
      ensures g.InRange(c) ==> (ok <==> cache.table.failures == old(cache.table.failures))
      ensures !g.InRange(c) ==> !ok && Now() == old(Now())
    {
      ghost var w0 := Now();
      if c < 2 || c > g.totalClusters + 1 {
        QuietSame(w0, w0);
        QuietVolume(g, w0, w0);
        return false;
      }
      var lba1 := g.fatStart + c * 4 / BLOCK_SIZE;
      var lba2 := g.fat2Start + c * 4 / BLOCK_SIZE;
      var off := c * 4 % BLOCK_SIZE;
      PutFat1(g, View(w0, g.dev), c, Merge28(Seen(g, w0).fat1[c], value), lba1, off);
      ok := UpdateWord(lba1, off, value);
      ghost var w1 := Now();
      if ok {
        PutFat2(g, View(w1, g.dev), c, Merge28(Seen(g, w1).fat2[c], value), lba2, off);
        ok := UpdateWord(lba2, off, value);
        FirstThenSecond(g, w0, w1, Now(), c, value);
        ReservedKeptTransitive(g, w0, w1, Now());
        KeepsCleanTransitive(g, w0, w1, Now(), {}, {}, {});
      }
    }

    /** One half of fat32_write_fat: read one sector, merge a 28-bit value into the word at `off`, write the sector back. */
    method UpdateWord(lba: nat, off: nat, value: nat) returns (ok: bool)
      requires Valid() && off + 4 <= BLOCK_SIZE
      requires g.fatStart <= lba < g.dataStart && lba < |cache.table.disks[g.dev]|
      modifies cache.slots, cache.table
      ensures Valid() && Step(g, old(Now()), Now())
      ensures Fat1Within(g, old(Now()), Now(), Stored(g, old(Now())).fat1, Seen(g, old(Now())).fat1)
      ensures KeepsClean(g, old(Now()), Now(), {})
      ensures var img := View(old(Now()), g.dev);
        View(Now(), g.dev) == if ok then Put(img, lba, Store32(img[lba], off, Merge28(Load32(img[lba], off), value))) else img
      ensures ReservedKept(g, old(Now()), Now())
      ensures ok <==> cache.table.failures == old(cache.table.failures)
    {
      hide ReservedKept, KeepsClean, FatWords, Merge28, CountFree;
      ghost var w0 := Now();
      var read, sector := cache.Read(g.dev, lba);
      ghost var w1 := Now();
      QuietVolume(g, w0, w1);
      ReservedPut(g, w0, w1, lba);
      if !read {
        return false;
      }
      assert Lookup(w1, g.dev, lba) == Some(View(w1, g.dev)[lba]);
      var word := Load32(sector, off);
      sector := Store32(sector, off, Merge28(word, value));
      ok := cache.Write(g.dev, lba, sector);
      ghost var w2 := Now();
      if ok {
        WroteVolume(g, w1, w2, lba, sector);
        PutInFat(g, View(w1, g.dev), lba, sector);
        SettledKeepsClean(g, w1, w2, {});
      } else {
        QuietVolume(g, w1, w2);
      }
      KeepsCleanTransitive(g, w0, w1, w2, {}, {}, {});
      StepTransitive(g, w0, w1, w2);
      WithinTransitive(g, w0, w1, w2, Stored(g, w0).fat1, Seen(g, w0).fat1, Stored(g, w1).fat1, Seen(g, w1).fat1);
      ReservedPut(g, w0, w2, lba);
    }

    /** fat32_update_fsinfo: both FSInfo copies, written straight to the device. */
    method UpdateFsInfo() returns (ok: bool, ghost stamped: Sector)
      requires Valid()
      modifies cache.slots, cache.table
      ensures Valid() && Step(g, old(Now()), Now())
      ensures Seen(g, Now()) == Seen(g, old(Now()))
      ensures Fat1Within(g, old(Now()), Now(), Stored(g, old(Now())).fat1, Stored(g, old(Now())).fat1)
      ensures Clean(old(Now()), g.dev) ==> Clean(Now(), g.dev)
      ensures KeepsClean(g, old(Now()), Now(), {})
      ensures Clean(old(Now()), g.dev) ==> ReservedKept(g, old(Now()), Now())
      ensures ok ==> View(Now(), g.dev)[g.fsInfoSector] == View(Now(), g.dev)[g.backupBootSector + 1] == stamped
      ensures ok ==> HoldsCounts(stamped, freeClusters, nextFree)
      ensures ok <==> cache.table.failures == old(cache.table.failures)
    {
      ghost var w0 := Now();
      var sector: Sector;
      ok, sector := cache.DirectRead(g.dev, g.fsInfoSector);
      stamped := sector;
      ghost var w1 := Now();
      QuietVolume(g, w0, w1);
      SameStored(g, w0, w1);
      if Clean(w0, g.dev) {
        ReservedSame(g, w0, w1);
        CleanMeansOnDisk(w0, g.dev);
      }
      if !ok {
        return;
      }
      sector := FillCounts(sector);
      stamped := sector;
      ok := WriteInfoPair(sector);
      if Clean(w0, g.dev) {
        ReservedStamped(g, w1, Now(), sector);
        ReservedKeptTransitive(g, w0, w1, Now());
      }
      ReservedTransitive(g, w0, w1, Now());
      KeepsCleanTransitive(g, w0, w1, Now(), {}, {}, {});
    }

    /** The FSInfo sector and its backup. */
    method WriteInfoPair(sector: Sector) returns (ok: bool)
      requires Valid()
      modifies cache.slots, cache.table
      ensures Valid() && Step(g, old(Now()), Now()) && Seen(g, Now()) == Seen(g, old(Now()))
      ensures Fat1Within(g, old(Now()), Now(), Stored(g, old(Now())).fat1, Stored(g, old(Now())).fat1)
      ensures Clean(old(Now()), g.dev) ==> Clean(Now(), g.dev)
      ensures KeepsClean(g, old(Now()), Now(), {})
      ensures InfoPut(g, View(old(Now()), g.dev), View(Now(), g.dev), sector)
      ensures ok ==> View(Now(), g.dev)[g.fsInfoSector] == View(Now(), g.dev)[g.backupBootSector + 1] == sector
      ensures ok <==> cache.table.failures == old(cache.table.failures)
    {
      ghost var w0 := Now();
      ok := WriteReserved(g.fsInfoSector, sector);
      ghost var w1 := Now();
      if ok {
        ok := WriteReserved(g.backupBootSector + 1, sector);
        ReservedTransitive(g, w0, w1, Now());
        KeepsCleanTransitive(g, w0, w1, Now(), {}, {}, {});
      }
    }

    method FillCounts(sector: Sector) returns (r: Sector)
      ensures HoldsCounts(r, freeClusters, nextFree) && (SignedWhole(sector) ==> Trailed(r))
    {
      CountsAreStored(sector, freeClusters, nextFree);
      return WithCounts(sector, freeClusters, nextFree);
    }

    /** A direct write into the reserved region, with the cached copy dropped. */
    method WriteReserved(lba: nat, sector: Sector) returns (ok: bool)
      requires Valid() && lba < g.fatStart
      modifies cache.slots, cache.table
      ensures Valid() && Step(g, old(Now()), Now()) && Seen(g, Now()) == Seen(g, old(Now()))
      ensures Fat1Within(g, old(Now()), Now(), Stored(g, old(Now())).fat1, Stored(g, old(Now())).fat1)
      ensures Clean(old(Now()), g.dev) ==> Clean(Now(), g.dev)
      ensures KeepsClean(g, old(Now()), Now(), {})
      ensures View(Now(), g.dev) == if ok then Put(View(old(Now()), g.dev), lba, sector) else View(old(Now()), g.dev)
      ensures ok <==> cache.table.failures == old(cache.table.failures)
    {
      ghost var w0 := Now();
      ok := cache.DirectWrite(g.dev, lba, sector);
      ghost var w1 := Now();
      forall d: nat | d < |w0.disks|
        ensures View(w1, d) == if ok && d == g.dev then Put(View(w0, d), lba, sector) else View(w0, d)
      {
        ReroutedViews(w0, w1, g.dev, lba, sector, ok, d);
      }
      if ok {
        PutReserved(g, View(w0, g.dev), lba, sector);
        PutReserved(g, w0.disks[g.dev], lba, sector);
      } else {
        SameStored(g, w0, w1);
      }
    }

    /** fat32_write_barrier: everything cached goes out, then FSInfo. */
    method WriteBarrier() returns (ok: bool)
      requires Valid()
      modifies cache.slots, cache.table
      ensures Valid() && Step(g, old(Now()), Now())
      ensures Seen(g, Now()) == Seen(g, old(Now()))
      ensures KeepsClean(g, old(Now()), Now(), {})
      ensures Fat1Within(g, old(Now()), Now(), Stored(g, old(Now())).fat1, Seen(g, old(Now())).fat1)
      ensures ok ==> Clean(Now(), g.dev) && Stored(g, Now()) == Seen(g, Now())
      ensures ok ==> Recorded(g, Now(), freeClusters, nextFree)
      ensures ReservedKept(g, old(Now()), Now())
      ensures ok <==> cache.table.failures == old(cache.table.failures)
    {
      ghost var w0 := Now();
      ok := cache.Flush(g.dev);
      ghost var w1 := Now();
      QuietVolume(g, w0, w1);
      ReservedSame(g, w0, w1);
      if ok {
        ghost var stamped;
        ok, stamped := UpdateFsInfo();
        ghost var w2 := Now();
        StepTransitive(g, w0, w1, w2);
        ReservedKeptTransitive(g, w0, w1, w2);
        KeepsCleanTransitive(g, w0, w1, w2, {}, {}, {});
        var lo, hi := Stored(g, w0).fat1, Seen(g, w0).fat1;
        WithinTransitive(g, w0, w1, w2, lo, hi, Stored(g, w1).fat1, Stored(g, w1).fat1);
        if ok {
          CleanMeansOnDisk(w2, g.dev);
        }
      }
    }

    /** The cached free count is the true number of free entries. */
    ghost predicate Exact()
      requires Valid()
      reads this, cache.slots, cache.table
    {
      freeClusters == FreeCount(Seen(g, Now()).fat1)
    }

    /** The counting part of fat32_fsck, after its flush. */
    method FsckCount() returns (changed: bool)
      requires Valid()
      modifies this`freeClusters, cache.slots, cache.table
      ensures Valid() && Quiet(old(Now()), Now())
      ensures cache.table.failures == old(cache.table.failures) ==> Exact() && (changed <==> !old(Exact()))
    {
      hide Mounted, Coherent, ElsewhereSame, Fat1Within, KeepsClean, Abs, View, CountFree, FatWords, Merge28, ReservedKept, Recorded, Step;
      ghost var w0 := Now();
      VolumeBounds(g, w0);
      ghost var f := Seen(g, w0).fat1;
      CountNone(f);
      var count: nat := 0;
      for cluster := 2 to g.totalClusters + 2
        invariant Valid() && Quiet(w0, Now()) && count <= cluster && freeClusters == old(freeClusters)
        invariant cache.table.failures == w0.failures ==> count == CountFree(f, cluster)
      {
        ghost var w1 := Now();
        VolumeBounds(g, w1);
        QuietVolume(g, w0, w1);
        CountNext(f, cluster);
        var v := ReadFat(cluster);
        QuietTransitive(w0, w1, Now());
        if v == FAT32_FREE {
          count := count + 1;
        }
      }
      VolumeBounds(g, Now());
      QuietVolume(g, w0, Now());
      changed := count != freeClusters;
      if changed {
        freeClusters := count;
      }
    }

    /** fat32_alloc_cluster: the first free cluster in circular order becomes a chain of its own. */
    method AllocCluster() returns (r: nat)
      requires Valid()
      modifies this`freeClusters, this`nextFree, cache.slots, cache.table
      ensures Valid() && Step(g, old(Now()), Now()) && Tracked(g, old(Now()), Now())
      ensures KeepsClean(g, old(Now()), Now(), {})
      ensures r != FAT32_BAD ==>
        && g.InRange(r) && Entry(Seen(g, old(Now())).fat1, r) == FAT32_FREE
        && Seen(g, Now()) == SetEntry(Seen(g, old(Now())), r, FAT32_EOC)
        && Clean(Now(), g.dev) && Stored(g, Now()) == Seen(g, Now())
        && (old(Exact()) ==> Exact())
      ensures r == FAT32_BAD ==> MaybeMarked(Seen(g, old(Now())), Seen(g, Now()))
      ensures r != FAT32_BAD ==> Recorded(g, Now(), freeClusters, nextFree)
      ensures ReservedKept(g, old(Now()), Now())
      ensures r != FAT32_BAD ==>
        && nextFree == After(r, g.totalClusters + 1)
        && freeClusters == if old(freeClusters) == 0 then 0 else old(freeClusters) - 1
      ensures cache.table.failures == old(cache.table.failures) ==>
        && r == NextToTake(g, Seen(g, old(Now())).fat1, old(nextFree))
        && (r == FAT32_BAD <==> FreeCount(Seen(g, old(Now())).fat1) == 0)
        && (r == FAT32_BAD ==> Quiet(old(Now()), Now()))
        && (old(Exact()) ==> Exact())
    {
      hide Mounted, Coherent, ElsewhereSame, Fat1Within, KeepsClean, Abs, View, CountFree, FatWords, Merge28, ReservedKept, Recorded;
      ghost var w0 := Now();
      VolumeBounds(g, w0);
      if nextFree < 2 || nextFree > g.totalClusters + 1 {
        nextFree := 2;
      }
      ScanFindsAny(Seen(g, w0).fat1, nextFree);
      var cluster := FindFree(nextFree);
      ghost var w1 := Now();
      VolumeBounds(g, w1);
      QuietVolume(g, w0, w1);
      ReservedSame(g, w0, w1);
      if cluster == FAT32_BAD {
        return FAT32_BAD;
      }
      r := TakeCluster(cluster, g.totalClusters + 1);
      ReservedKeptTransitive(g, w0, w1, Now());
      KeepsCleanTransitive(g, w0, w1, Now(), {}, {}, {});
      StepTransitive(g, w0, w1, Now());
      TrackedTransitive(g, w0, w1, Now());
    }

    /** The search loop of fat32_alloc_cluster; an entry that cannot be read does not count as free. */
    method FindFree(start: nat) returns (r: nat)
      requires Valid() && g.InRange(start)
      modifies cache.slots, cache.table
      ensures Valid() && Quiet(old(Now()), Now())
      ensures r != FAT32_BAD ==> g.InRange(r) && Entry(Seen(g, old(Now())).fat1, r) == FAT32_FREE
      ensures cache.table.failures == old(cache.table.failures) ==>
        r == ScanFree(Seen(g, old(Now())).fat1, start, g.totalClusters)
    {
      hide Mounted, Coherent, ElsewhereSame, Fat1Within, KeepsClean, Abs, View, CountFree, FatWords, Merge28, ReservedKept, Recorded;
      ghost var w0 := Now();
      VolumeBounds(g, w0);
      ghost var f := Seen(g, w0).fat1;
      var cluster := start;
      var last := g.totalClusters + 1;
      var searched := 0;
      while searched < g.totalClusters
        invariant Valid() && Quiet(w0, Now())
        invariant searched <= g.totalClusters && g.InRange(cluster)
        invariant cache.table.failures == w0.failures ==>
          ScanFree(f, start, g.totalClusters) == ScanFree(f, cluster, g.totalClusters - searched)
      {
        ghost var w1 := Now();
        VolumeBounds(g, w1);
        QuietVolume(g, w0, w1);
        var v := ReadFat(cluster);
        QuietTransitive(w0, w1, Now());
        if v == FAT32_FREE {
          return cluster;
        }
        cluster := if cluster == last then 2 else cluster + 1;
        searched := searched + 1;
      }
      return FAT32_BAD;
    }

    /** The part of fat32_alloc_cluster that runs once a free cluster is found. */
    method TakeCluster(c: nat, last: nat) returns (r: nat)
      requires Valid() && g.InRange(c) && last == g.totalClusters + 1
      requires Entry(Seen(g, Now()).fat1, c) == FAT32_FREE
      modifies this`freeClusters, this`nextFree, cache.slots, cache.table
      ensures Valid() && Step(g, old(Now()), Now()) && Tracked(g, old(Now()), Now())
      ensures KeepsClean(g, old(Now()), Now(), {})
      ensures r == c || r == FAT32_BAD
      ensures r == c ==> Seen(g, Now()) == SetEntry(Seen(g, old(Now())), c, FAT32_EOC)
      ensures r == c ==> Clean(Now(), g.dev) && Stored(g, Now()) == Seen(g, Now())
      ensures r == FAT32_BAD ==> MaybeMarked(Seen(g, old(Now())), Seen(g, Now()))
      ensures r == c <==> cache.table.failures == old(cache.table.failures)
      ensures r == c && old(Exact()) ==> Exact()
      ensures r == c ==> Recorded(g, Now(), freeClusters, nextFree)
      ensures ReservedKept(g, old(Now()), Now())
      ensures r == c ==> nextFree == After(c, last) && freeClusters == if old(freeClusters) == 0 then 0 else old(freeClusters) - 1
    {
      hide Mounted, Coherent, ElsewhereSame, Fat1Within, KeepsClean, Abs, View, CountFree, FatWords, Merge28, ReservedKept, Recorded;
      VolumeBounds(g, Now());
      ghost var w0 := Now();
      var ok := WriteFat(c, FAT32_EOC);
      ghost var w1 := Now();
      if !ok {
        return FAT32_BAD;
      }
      CountAfterSet(Seen(g, w0).fat1, |Seen(g, w0).fat1|, c, Merge28(Seen(g, w0).fat1[c], FAT32_EOC));
      if freeClusters != 0 {
        freeClusters := freeClusters - 1;
      }
      nextFree := if c == last then 2 else c + 1;
      ok := WriteBarrier();
      ReservedKeptTransitive(g, w0, w1, Now());
      KeepsCleanTransitive(g, w0, w1, Now(), {}, {}, {});
      StepTransitive(g, w0, w1, Now());
      TrackedThenFlushed(g, w0, w1, Now());
      if !ok {
        return FAT32_BAD;
      }
      return c;
    }

    /** fat32_free_chain. A link that cannot be read ends the walk early, so with failing transfers
        only the first `k` clusters of the chain may come free. */
    method FreeChain(c: nat, ghost ch: seq<nat>) returns (ok: bool, ghost k: nat)
      requires Valid()
      modifies this`freeClusters, this`nextFree, cache.slots, cache.table
      ensures Valid() && Step(g, old(Now()), Now())
      ensures c < 2 ==> ok && Now() == old(Now())
      ensures ok && 2 <= c ==> Clean(Now(), g.dev) && Stored(g, Now()) == Seen(g, Now())
      ensures ok && 2 <= c ==> Recorded(g, Now(), freeClusters, nextFree)
      ensures ReservedKept(g, old(Now()), Now())
      ensures ChainFrom(Seen(g, old(Now())).fat1, ch, c) && ok ==>
        && 1 <= k <= |ch| && FreedFrom(Seen(g, old(Now())), Seen(g, Now()), ch, k)
        && (old(Exact()) ==> Exact())
        && (cache.table.failures == old(cache.table.failures) ==> k == |ch|)
      ensures ChainFrom(Seen(g, old(Now())).fat1, ch, c) ==>
        cache.table.failures == old(cache.table.failures) ==> ok
      ensures ok && 2 <= c ==>
        && freeClusters == (old(freeClusters) + k) % U32_RANGE
        && nextFree == if c < old(nextFree) || old(nextFree) < 2 then c % U32_RANGE else old(nextFree)
      ensures c < 2 ==> freeClusters == old(freeClusters) && nextFree == old(nextFree)
    {
      hide Mounted, Coherent, ElsewhereSame, Fat1Within, KeepsClean, Abs, View, CountFree, FatWords, Merge28, ReservedKept, Recorded,
           SameShape, Quiet, Wrote, Step, Tracked, IsChain, FreedFrom, FreeAll, SetEntry;
      ghost var w0 := Now();
      VolumeBounds(g, w0);
      ghost var given := ChainFrom(Seen(g, w0).fat1, ch, c);
      if given {
        FreeNone(Seen(g, w0), ch);
      }
      ReservedSame(g, w0, w0);
      if c < 2 {
        return true, 0;
      }
      var freed;
      ok, freed := FreeLinks(c, ch);
      k := freed;
      if !ok {
        return;
      }
      ghost var w1 := Now();
      if given {
        FreedCounts(Seen(g, w0), Seen(g, w1), ch, freed);
      }
      freeClusters := (freeClusters + freed) % U32_RANGE;
      if c < nextFree || nextFree < 2 {
        nextFree := c % U32_RANGE;
      }
      ok := WriteBarrier();
      ReservedKeptTransitive(g, w0, w1, Now());
      StepTransitive(g, w0, w1, Now());
      StepBounds(g, w0, w1);
      StepBounds(g, w1, Now());
    }

    /** The walk of fat32_free_chain. */
    method FreeLinks(c: nat, ghost ch: seq<nat>) returns (ok: bool, freed: nat)
      requires Valid() && 2 <= c
      modifies cache.slots, cache.table
      ensures Valid() && Step(g, old(Now()), Now()) && freed <= g.totalClusters && ReservedKept(g, old(Now()), Now())
      ensures ChainFrom(Seen(g, old(Now())).fat1, ch, c) && ok ==>
        1 <= freed <= |ch| && FreedFrom(Seen(g, old(Now())), Seen(g, Now()), ch, freed)
      ensures ChainFrom(Seen(g, old(Now())).fat1, ch, c) ==>
        cache.table.failures == old(cache.table.failures) ==> ok && freed == |ch|
    {
      hide Mounted, Coherent, ElsewhereSame, Fat1Within, KeepsClean, Abs, View, CountFree, FatWords, Merge28, ReservedKept, Recorded,
           SameShape, Quiet, Wrote, Step, Tracked, IsChain, FreedFrom, FreeAll, SetEntry;
      ghost var w0 := Now();
      VolumeBounds(g, w0);
      ghost var v0 := Seen(g, w0);
      ghost var given := ChainFrom(v0.fat1, ch, c);
      if given {
        FreeNone(v0, ch);
      }
      ReservedSame(g, w0, w0);
      var current := c;
      freed := 0;
      var safety := 0;
      while 2 <= current <= g.totalClusters + 1
        invariant Valid() && Step(g, w0, Now()) && ReservedKept(g, w0, Now())
        invariant safety == freed <= g.totalClusters
        invariant given ==> freed < |ch| && current == ch[freed] && g.InRange(current) && FreedFrom(v0, Seen(g, Now()), ch, freed)
        decreases g.totalClusters - safety
      {
        ghost var w1 := Now();
        VolumeBounds(g, w1);
        StepBounds(g, w0, w1);
        var next := ReadFat(current);
        ghost var w2 := Now();
        VolumeBounds(g, w2);
        QuietVolume(g, w1, w2);
        ReservedSame(g, w1, w2);
        ReservedKeptTransitive(g, w0, w1, w2);
        StepTransitive(g, w0, w1, w2);
        safety := safety + 1;
        if safety > g.totalClusters {
          return false, freed;
        }
        ok := WriteFat(current, FAT32_FREE);
        StepBounds(g, w2, Now());
        ReservedKeptTransitive(g, w0, w2, Now());
        StepTransitive(g, w0, w2, Now());
        if !ok {
          return false, freed;
        }
        if given {
          FreeNext(v0, Seen(g, w1), Seen(g, Now()), ch, freed);
        }
        freed := freed + 1;
        if IsEoc(next) || next == FAT32_BAD || next == FAT32_FREE {
          return true, freed;
        }
        current := next;
      }
      return true, freed;
    }

    /** fat32_get_nth_cluster on a chain. */
    method GetNth(start: nat, n: nat, ghost ch: seq<nat>) returns (r: nat)
      requires Valid()
      modifies cache.slots, cache.table
      ensures Valid() && Quiet(old(Now()), Now())
      ensures ChainFrom(Seen(g, old(Now())).fat1, ch, start) && cache.table.failures == old(cache.table.failures)
        ==> r == if n < |ch| then ch[n] else FAT32_BAD
      ensures ChainFrom(Seen(g, old(Now())).fat1, ch, start) && cache.table.failures != old(cache.table.failures) ==> r == FAT32_BAD
    {
      hide Mounted, Coherent, ElsewhereSame, Fat1Within, KeepsClean, Abs, View, CountFree, FatWords, Merge28, ReservedKept, Recorded;
      ghost var w0 := Now();
      VolumeBounds(g, w0);
      ghost var f := Seen(g, w0).fat1;
      ghost var given := ChainFrom(f, ch, start);
      if given {
        ChainFits(ch, |f|);
      }
      if start < 2 {
        return FAT32_BAD;
      }
      var current := start;
      var safety := 0;
      for i := 0 to n
        invariant Valid() && Quiet(w0, Now())
        invariant safety == i
        invariant given ==> cache.table.failures == w0.failures && i < |ch| && current == ch[i]
      {
        ghost var w1 := Now();
        VolumeBounds(g, w1);
        QuietVolume(g, w0, w1);
        safety := safety + 1;
        if safety > g.totalClusters {
          return FAT32_BAD;
        }
        if given {
          ChainStep(f, ch, i);
        }
        current := ReadFat(current);
        QuietTransitive(w0, w1, Now());
        if IsEoc(current) || current == FAT32_BAD || current == FAT32_FREE {
          return FAT32_BAD;
        }
      }
      return current;
    }

    /** fat32_read_cluster */
    method ReadCluster(c: nat) returns (ok: bool, buf: seq<Byte>)
      requires Valid()
      modifies cache.slots, cache.table
      ensures Valid() && Quiet(old(Now()), Now())
      ensures g.InRange(c) ==> (ok <==> cache.table.failures == old(cache.table.failures))
      ensures ok ==> g.InRange(c) && buf == Seen(g, old(Now())).data[c] && |buf| == g.BytesPerCluster()
      ensures !g.InRange(c) ==> !ok && Now() == old(Now())
    {
      hide Mounted, Coherent, ElsewhereSame, Fat1Within, KeepsClean, Abs, View, CountFree, FatWords, Merge28, ReservedKept, Recorded,
           SameShape, Quiet, Wrote, Step, Tracked, SectorBytes;
      ghost var w0 := Now();
      VolumeBounds(g, w0);
      if c < 2 || c > g.totalClusters + 1 {
        return false, [];
      }
      var lba := g.dataStart + (c - 2) * g.sectorsPerCluster;
      g.ClusterToLba(c);
      ClusterBounds(g, w0, c);
      ghost var img := View(w0, g.dev);
      NoBytes(img, lba);
      buf := [];
      for i := 0 to g.sectorsPerCluster
        invariant Valid() && Quiet(w0, Now())
        invariant cache.table.failures == w0.failures
        invariant buf == SectorBytes(img, lba, i)
      {
        ghost var w1 := Now();
        VolumeBounds(g, w1);
        var read, sector := cache.Read(g.dev, lba + i);
        QuietVolume(g, w1, Now());
        QuietTransitive(w0, w1, Now());
        if !read {
          return false, [];
        }
        LookupInView(w0, Now(), g.dev, lba + i);
        NextBytes(img, lba, i, sector);
        buf := buf + sector;
      }
      return true, buf;
    }

    /** One sector of cluster `c` written through the cache. */
    method WriteSector(ghost c: nat, lba: nat, sector: Sector) returns (ok: bool)
      requires Valid() && g.InRange(c) && g.ClusterLba(c) <= lba < g.ClusterLba(c) + g.sectorsPerCluster
      modifies cache.slots, cache.table
      ensures Valid() && Step(g, old(Now()), Now()) && KeepsClean(g, old(Now()), Now(), {c})
      ensures Fat1Within(g, old(Now()), Now(), Stored(g, old(Now())).fat1, Seen(g, old(Now())).fat1)
      ensures View(Now(), g.dev) == if ok then Put(View(old(Now()), g.dev), lba, sector) else View(old(Now()), g.dev)
      ensures ok <==> cache.table.failures == old(cache.table.failures)
    {
      ghost var w0 := Now();
      ok := cache.Write(g.dev, lba, sector);
      ghost var w1 := Now();
      if ok {
        WroteVolume(g, w0, w1, lba, sector);
        PutData(g, View(w0, g.dev), View(w1, g.dev), c);
        SettledKeepsClean(g, w0, w1, {c});
      } else {
        QuietVolume(g, w0, w1);
        KeepsLess(g, w0, w1, c);
      }
    }

    /** fat32_write_cluster */
    method WriteCluster(c: nat, buf: seq<Byte>) returns (ok: bool)
      requires Valid() && |buf| == g.BytesPerCluster()
      modifies cache.slots, cache.table
      ensures Valid() && Step(g, old(Now()), Now())
      ensures Fat1Within(g, old(Now()), Now(), Stored(g, old(Now())).fat1, Seen(g, old(Now())).fat1)
      ensures KeepsClean(g, old(Now()), Now(), {c})
      ensures g.InRange(c) ==> OnlyCluster(Seen(g, old(Now())), Seen(g, Now()), c)
      ensures g.InRange(c) ==> (ok <==> cache.table.failures == old(cache.table.failures))
      ensures ok ==> g.InRange(c) && Seen(g, Now()).data[c] == buf
      ensures !g.InRange(c) ==> !ok && Now() == old(Now())
    {
      hide Mounted, Coherent, ElsewhereSame, Fat1Within, KeepsClean, Abs, View, CountFree, FatWords, Merge28, ReservedKept, Recorded,
           SameShape, Quiet, Wrote, Step, Tracked, PutRun, HasView, OnlyCluster, SectorBytes, Seen, Stored, Filling;
      ghost var w0 := Now();
      VolumeBounds(g, w0);
      WithinSelf(g, w0);
      if c < 2 || c > g.totalClusters + 1 {
        return false;
      }
      var lba := g.dataStart + (c - 2) * g.sectorsPerCluster;
      g.ClusterToLba(c);
      FillStart(g, w0, c, buf);
      for i := 0 to g.sectorsPerCluster
        invariant Valid() && Filling(g, w0, Now(), c, buf, i)
      {
        ghost var w1 := Now();
        FillSector(buf, i, g);
        ok := WriteSector(c, lba + i, buf[i * BLOCK_SIZE..(i + 1) * BLOCK_SIZE]);
        if !ok {
          FillFailed(g, w0, w1, Now(), c, buf, i);
          return false;
        }
        FillNext(g, w0, w1, Now(), c, buf, i);
      }
      FillDone(g, w0, Now(), c, buf);
      return true;
    }
  }

  /** A cluster being written: its first `i` sectors are in place. */
  ghost predicate Filling(g: Geometry, w0: World, w: World, c: nat, buf: seq<Byte>, i: nat) {
    && Step(g, w0, w) && Fat1Within(g, w0, w, Stored(g, w0).fat1, Seen(g, w0).fat1) && KeepsClean(g, w0, w, {c})
    && w.failures == w0.failures && g.InRange(c) && |buf| == g.BytesPerCluster() && i <= g.sectorsPerCluster
    && g.ClusterLba(c) + g.sectorsPerCluster <= |View(w0, g.dev)|
    && HasView(w, g.dev, PutRun(View(w0, g.dev), g.ClusterLba(c), buf, i))
  }

  lemma FillSector(buf: seq<Byte>, i: nat, g: Geometry)
    requires |buf| == g.BytesPerCluster() && i < g.sectorsPerCluster
    ensures (i + 1) * BLOCK_SIZE <= |buf| && |buf[i * BLOCK_SIZE..(i + 1) * BLOCK_SIZE]| == BLOCK_SIZE
  {
  }

  lemma FillStart(g: Geometry, w0: World, c: nat, buf: seq<Byte>)
    requires Mounted(g, w0) && g.InRange(c) && |buf| == g.BytesPerCluster()
    ensures Filling(g, w0, w0, c, buf, 0)
  {
    hide Mounted, Coherent, ElsewhereSame, Fat1Within, KeepsClean, Abs, View, SectorBytes;
    VolumeBounds(g, w0);
    WithinSelf(g, w0);
    ClusterBounds(g, w0, c);
    FirstSector(w0, g.dev, g.ClusterLba(c), buf);
  }

  lemma FillNext(g: Geometry, w0: World, w1: World, w2: World, c: nat, buf: seq<Byte>, i: nat)
    requires Filling(g, w0, w1, c, buf, i) && i < g.sectorsPerCluster && (i + 1) * BLOCK_SIZE <= |buf|
    requires Step(g, w1, w2) && KeepsClean(g, w1, w2, {c}) && w2.failures == w1.failures
    requires Fat1Within(g, w1, w2, Stored(g, w1).fat1, Seen(g, w1).fat1)
    requires View(w2, g.dev) == Put(View(w1, g.dev), g.ClusterLba(c) + i, buf[i * BLOCK_SIZE..(i + 1) * BLOCK_SIZE])
    ensures Filling(g, w0, w2, c, buf, i + 1)
  {
    hide Mounted, Coherent, ElsewhereSame, Fat1Within, KeepsClean, Abs, View, SectorBytes, SameShape, Step, HasView, PutRun;
    StepBounds(g, w0, w1);
    StepBounds(g, w1, w2);
    VolumeBounds(g, w0);
    VolumeBounds(g, w2);
    RunSeen(g, w0, w1, c, buf, i);
    KeepsCleanTransitive(g, w0, w1, w2, {c}, {c}, {c});
    DataStep(g, w0, w1, w2);
    NextSector(w1, w2, g.dev, View(w0, g.dev), g.ClusterLba(c), buf, i);
  }

  lemma FillFailed(g: Geometry, w0: World, w1: World, w2: World, c: nat, buf: seq<Byte>, i: nat)
    requires Filling(g, w0, w1, c, buf, i) && Step(g, w1, w2) && KeepsClean(g, w1, w2, {c})
    requires Fat1Within(g, w1, w2, Stored(g, w1).fat1, Seen(g, w1).fat1)
    requires View(w2, g.dev) == View(w1, g.dev) && w2.failures != w1.failures
    ensures Step(g, w0, w2) && Fat1Within(g, w0, w2, Stored(g, w0).fat1, Seen(g, w0).fat1) && KeepsClean(g, w0, w2, {c})
    ensures OnlyCluster(Seen(g, w0), Seen(g, w2), c) && w2.failures != w0.failures
  {
    hide Mounted, Coherent, ElsewhereSame, Fat1Within, KeepsClean, Abs, View, SectorBytes, SameShape, Step, HasView, PutRun, OnlyCluster;
    StepBounds(g, w0, w1);
    StepBounds(g, w1, w2);
    RunSeen(g, w0, w1, c, buf, i);
    KeepsCleanTransitive(g, w0, w1, w2, {c}, {c}, {c});
    DataStep(g, w0, w1, w2);
    RunSeenSame(g, w0, w1, w2, c);
  }

  lemma FillDone(g: Geometry, w0: World, w: World, c: nat, buf: seq<Byte>)
    requires Filling(g, w0, w, c, buf, g.sectorsPerCluster)
    ensures Step(g, w0, w) && Fat1Within(g, w0, w, Stored(g, w0).fat1, Seen(g, w0).fat1) && KeepsClean(g, w0, w, {c})
    ensures OnlyCluster(Seen(g, w0), Seen(g, w), c) && Seen(g, w).data[c] == buf && w.failures == w0.failures
  {
    hide Mounted, Coherent, ElsewhereSame, Fat1Within, KeepsClean, Abs, View, SectorBytes, SameShape, Step, HasView, PutRun, OnlyCluster;
    StepBounds(g, w0, w);
    RunSeen(g, w0, w, c, buf, g.sectorsPerCluster);
  }

  lemma CountNone(f: seq<Word>)
    requires 2 <= |f|
    ensures CountFree(f, 2) == 0
  {
  }

  lemma CountNext(f: seq<Word>, n: nat)
    requires 2 <= n < |f|
    ensures CountFree(f, n + 1) == CountFree(f, n) + if Entry(f, n) == FAT32_FREE then 1 else 0
  {
  }

  /** `v1` is `v0` with the first `k` clusters of `ch` freed. */
  ghost predicate FreedFrom(v0: FatImage, v1: FatImage, ch: seq<nat>, k: nat)
    requires |v0.fat1| == |v0.fat2| && IsChain(v0.fat1, ch) && k <= |ch|
  {
    v1 == FreeAll(v0, ch[..k])
  }

  lemma FreeNext(v0: FatImage, v1: FatImage, v2: FatImage, ch: seq<nat>, k: nat)
    requires |v0.fat1| == |v0.fat2| && IsChain(v0.fat1, ch) && k < |ch|
    requires FreedFrom(v0, v1, ch, k) && v2 == SetEntry(v1, ch[k], FAT32_FREE)
    ensures FreedFrom(v0, v2, ch, k + 1)
    ensures if k < |ch| - 1 then Entry(v1.fat1, ch[k]) == ch[k + 1] && 2 <= ch[k + 1] < |v0.fat1|
            else IsEoc(Entry(v1.fat1, ch[k]))
  {
    assert ch[..k + 1][..k] == ch[..k];
    assert ch[k] !in ch[..k];
    ChainStep(v0.fat1, ch, k);
  }

  lemma FreedCounts(v0: FatImage, v1: FatImage, ch: seq<nat>, k: nat)
    requires |v0.fat1| == |v0.fat2| < U32_RANGE && IsChain(v0.fat1, ch) && k <= |ch|
    requires FreedFrom(v0, v1, ch, k)
    ensures FreeCount(v1.fat1) == FreeCount(v0.fat1) + k < U32_RANGE
  {
    FreeAllCounts(v0, ch, k);
    CountBound(v1.fat1, |v1.fat1|);
  }

  lemma FreeNone(v: FatImage, ch: seq<nat>)
    requires |v.fat1| == |v.fat2| && IsChain(v.fat1, ch)
    ensures |ch| > 0 && 2 <= ch[0] < |v.fat1| && FreedFrom(v, v, ch, 0) && |ch| <= |v.fat1| - 2
  {
    ChainFits(ch, |v.fat1|);
  }

  lemma ClusterBounds(g: Geometry, w: World, c: nat)
    requires Mounted(g, w) && g.InRange(c)
    ensures g.ClusterLba(c) + g.sectorsPerCluster <= |View(w, g.dev)|
    ensures g.Fits(|View(w, g.dev)|)
    ensures Seen(g, w).data[c] == SectorBytes(View(w, g.dev), g.ClusterLba(c), g.sectorsPerCluster)
  {
    ClusterOnDevice(g, |View(w, g.dev)|, c);
  }

  lemma LookupInView(w0: World, w1: World, d: nat, l: nat)
    requires Quiet(w0, w1) && d < |w0.disks| && l < |w0.disks[d]|
    ensures Lookup(w1, d, l) == Some(View(w0, d)[l])
  {
    assert Lookup(w1, d, l) == Lookup(w0, d, l);
  }

  ghost predicate HasView(w: World, d: nat, img: Disk) {
    |w.slots| == CACHE_BLOCKS && d < |w.disks| && View(w, d) == img
  }

  lemma NoBytes(img: Disk, lba: nat)
    requires lba <= |img|
    ensures SectorBytes(img, lba, 0) == []
  {
  }

  lemma NextBytes(img: Disk, lba: nat, i: nat, s: Sector)
    requires lba + i + 1 <= |img| && img[lba + i] == s
    ensures SectorBytes(img, lba, i + 1) == SectorBytes(img, lba, i) + s
  {
  }

  lemma FirstSector(w: World, d: nat, lba: nat, buf: seq<Byte>)
    requires |w.slots| == CACHE_BLOCKS && d < |w.disks| && lba <= |View(w, d)|
    ensures HasView(w, d, PutRun(View(w, d), lba, buf, 0))
  {
  }

  lemma NextSector(w1: World, w2: World, d: nat, img: Disk, lba: nat, buf: seq<Byte>, i: nat)
    requires lba + i + 1 <= |img| && (i + 1) * BLOCK_SIZE <= |buf|
    requires HasView(w1, d, PutRun(img, lba, buf, i)) && |w2.slots| == CACHE_BLOCKS && d < |w2.disks|
    requires View(w2, d) == Put(View(w1, d), lba + i, buf[i * BLOCK_SIZE..(i + 1) * BLOCK_SIZE])
    ensures HasView(w2, d, PutRun(img, lba, buf, i + 1))
  {
  }

  lemma KeepsLess(g: Geometry, w0: World, w1: World, c: nat)
    requires Mounted(g, w0) && Mounted(g, w1) && KeepsClean(g, w0, w1, {})
    ensures KeepsClean(g, w0, w1, {c})
  {
  }

  lemma RunSeenSame(g: Geometry, w0: World, w1: World, w2: World, c: nat)
    requires Mounted(g, w0) && Mounted(g, w1) && Mounted(g, w2) && View(w2, g.dev) == View(w1, g.dev)
    requires OnlyCluster(Seen(g, w0), Seen(g, w1), c)
    ensures OnlyCluster(Seen(g, w0), Seen(g, w2), c)
  {
  }

  lemma WithinSelf(g: Geometry, w: World)
    requires Mounted(g, w)
    ensures forall t: set<nat> :: KeepsClean(g, w, w, t)
    ensures Fat1Within(g, w, w, Stored(g, w).fat1, Seen(g, w).fat1)
  {
  }

  lemma RunSeen(g: Geometry, w0: World, w1: World, c: nat, buf: seq<Byte>, n: nat)
    requires Mounted(g, w0) && Mounted(g, w1) && g.InRange(c) && |w0.disks[g.dev]| == |w1.disks[g.dev]|
    requires |buf| == g.BytesPerCluster() && n <= g.sectorsPerCluster
    requires g.ClusterLba(c) + g.sectorsPerCluster <= |View(w0, g.dev)|
    requires HasView(w1, g.dev, PutRun(View(w0, g.dev), g.ClusterLba(c), buf, n))
    ensures OnlyCluster(Seen(g, w0), Seen(g, w1), c)
    ensures n == g.sectorsPerCluster ==> Seen(g, w1).data[c] == buf
  {
    PutRunCluster(g, View(w0, g.dev), c, buf, n);
  }

  /** One more sector write in the data region. */
  lemma DataStep(g: Geometry, w0: World, w1: World, w2: World)
    requires Step(g, w0, w1) && Step(g, w1, w2) && Seen(g, w1).fat1 == Seen(g, w0).fat1
    requires Fat1Within(g, w0, w1, Stored(g, w0).fat1, Seen(g, w0).fat1)
    requires Fat1Within(g, w1, w2, Stored(g, w1).fat1, Seen(g, w1).fat1)
    ensures Step(g, w0, w2) && Fat1Within(g, w0, w2, Stored(g, w0).fat1, Seen(g, w0).fat1)
  {
    StepTransitive(g, w0, w1, w2);
    WithinTransitive(g, w0, w1, w2, Stored(g, w0).fat1, Seen(g, w0).fat1, Stored(g, w1).fat1, Seen(g, w1).fat1);
  }

  /** A step that leaves the first FAT as seen, then a tracked one. */
  lemma TrackedTransitive(g: Geometry, w0: World, w1: World, w2: World)
    requires Step(g, w0, w1) && Step(g, w1, w2) && Tracked(g, w0, w1) && Tracked(g, w1, w2)
    requires Seen(g, w1).fat1 == Seen(g, w0).fat1
    ensures Tracked(g, w0, w2)
  {
    var f := Seen(g, w0).fat1;
    if Stored(g, w0).fat1 == f {
      assert Stored(g, w1).fat1 == f;
      WithinTransitive(g, w0, w1, w2, f, Seen(g, w2).fat1, f, Seen(g, w2).fat1);
    }
  }

  /** A tracked step, then one that leaves the first FAT as seen. */
  lemma TrackedThenFlushed(g: Geometry, w0: World, w1: World, w2: World)
    requires Step(g, w0, w1) && Step(g, w1, w2) && Tracked(g, w0, w1)
    requires Fat1Within(g, w1, w2, Stored(g, w1).fat1, Seen(g, w1).fat1) && Seen(g, w2).fat1 == Seen(g, w1).fat1
    ensures Tracked(g, w0, w2)
  {
    var f0, f1 := Seen(g, w0).fat1, Seen(g, w1).fat1;
    if Stored(g, w0).fat1 == f0 {
      WithinTransitive(g, w0, w1, w2, f0, f1, Stored(g, w1).fat1, f1);
    }
  }

  /** The first free cluster in circular order from the allocator's hint. */
  function NextToTake(g: Geometry, f: seq<Word>, next: Word): nat {
    if 1 <= g.totalClusters && |f| == g.totalClusters + 2 then ScanFree(f, SearchStart(g, next), g.totalClusters) else FAT32_BAD
  }

  /** Where the circular search begins. */
  function SearchStart(g: Geometry, next: Word): (c: nat) {
    if next < 2 || next > g.totalClusters + 1 then 2 else next
  }

  /** The allocator takes the first free cluster on the circle from its hint, or from 2 if the hint
      names no cluster, and finds none exactly when none is free. */
  lemma NextIsFirst(g: Geometry, f: seq<Word>, next: Word, from: nat) returns (j: nat)
    requires 1 <= g.totalClusters && |f| == g.totalClusters + 2 <= FAT32_BAD
    requires from == if 2 <= next <= g.totalClusters + 1 then next else 2
    ensures NextToTake(g, f, next) == FAT32_BAD <==> FreeCount(f) == 0
    ensures FreeCount(f) != 0 ==>
      && j < g.totalClusters && NextToTake(g, f, next) == Nth(from, j, |f|)
      && forall i: nat :: i < j ==> Entry(f, Nth(from, i, |f|)) != FAT32_FREE
  {
    hide ScanFree, CountFree, Nth;
    ScanFindsAny(f, SearchStart(g, next));
    j := 0;
    if NextToTake(g, f, next) != FAT32_BAD {
      j := ScanIsFirst(f, SearchStart(g, next), g.totalClusters);
    }
  }

  /** Nothing changed, or one free entry was marked end-of-chain in the first FAT and perhaps in both. */
  ghost predicate MaybeMarked(v0: FatImage, v1: FatImage)
    requires |v0.fat1| == |v0.fat2|
  {
    || v1 == v0
    || exists c :: 2 <= c < |v0.fat1| && Entry(v0.fat1, c) == FAT32_FREE
         && (v1 == SetFirst(v0, c, FAT32_EOC) || v1 == SetEntry(v0, c, FAT32_EOC))
  }

  const LEAD_SIG: Word := 0x4161_5252
  const STRUCT_SIG: Word := 0x6141_7272
  const TRAIL_SIG: Word := 0xAA55_0000
  const LEAD_SIG_AT: nat := 0
  const STRUCT_SIG_AT: nat := 484
  const FREE_COUNT_AT: nat := 488
  const NEXT_FREE_AT: nat := 492
  const TRAIL_SIG_AT: nat := 508

  /** The two signatures that fat32_update_fsinfo insists on. */
  predicate IsFsInfo(s: Sector) {
    Load32(s, LEAD_SIG_AT) == LEAD_SIG && Load32(s, STRUCT_SIG_AT) == STRUCT_SIG
  }

  predicate HoldsCounts(s: Sector, free: Word, next: Word) {
    IsFsInfo(s) && Load32(s, FREE_COUNT_AT) == free && Load32(s, NEXT_FREE_AT) == next
  }

  /** The third signature, which fat32_mount insists on as well. */
  predicate Trailed(s: Sector) { Load32(s, TRAIL_SIG_AT) == TRAIL_SIG }

  /** Both FSInfo sectors on the device hold the signatures and these counters. */
  ghost predicate Recorded(g: Geometry, w: World, free: Word, next: Word)
    requires Mounted(g, w)
  {
    var d := w.disks[g.dev];
    HoldsCounts(d[g.fsInfoSector], free, next) && HoldsCounts(d[g.backupBootSector + 1], free, next)
  }

  /** The reserved sectors other than FSInfo look as before, and a signed FSInfo sector keeps its third
      signature. */
  ghost predicate ReservedKept(g: Geometry, w0: World, w1: World)
    requires Mounted(g, w0) && Mounted(g, w1)
  {
    var v0, v1 := View(w0, g.dev), View(w1, g.dev);
    && |v0| == |v1|
    && (forall l :: 0 <= l < g.fatStart && l != g.fsInfoSector && l != g.backupBootSector + 1 ==> v1[l] == v0[l])
    && (SignedWhole(v0[g.fsInfoSector]) ==> SignedWhole(v1[g.fsInfoSector]))
  }

  /** A view after the FSInfo sector, and perhaps its backup, was replaced, or neither. */
  ghost predicate InfoPut(g: Geometry, v0: Disk, v1: Disk, sector: Sector) {
    v1 == v0 || v1 == Put(v0, g.fsInfoSector, sector) || v1 == Put(Put(v0, g.fsInfoSector, sector), g.backupBootSector + 1, sector)
  }

  lemma ReservedStamped(g: Geometry, w0: World, w1: World, sector: Sector)
    requires Mounted(g, w0) && Mounted(g, w1) && InfoPut(g, View(w0, g.dev), View(w1, g.dev), sector)
    requires SignedWhole(View(w0, g.dev)[g.fsInfoSector]) ==> Trailed(sector)
    ensures ReservedKept(g, w0, w1)
  {
  }

  /** All three signatures, or too few for fat32_update_fsinfo, which then writes all three. */
  predicate SignedWhole(s: Sector) { IsFsInfo(s) ==> Trailed(s) }

  lemma ReservedSame(g: Geometry, w0: World, w1: World)
    requires Mounted(g, w0) && Mounted(g, w1) && |View(w1, g.dev)| == |View(w0, g.dev)|
    requires forall l :: 0 <= l < g.fatStart ==> View(w1, g.dev)[l] == View(w0, g.dev)[l]
    ensures ReservedKept(g, w0, w1)
  {
  }

  lemma ReservedPut(g: Geometry, w0: World, w1: World, lba: nat)
    requires Mounted(g, w0) && Mounted(g, w1) && g.fatStart <= lba
    requires View(w1, g.dev) == View(w0, g.dev) || exists s :: View(w1, g.dev) == Put(View(w0, g.dev), lba, s)
    ensures ReservedKept(g, w0, w1)
  {
  }

  lemma ReservedKeptTransitive(g: Geometry, w0: World, w1: World, w2: World)
    requires Mounted(g, w0) && Mounted(g, w1) && Mounted(g, w2)
    requires ReservedKept(g, w0, w1) && ReservedKept(g, w1, w2)
    ensures ReservedKept(g, w0, w2)
  {
    hide Mounted, View;
  }

  /** The FSInfo sector with both counters replaced, re-signed first if its signatures are wrong. */
  function WithCounts(s: Sector, free: Word, next: Word): Sector {
    var base := if IsFsInfo(s) then s else
      Store32(Store32(Store32(ZeroSector(), 0, LEAD_SIG), STRUCT_SIG_AT, STRUCT_SIG), TRAIL_SIG_AT, TRAIL_SIG);
    Store32(Store32(base, FREE_COUNT_AT, free), NEXT_FREE_AT, next)
  }

  lemma CountsAreStored(s: Sector, free: Word, next: Word)
    ensures var r := WithCounts(s, free, next);
      && HoldsCounts(r, free, next)
      && Load32(r, TRAIL_SIG_AT) == if IsFsInfo(s) then Load32(s, TRAIL_SIG_AT) else TRAIL_SIG
  {
    var lead := Store32(ZeroSector(), 0, LEAD_SIG);
    var both := Store32(lead, STRUCT_SIG_AT, STRUCT_SIG);
    KeepsOthers(lead, STRUCT_SIG_AT / 4, STRUCT_SIG);
    KeepsOthers(both, TRAIL_SIG_AT / 4, TRAIL_SIG);
    var base := if IsFsInfo(s) then s else Store32(both, TRAIL_SIG_AT, TRAIL_SIG);
    KeepsOthers(base, FREE_COUNT_AT / 4, free);
    KeepsOthers(Store32(base, FREE_COUNT_AT, free), NEXT_FREE_AT / 4, next);
    assert LEAD_SIG_AT == 4 * 0 && STRUCT_SIG_AT == 4 * 121 && FREE_COUNT_AT == 4 * 122;
  }

  lemma KeepsOthers(s: Sector, a: nat, v: Word)
    requires a < 128
    ensures forall b :: 0 <= b < 128 && b != a ==> Load32(Store32(s, 4 * a, v), 4 * b) == Load32(s, 4 * b)
  {
    forall b | 0 <= b < 128 && b != a ensures Load32(Store32(s, 4 * a, v), 4 * b) == Load32(s, 4 * b) {
      StoredWord(s, a, v, b);
    }
  }

  /** With the device untouched, its first FAT stands still. */
  lemma SameStored(g: Geometry, w0: World, w1: World)
    requires Mounted(g, w0) && Mounted(g, w1) && w1.disks == w0.disks && w1.history == w0.history
    ensures Fat1Within(g, w0, w1, Stored(g, w0).fat1, Stored(g, w0).fat1)
  {
  }

  lemma ReservedTransitive(g: Geometry, w0: World, w1: World, w2: World)
    requires Step(g, w0, w1) && Step(g, w1, w2)
    requires Fat1Within(g, w0, w1, Stored(g, w0).fat1, Stored(g, w0).fat1)
    requires Fat1Within(g, w1, w2, Stored(g, w1).fat1, Stored(g, w1).fat1)
    ensures Step(g, w0, w2) && Fat1Within(g, w0, w2, Stored(g, w0).fat1, Stored(g, w0).fat1)
  {
    var f := Stored(g, w0).fat1;
    StepTransitive(g, w0, w1, w2);
    assert Stored(g, w1).fat1 == f;
    WithinTransitive(g, w0, w1, w2, f, f, f, f);
  }

  /** Entry `c` set in the first copy only, as a failing transfer can leave it. */
  function SetFirst(v: FatImage, c: nat, value: nat): FatImage
    requires c < |v.fat1| == |v.fat2|
  {
    v.(fat1 := SetEntry(v, c, value).fat1)
  }

  /** Entries of the first FAT reach the device in order when FAT1 is written before FAT2. */
  lemma FirstThenSecond(g: Geometry, w0: World, w1: World, w2: World, c: nat, value: nat)
    requires Step(g, w0, w1) && Step(g, w1, w2) && g.InRange(c)
    requires Seen(g, w1) == SetFirst(Seen(g, w0), c, value) && Seen(g, w2).fat1 == Seen(g, w1).fat1
    requires Fat1Within(g, w0, w1, Stored(g, w0).fat1, Seen(g, w0).fat1)
    requires Fat1Within(g, w1, w2, Stored(g, w1).fat1, Seen(g, w1).fat1)
    ensures Step(g, w0, w2) && Tracked(g, w0, w2)
  {
    StepTransitive(g, w0, w1, w2);
    var f0, f1 := Seen(g, w0).fat1, Seen(g, w1).fat1;
    if Stored(g, w0).fat1 == f0 {
      WithinTransitive(g, w1, w1, w2, f0, f1, Stored(g, w1).fat1, f1);
      WithinTransitive(g, w0, w1, w2, f0, f1, Stored(g, w1).fat1, f1);
    }
  }
}
