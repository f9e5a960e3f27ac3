/** The operations that change a directory: fat32_dir_create_entry for 8.3 names,
    fat32_dir_mark_deleted, fat32_update_dir_entry. */
module DirWrite {
  import opened Arithmetic
  import opened Blocks
  import opened SectorCache
  import opened FatTable
  import opened VolumeState
  import opened Chains
  import opened FileBytes
  import opened Fat32
  import opened WriteOrder
  import opened ChainIO
  import opened ShortNames
  import opened DirSlots
  import opened Directory

  /** A piece of one directory sector replaced and flushed to the device. */
  method StoreInSector(vol: Volume, lba: nat, at: nat, piece: seq<Byte>, ghost c: nat, ghost s: nat) returns (ok: bool)
    requires vol.Valid() && vol.g.InRange(c) && s < vol.g.sectorsPerCluster && lba == vol.g.ClusterLba(c) + s
    requires at + |piece| <= BLOCK_SIZE
    modifies vol.cache.slots, vol.cache.table
    ensures vol.Valid() && Step(vol.g, old(vol.Now()), vol.Now())
    ensures |Seen(vol.g, old(vol.Now())).data[c]| == vol.g.BytesPerCluster() && BLOCK_SIZE * s + at + |piece| <= vol.g.BytesPerCluster()
    ensures ok ==> Seen(vol.g, vol.Now()) == WithSlice(Seen(vol.g, old(vol.Now())), c, BLOCK_SIZE * s + at, piece)
    ensures ok ==> Clean(vol.Now(), vol.g.dev) && Stored(vol.g, vol.Now()) == Seen(vol.g, vol.Now())
    ensures Seen(vol.g, vol.Now()).fat1 == Seen(vol.g, old(vol.Now())).fat1
    ensures !ok ==>
      || Seen(vol.g, vol.Now()) == Seen(vol.g, old(vol.Now()))
      || Seen(vol.g, vol.Now()) == WithSlice(Seen(vol.g, old(vol.Now())), c, BLOCK_SIZE * s + at, piece)
    ensures ok <==> vol.cache.table.failures == old(vol.cache.table.failures)
    ensures old(Ordered(vol.g, vol.Now())) ==> CrashSafe(vol.g, old(vol.Now()), vol.Now()) && Ordered(vol.g, vol.Now())
  {
    hide Mounted, Coherent, ElsewhereSame, Fat1Within, KeepsClean, Abs, FatWords, SameShape, Quiet, Wrote, Step,
         SectorBytes, View, NoDangling, CrashSafe;
    var g := vol.g;
    ghost var w0 := vol.Now();
    VolumeBounds(g, w0);
    ok := PatchSector(vol, lba, at, piece, c, s);
    ghost var w1 := vol.Now();
    VolumeBounds(g, w1);
    StepBounds(g, w0, w1);
    if Ordered(g, w0) {
      DataIsCrashSafe(g, w0, w1);
    }
    if !ok {
      return;
    }
    ok := vol.cache.Flush(g.dev);
    ghost var w2 := vol.Now();
    QuietVolume(g, w1, w2);
    QuietIsCrashSafe(g, w1, w2);
    StepTransitive(g, w0, w1, w2);
    if Ordered(g, w0) {
      CrashSafeTransitive(g, w0, w1, w2);
    }
    if ok {
      FlushedStored(g, w2);
    }
  }

  /** Where the loop stands once a link could not be read: at a cluster it has just appended. */
  ghost predicate Appended(g: Geometry, w: World, cluster: nat) {
    Mounted(g, w) && g.InRange(cluster) && IsEoc(Entry(Seen(g, w).fat1, cluster))
  }

  /** Either on the directory's chain, or lost after a failed transfer. */
  ghost predicate Standing(lost: bool, j: Job, slots0: seq<Slot32>, g: Geometry, w: World, dcur: seq<nat>, start: nat,
                           i: nat, cluster: nat) {
    if lost then Appended(g, w, cluster) else DirState(j, slots0, g, w, dcur, start, i, cluster)
  }

  lemma StandingFacts(lost: bool, j: Job, slots0: seq<Slot32>, g: Geometry, w: World, dcur: seq<nat>, start: nat, i: nat, cluster: nat)
    requires Standing(lost, j, slots0, g, w, dcur, start, i, cluster)
    ensures Mounted(g, w) && g.InRange(cluster) && Entry(Seen(g, w).fat1, cluster) != FAT32_FREE
    ensures !lost ==> IsChain(Seen(g, w).fat1, dcur) && i < |dcur| <= g.totalClusters
    ensures !lost ==> ClusterOf(g, w, dcur, Entries(g, w, dcur), i, cluster) && FullTo(Entries(g, w, dcur), PER_SECTOR * g.Span(i))
  {
    hide Abs, Coherent;
    if !lost {
      DirStateFacts(j, slots0, g, w, dcur, start, i, cluster);
      VolumeBounds(g, w);
      ChainStep(Seen(g, w).fat1, dcur, i);
    }
  }

  lemma StandingKept(lost: bool, j: Job, slots0: seq<Slot32>, g: Geometry, w0: World, w1: World, dcur: seq<nat>, start: nat,
                     i: nat, cluster: nat)
    requires Standing(lost, j, slots0, g, w0, dcur, start, i, cluster) && Mounted(g, w1) && Seen(g, w1) == Seen(g, w0)
    ensures Standing(lost, j, slots0, g, w1, dcur, start, i, cluster)
    ensures !lost ==> IsChain(Seen(g, w0).fat1, dcur) && Entries(g, w1, dcur) == Entries(g, w0, dcur)
  {
    if !lost {
      DirStateKept(j, slots0, g, w0, w1, dcur, start, i, cluster);
    }
  }

  lemma LinkedEnds(v: FatImage, cur: nat, added: nat, m: nat)
    requires |v.fat1| == |v.fat2| == |v.data| && 2 <= cur < |v.fat1| && 2 <= added < |v.fat1|
    requires Entry(v.fat1, cur) != FAT32_FREE && Entry(v.fat1, added) == FAT32_FREE
    ensures IsEoc(Entry(Linked(v, cur, added, m).fat1, added))
  {
  }

  /** The cluster behind `cluster` in a directory that has no room up to it: the next link, or a
      new zeroed cluster. A link that cannot be read is taken for the end. */
  method NextForRoom(vol: Volume, cluster: nat, ghost lost0: bool, ghost j: Job, ghost slots0: seq<Slot32>,
                     ghost dcur: seq<nat>, ghost start: nat, ghost i: nat)
    returns (ok: bool, next: nat, ghost lost: bool, ghost dcur1: seq<nat>)
    requires vol.Valid() && Standing(lost0, j, slots0, vol.g, vol.Now(), dcur, start, i, cluster)
    requires lost0 || FullTo(Entries(vol.g, vol.Now(), dcur), PER_SECTOR * vol.g.Span(i + 1))
    modifies vol`freeClusters, vol`nextFree, vol.cache.slots, vol.cache.table
    ensures vol.Valid() && Step(vol.g, old(vol.Now()), vol.Now())
    ensures ok ==> Standing(lost, j, slots0, vol.g, vol.Now(), dcur1, start, i + 1, next)
    ensures lost0 ==> lost
    ensures !lost0 && vol.cache.table.failures == old(vol.cache.table.failures) ==>
      && !lost
      && (!ok ==> FirstFree(slots0) == Pass && FreeCount(j.v0.fat1) == 0)
      && (old(vol.Exact()) ==> vol.Exact())
      && (Quiet(old(vol.Now()), vol.Now()) || (ok && FreeCount(Seen(vol.g, old(vol.Now())).fat1) != 0))
    ensures old(Ordered(vol.g, vol.Now())) ==>
      CrashSafe(vol.g, old(vol.Now()), vol.Now()) && (ok ==> Ordered(vol.g, vol.Now()))
  {
    hide Mounted, Coherent, ElsewhereSame, Fat1Within, KeepsClean, Abs, FatWords, SameShape, Quiet, Wrote, Step,
         SectorBytes, View, NoDangling, CrashSafe, DirState, Linked, FullTo, CountFree, Entries, ClusterOf,
         IsChain;
    var g := vol.g;
    ghost var w0 := vol.Now();
    ghost var v0 := Seen(g, w0);
    VolumeBounds(g, w0);
    StandingFacts(lost0, j, slots0, g, w0, dcur, start, i, cluster);
    if !lost0 {
      DirFull(j, slots0, g, w0, dcur, start, i, cluster);
      DirStateFacts(j, slots0, g, w0, dcur, start, i, cluster);
    }
    next := vol.ReadFat(cluster);
    ghost var w1 := vol.Now();
    VolumeBounds(g, w1);
    QuietVolume(g, w0, w1);
    QuietIsCrashSafe(g, w0, w1);
    lost, dcur1 := lost0 || w1.failures != w0.failures, dcur;
    if !IsEoc(next) && next != FAT32_FREE && next != FAT32_BAD {
      ok := true;
      DirStateKept(j, slots0, g, w0, w1, dcur, start, i + 1, next);
      return;
    }
    var added;
    ok, added := Extend(vol, cluster);
    ghost var w2 := vol.Now();
    StepTransitive(g, w0, w1, w2);
    StepBounds(g, w1, w2);
    if Ordered(g, w0) {
      CrashSafeTransitive(g, w0, w1, w2);
    }
    if w2.failures == w0.failures && !ok {
      QuietTransitive(w0, w1, w2);
    }
    if ok {
      next := added;
      LinkedEnds(v0, cluster, added, g.BytesPerCluster());
      if !lost {
        DirExtended(j, slots0, g, w0, w2, dcur, start, i, cluster, added);
        dcur1 := dcur + [added];
      }
    }
  }

  /** The entry written where room was found. */
  method PlaceEntry(vol: Volume, lba: nat, off: nat, entry: Slot32, ghost lost: bool, ghost j: Job, ghost slots0: seq<Slot32>,
                    ghost dcur: seq<nat>, ghost start: nat, ghost i: nat, ghost cluster: nat, ghost k: nat, ghost s: nat) returns (ok: bool)
    requires vol.Valid() && Standing(lost, j, slots0, vol.g, vol.Now(), dcur, start, i, cluster)
    requires s < vol.g.sectorsPerCluster && 2 <= cluster && lba == vol.g.ClusterLba(cluster) + s && off + ENTRY_SIZE <= BLOCK_SIZE
    requires !lost ==> IsChain(Seen(vol.g, vol.Now()).fat1, dcur)
    requires !lost ==>
      FirstFree(Entries(vol.g, vol.Now(), dcur)) == Hit(k) && EntryPlaced(vol.g, dcur, k, lba, off, i, s)
    modifies vol.cache.slots, vol.cache.table
    ensures vol.Valid() && Step(vol.g, old(vol.Now()), vol.Now())
    ensures Seen(vol.g, vol.Now()).fat1 == Seen(vol.g, old(vol.Now())).fat1
    ensures ok && !lost ==> Created(vol.g, j.v0, Seen(vol.g, vol.Now()), slots0, j.ch0, dcur, start, entry, k)
    ensures ok && !lost ==> FirstFree(slots0).Hit? || FreeCount(j.v0.fat1) != 0
    ensures ok ==> Clean(vol.Now(), vol.g.dev) && Stored(vol.g, vol.Now()) == Seen(vol.g, vol.Now())
    ensures ok <==> vol.cache.table.failures == old(vol.cache.table.failures)
    ensures old(Ordered(vol.g, vol.Now())) ==> CrashSafe(vol.g, old(vol.Now()), vol.Now()) && Ordered(vol.g, vol.Now())
  {
    hide Mounted, Coherent, ElsewhereSame, Fat1Within, KeepsClean, Abs, FatWords, SameShape, Quiet, Wrote, Step, SectorBytes, View,
         NoDangling, CrashSafe, Standing, FullTo, CountFree, Entries, IsChain, Created, WithSlice, FirstFree, EntryPlaced;
    ghost var w0 := vol.Now();
    StandingFacts(lost, j, slots0, vol.g, w0, dcur, start, i, cluster);
    ok := StoreInSector(vol, lba, off, entry, cluster, s);
    if ok && !lost {
      StandingDone(j, slots0, vol.g, w0, vol.Now(), dcur, start, i, cluster, k, lba, off, s, entry);
    }
  }

  /** fat32_dir_create_entry for an entry without a long name. */
  method DirCreate(vol: Volume, dirCluster: nat, entry: Slot32, ghost dch: seq<nat>)
    returns (ok: bool, lba: nat, off: nat, ghost dch1: seq<nat>, ghost k: nat, ghost i: nat, ghost s: nat)
    requires vol.Valid() && (dirCluster >= 2 ==> IsDir(vol.g, vol.Now(), dch, dirCluster))
    modifies vol`freeClusters, vol`nextFree, vol.cache.slots, vol.cache.table
    ensures vol.Valid() && Step(vol.g, old(vol.Now()), vol.Now())
    ensures dirCluster < 2 ==> !ok && vol.Now() == old(vol.Now())
    ensures dirCluster >= 2 && vol.cache.table.failures == old(vol.cache.table.failures) ==>
      && (ok <==> FirstFree(old(Entries(vol.g, vol.Now(), dch))).Hit? || FreeCount(Seen(vol.g, old(vol.Now())).fat1) != 0)
      && (ok ==>
            && Created(vol.g, Seen(vol.g, old(vol.Now())), Seen(vol.g, vol.Now()), old(Entries(vol.g, vol.Now(), dch)),
                       dch, dch1, dirCluster, entry, k)
            && EntryPlaced(vol.g, dch1, k, lba, off, i, s))
      && (old(vol.Exact()) ==> vol.Exact())
      && (!ok ==> Quiet(old(vol.Now()), vol.Now()))
    ensures ok ==> Clean(vol.Now(), vol.g.dev) && Stored(vol.g, vol.Now()) == Seen(vol.g, vol.Now())
    ensures old(Ordered(vol.g, vol.Now())) ==>
      CrashSafe(vol.g, old(vol.Now()), vol.Now()) && (ok ==> Ordered(vol.g, vol.Now()))
  {
    hide Mounted, Coherent, ElsewhereSame, Abs, SameShape, Step, View, NoDangling, CrashSafe, Entries, Created, FirstFree, IsChain, CountFree;
    VolumeBounds(vol.g, vol.Now());
    CrashSafeSelf(vol.g, vol.Now());
    if dirCluster < 2 {
      return false, 0, 0, dch, 0, 0, 0;
    }
    ok, lba, off, dch1, k, i, s := CreateIn(vol, dirCluster, entry, dch);
  }

  /** The search for a free entry in one cluster: nothing seen changes. */
  method LookForRoom(vol: Volume, cluster: nat, ghost lost: bool, ghost j: Job, ghost slots0: seq<Slot32>, ghost dcur: seq<nat>,
                     ghost start: nat, ghost i: nat)
    returns (room: Room32, ghost k: nat, ghost s: nat)
    requires vol.Valid() && Standing(lost, j, slots0, vol.g, vol.Now(), dcur, start, i, cluster)
    modifies vol.cache.slots, vol.cache.table
    ensures vol.Valid() && Step(vol.g, old(vol.Now()), vol.Now()) && Quiet(old(vol.Now()), vol.Now())
    ensures Seen(vol.g, vol.Now()) == Seen(vol.g, old(vol.Now()))
    ensures old(Ordered(vol.g, vol.Now())) ==> CrashSafe(vol.g, old(vol.Now()), vol.Now()) && Ordered(vol.g, vol.Now())
    ensures Standing(lost, j, slots0, vol.g, vol.Now(), dcur, start, i, cluster) && vol.g.InRange(cluster)
    ensures room.RoomAt? ==> s < vol.g.sectorsPerCluster && room.lba == vol.g.ClusterLba(cluster) + s && room.off + ENTRY_SIZE <= BLOCK_SIZE
    ensures room == Unreadable <==> vol.cache.table.failures != old(vol.cache.table.failures)
    ensures !lost ==> IsChain(Seen(vol.g, vol.Now()).fat1, dcur)
    ensures !lost && room.RoomAt? ==>
      FirstFree(Entries(vol.g, vol.Now(), dcur)) == Hit(k) && EntryPlaced(vol.g, dcur, k, room.lba, room.off, i, s)
    ensures !lost && room == NoRoom ==> FullTo(Entries(vol.g, vol.Now(), dcur), PER_SECTOR * vol.g.Span(i + 1))
  {
    hide Mounted, Coherent, ElsewhereSame, Fat1Within, KeepsClean, Abs, FatWords, SameShape, Quiet, Wrote, Step,
         SectorBytes, View, NoDangling, CrashSafe, Standing, FullTo, CountFree, Entries, ClusterOf, IsChain, FirstFree,
         EntryPlaced;
    var g := vol.g;
    ghost var w0 := vol.Now();
    VolumeBounds(g, w0);
    StandingFacts(lost, j, slots0, g, w0, dcur, start, i, cluster);
    ghost var slots := if lost then [] else Entries(g, w0, dcur);
    room, k, s := RoomInCluster(vol, cluster, dcur, slots, i);
    ghost var w1 := vol.Now();
    VolumeBounds(g, w1);
    QuietVolume(g, w0, w1);
    QuietIsCrashSafe(g, w0, w1);
    StandingKept(lost, j, slots0, g, w0, w1, dcur, start, i, cluster);
  }

  /** The loop of fat32_dir_create_entry. */
  method CreateIn(vol: Volume, dirCluster: nat, entry: Slot32, ghost dch: seq<nat>)
    returns (ok: bool, lba: nat, off: nat, ghost dch1: seq<nat>, ghost k: nat, ghost i: nat, ghost s: nat)
    requires vol.Valid() && IsDir(vol.g, vol.Now(), dch, dirCluster)
    modifies vol`freeClusters, vol`nextFree, vol.cache.slots, vol.cache.table
    ensures vol.Valid() && Step(vol.g, old(vol.Now()), vol.Now())
    ensures vol.cache.table.failures == old(vol.cache.table.failures) ==>
      && (ok <==> FirstFree(old(Entries(vol.g, vol.Now(), dch))).Hit? || FreeCount(Seen(vol.g, old(vol.Now())).fat1) != 0)
      && (ok ==>
            && Created(vol.g, Seen(vol.g, old(vol.Now())), Seen(vol.g, vol.Now()), old(Entries(vol.g, vol.Now(), dch)),
                       dch, dch1, dirCluster, entry, k)
            && EntryPlaced(vol.g, dch1, k, lba, off, i, s))
      && (old(vol.Exact()) ==> vol.Exact())
      && (!ok ==> Quiet(old(vol.Now()), vol.Now()))
    ensures ok ==> Clean(vol.Now(), vol.g.dev) && Stored(vol.g, vol.Now()) == Seen(vol.g, vol.Now())
    ensures old(Ordered(vol.g, vol.Now())) ==>
      CrashSafe(vol.g, old(vol.Now()), vol.Now()) && (ok ==> Ordered(vol.g, vol.Now()))
  {
    hide Mounted, Coherent, ElsewhereSame, Fat1Within, KeepsClean, Abs, FatWords, SameShape, Quiet, Wrote, Step,
         SectorBytes, View, NoDangling, CrashSafe, Standing, FullTo, CountFree, Entries, ClusterOf, IsChain,
         Created, WithSlice, FirstFree, EntryPlaced;
    var g := vol.g;
    ghost var w0 := vol.Now();
    VolumeBounds(g, w0);
    CrashSafeSelf(g, w0);
    ghost var slots0 := Entries(g, w0, dch);
    ghost var j := Job(Seen(g, w0), dch, g.BytesPerCluster(), 0, []);
    StandingStart(g, w0, dch, dirCluster);
    ghost var exact, ordered := vol.Exact(), Ordered(g, w0);
    lba, off, dch1, k, i, s := 0, 0, dch, 0, 0, 0;
    ghost var lost := false;
    var cluster := dirCluster;
    var safety := 0;
    while true
      invariant vol.Valid() && Step(g, w0, vol.Now()) && i == safety <= g.totalClusters
      invariant Standing(lost, j, slots0, g, vol.Now(), dch1, dirCluster, i, cluster)
      invariant lost ==> vol.cache.table.failures != w0.failures
      invariant vol.cache.table.failures == w0.failures ==> Quiet(w0, vol.Now()) || FreeCount(j.v0.fat1) != 0
      invariant vol.cache.table.failures == w0.failures && exact ==> vol.Exact()
      invariant ordered ==> CrashSafe(g, w0, vol.Now()) && Ordered(g, vol.Now())
      decreases g.totalClusters - safety
    {
      ghost var w1 := vol.Now();
      VolumeBounds(g, w1);
      StepBounds(g, w0, w1);
      StandingFacts(lost, j, slots0, g, w1, dch1, dirCluster, i, cluster);
      safety := safety + 1;
      if safety > g.totalClusters {
        ok := false;
        return;
      }
      var room;
      room, k, s := LookForRoom(vol, cluster, lost, j, slots0, dch1, dirCluster, i);
      ghost var w2 := vol.Now();
      StepBounds(g, w1, w2);
      StepTransitive(g, w0, w1, w2);
      if ordered {
        CrashSafeTransitive(g, w0, w1, w2);
      }
      if Quiet(w0, w1) {
        QuietTransitive(w0, w1, w2);
        QuietVolume(g, w0, w2);
      }
      if room == Unreadable {
        ok := false;
        return;
      }
      if room.RoomAt? {
        lba, off := room.lba, room.off;
        ok := PlaceEntry(vol, lba, off, entry, lost, j, slots0, dch1, dirCluster, i, cluster, k, s);
        ghost var w3 := vol.Now();
        StepTransitive(g, w0, w2, w3);
        StepBounds(g, w2, w3);
        if ordered {
          CrashSafeTransitive(g, w0, w2, w3);
        }
        return;
      }
      var next;
      ghost var dcur1;
      ok, next, lost, dcur1 := NextForRoom(vol, cluster, lost, j, slots0, dch1, dirCluster, i);
      ghost var w3 := vol.Now();
      StepTransitive(g, w0, w2, w3);
      StepBounds(g, w2, w3);
      if ordered {
        CrashSafeTransitive(g, w0, w2, w3);
      }
      if Quiet(w0, w2) && Quiet(w2, w3) {
        QuietTransitive(w0, w2, w3);
      }
      if !ok {
        return;
      }
      dch1 := dcur1;
      cluster := next;
      i := i + 1;
    }
    assert false;
  }

  lemma StandingStart(g: Geometry, w: World, dch: seq<nat>, start: nat)
    requires IsDir(g, w, dch, start)
    ensures Standing(false, Job(Seen(g, w), dch, g.BytesPerCluster(), 0, []), Entries(g, w, dch), g, w, dch, start, 0, start)
  {
    DirStart(g, w, dch, start);
  }

  lemma StandingDone(j: Job, slots0: seq<Slot32>, g: Geometry, w: World, w': World, dcur: seq<nat>, start: nat, i: nat, cluster: nat,
                     k: nat, lba: nat, off: nat, at: nat, entry: Slot32)
    requires Standing(false, j, slots0, g, w, dcur, start, i, cluster)
    requires FirstFree(Entries(g, w, dcur)) == Hit(k) && EntryPlaced(g, dcur, k, lba, off, i, at)
    requires cluster < |Seen(g, w).data| && BLOCK_SIZE * at + off + ENTRY_SIZE <= |Seen(g, w).data[cluster]|
    requires Mounted(g, w') && Seen(g, w') == WithSlice(Seen(g, w), cluster, BLOCK_SIZE * at + off, entry)
    ensures Created(g, j.v0, Seen(g, w'), slots0, j.ch0, dcur, start, entry, k)
    ensures FirstFree(slots0).Hit? || FreeCount(j.v0.fat1) != 0
  {
    hide FirstFree, Content, Slots, Mounted, Abs, DirState;
    DirDone(j, slots0, g, w, dcur, start, i, cluster, k, lba, off, at, entry);
  }

  /** The entries after `piece` was laid over the start of entry `k`, in a directory that may have
      been zero-extended first. */
  function WithEntry(slots: seq<Slot32>, k: nat, piece: seq<Byte>): (r: seq<Slot32>)
    requires k < |slots| && |piece| <= ENTRY_SIZE
  {
    slots[k := piece + slots[k][|piece|..]]
  }

  lemma SlotsPatched(b: seq<Byte>, n: nat, k: nat, piece: seq<Byte>)
    requires |b| % ENTRY_SIZE == 0 && n % ENTRY_SIZE == 0 && |b| <= n && k < n / ENTRY_SIZE && |piece| <= ENTRY_SIZE
    ensures |Slots(b) + Slots(ZeroBytes(n - |b|))| == n / ENTRY_SIZE
    ensures Slots(Patched(b, n, ENTRY_SIZE * k, piece)) == WithEntry(Slots(b) + Slots(ZeroBytes(n - |b|)), k, piece)
  {
    hide Patched;
    var z := ZeroBytes(n - |b|);
    var p := Patched(b, n, ENTRY_SIZE * k, piece);
    SlotsOfConcat(b, z);
    var all := b + z;
    forall t | 0 <= t < n / ENTRY_SIZE ensures Slots(p)[t] == WithEntry(Slots(all), k, piece)[t] {
      PatchedSlot(b, n, k, piece, t);
      SliceOfSlice(all, 32 * t, 32, if t == k then |piece| else 0, 32);
    }
  }

  /** The 32 bytes of one slot after a patch at the start of slot `k`. */
  lemma PatchedSlot(b: seq<Byte>, n: nat, k: nat, piece: seq<Byte>, t: nat)
    requires |b| <= n && 32 * t + 32 <= n && 32 * k + 32 <= n && |piece| <= ENTRY_SIZE
    ensures var p, all := Patched(b, n, ENTRY_SIZE * k, piece), b + ZeroBytes(n - |b|);
      p[32 * t..32 * t + 32] == if t == k then piece + all[32 * t + |piece|..32 * t + 32] else all[32 * t..32 * t + 32]
  {
    var p, all := Patched(b, n, ENTRY_SIZE * k, piece), b + ZeroBytes(n - |b|);
    forall x | 0 <= x < 32 ensures p[32 * t + x] == (if t == k && x < |piece| then piece[x] else all[32 * t + x]) {
    }
  }

  /** The entries of a directory of `n` bytes that began with the bytes `b`. */
  ghost function Widened(b: seq<Byte>, n: nat): seq<Slot32> {
    Slots(b) + Slots(ZeroBytes(if |b| <= n then n - |b| else 0))
  }

  /** The entries after a rewrite of the directory's chain at one entry. */
  lemma RewrittenEntries(g: Geometry, w0: World, w1: World, dch: seq<nat>, dch1: seq<nat>, k: nat, piece: seq<Byte>)
    requires Mounted(g, w0) && Mounted(g, w1) && IsChain(Seen(g, w0).fat1, dch) && |piece| <= ENTRY_SIZE
    requires Rewritten(Seen(g, w0), Seen(g, w1), dch, dch1, g.BytesPerCluster(), ENTRY_SIZE * k, piece)
    ensures IsChain(Seen(g, w1).fat1, dch1) && |DirBytes(g, w0, dch)| <= |DirBytes(g, w1, dch1)|
    ensures k < |Entries(g, w1, dch1)| ==>
      var all := Widened(DirBytes(g, w0, dch), |DirBytes(g, w1, dch1)|);
      k < |all| && Entries(g, w1, dch1) == WithEntry(all, k, piece)
  {
    hide Content, Slots, Mounted, Abs, WithEntry, Patched;
    MountedUniform(g, w0);
    var m := g.BytesPerCluster();
    ClusterMultiple(g);
    MulLe(|dch|, |dch1|, m);
    var b, n := DirBytes(g, w0, dch), |DirBytes(g, w1, dch1)|;
    assert n == |dch1| * m && |b| == |dch| * m;
    if k < |Entries(g, w1, dch1)| {
      SlotsPatched(b, n, k, piece);
    }
  }

  /** Laying `piece` over the start of entry `k` changes that entry and nothing else. */
  lemma EntryPatched(g: Geometry, w0: World, w1: World, dch: seq<nat>, start: nat, k: nat, lba: nat, off: nat, i: nat,
                     s: nat, piece: seq<Byte>)
    requires IsDir(g, w0, dch, start) && Mounted(g, w1) && EntryPlaced(g, dch, k, lba, off, i, s) && |piece| <= ENTRY_SIZE
    requires dch[i] < |Seen(g, w0).data| && BLOCK_SIZE * s + off + |piece| <= |Seen(g, w0).data[dch[i]]|
    requires Seen(g, w1) == WithSlice(Seen(g, w0), dch[i], BLOCK_SIZE * s + off, piece)
    ensures IsDir(g, w1, dch, start) && k < |Entries(g, w0, dch)|
    ensures Rewritten(Seen(g, w0), Seen(g, w1), dch, dch, g.BytesPerCluster(), ENTRY_SIZE * k, piece)
    ensures Entries(g, w1, dch) == WithEntry(Entries(g, w0, dch), k, piece)
  {
    hide Content, Slots, Mounted, Abs, Grown, WithSlice, IsPlace, Patched, WithEntry, Entries, DirBytes;
    var v0, v1, m := Seen(g, w0), Seen(g, w1), g.BytesPerCluster();
    PieceRewritten(g, w0, dch, k, lba, off, i, s, piece);
    RewrittenEntries(g, w0, w1, dch, dch, k, piece);
    DirSector(g, w0, dch, i, s);
    assert k < |Entries(g, w0, dch)|;
    SameWidth(g, w0, w1, dch);
  }

  lemma SameWidth(g: Geometry, w0: World, w1: World, dch: seq<nat>)
    requires Mounted(g, w0) && Mounted(g, w1) && IsChain(Seen(g, w0).fat1, dch) && IsChain(Seen(g, w1).fat1, dch)
    ensures |Entries(g, w1, dch)| == |Entries(g, w0, dch)|
    ensures Widened(DirBytes(g, w0, dch), |DirBytes(g, w1, dch)|) == Entries(g, w0, dch)
  {
  }

  lemma PieceRewritten(g: Geometry, w: World, dch: seq<nat>, k: nat, lba: nat, off: nat, i: nat, s: nat, piece: seq<Byte>)
    requires Mounted(g, w) && IsChain(Seen(g, w).fat1, dch) && EntryPlaced(g, dch, k, lba, off, i, s) && |piece| <= ENTRY_SIZE
    ensures dch[i] < |Seen(g, w).data| && BLOCK_SIZE * s + off + |piece| <= |Seen(g, w).data[dch[i]]|
    ensures Rewritten(Seen(g, w), WithSlice(Seen(g, w), dch[i], BLOCK_SIZE * s + off, piece), dch, dch, g.BytesPerCluster(), ENTRY_SIZE * k, piece)
  {
    hide Content, Mounted, Abs, Grown, WithSlice, IsPlace, Patched, Rewritten;
    MountedUniform(g, w);
    var v, m := Seen(g, w), g.BytesPerCluster();
    RewrittenStart(v, dch, m, ENTRY_SIZE * k);
    EntryOffset(g, i, s, off, k);
    RoomInClusterBytes(g, s, off);
    RewrittenSlice(v, v, dch, dch, m, ENTRY_SIZE * k, [], i, BLOCK_SIZE * s + off, piece);
    assert [] + piece == piece;
  }

  /** fat32_dir_mark_deleted, for the place of an entry of the directory `dch`. */
  method MarkDeleted(vol: Volume, lba: nat, off: nat, ghost dch: seq<nat>, ghost start: nat, ghost k: nat, ghost i: nat, ghost s: nat)
    returns (ok: bool)
    requires vol.Valid()
    requires off < BLOCK_SIZE ==> EntryPlaced(vol.g, dch, k, lba, off, i, s)
    modifies vol.cache.slots, vol.cache.table
    ensures vol.Valid() && Step(vol.g, old(vol.Now()), vol.Now())
    ensures off >= BLOCK_SIZE ==> !ok && vol.Now() == old(vol.Now())
    ensures off < BLOCK_SIZE ==> (ok <==> vol.cache.table.failures == old(vol.cache.table.failures))
    ensures ok && old(IsDir(vol.g, vol.Now(), dch, start)) ==>
      && IsDir(vol.g, vol.Now(), dch, start) && k < |old(Entries(vol.g, vol.Now(), dch))|
      && Entries(vol.g, vol.Now(), dch) == WithEntry(old(Entries(vol.g, vol.Now(), dch)), k, [DELETED_MARK])
      && Rewritten(Seen(vol.g, old(vol.Now())), Seen(vol.g, vol.Now()), dch, dch, vol.g.BytesPerCluster(), ENTRY_SIZE * k, [DELETED_MARK])
    ensures Seen(vol.g, vol.Now()).fat1 == Seen(vol.g, old(vol.Now())).fat1
    ensures ok ==> Clean(vol.Now(), vol.g.dev) && Stored(vol.g, vol.Now()) == Seen(vol.g, vol.Now())
    ensures old(Ordered(vol.g, vol.Now())) ==> CrashSafe(vol.g, old(vol.Now()), vol.Now()) && Ordered(vol.g, vol.Now())
  {
    hide Mounted, Coherent, ElsewhereSame, Fat1Within, KeepsClean, Abs, FatWords, SameShape, Quiet, Wrote, Step,
         SectorBytes, View, NoDangling, CrashSafe, Entries, IsChain, WithSlice, WithEntry, Rewritten;
    var g := vol.g;
    ghost var w0 := vol.Now();
    VolumeBounds(g, w0);
    CrashSafeSelf(g, w0);
    if off >= BLOCK_SIZE {
      return false;
    }
    assert off + 1 <= BLOCK_SIZE;
    ok := StoreInSector(vol, lba, off, [DELETED_MARK], dch[i], s);
    ghost var w1 := vol.Now();
    StepBounds(g, w0, w1);
    if ok && IsDir(g, w0, dch, start) {
      EntryPatched(g, w0, w1, dch, start, k, lba, off, i, s, [DELETED_MARK]);
    }
  }

  /** fat32_update_dir_entry, for the place of an entry of the directory `dch`. Nothing is flushed. */
  method UpdateDirEntry(vol: Volume, lba: nat, off: nat, entry: Slot32, ghost dch: seq<nat>, ghost start: nat, ghost k: nat,
                        ghost i: nat, ghost s: nat)
    returns (ok: bool)
    requires vol.Valid()
    requires off + ENTRY_SIZE <= BLOCK_SIZE ==> EntryPlaced(vol.g, dch, k, lba, off, i, s)
    modifies vol.cache.slots, vol.cache.table
    ensures vol.Valid() && Step(vol.g, old(vol.Now()), vol.Now())
    ensures off + ENTRY_SIZE > BLOCK_SIZE ==> !ok && vol.Now() == old(vol.Now())
    ensures off + ENTRY_SIZE <= BLOCK_SIZE ==> (ok <==> vol.cache.table.failures == old(vol.cache.table.failures))
    ensures ok && old(IsDir(vol.g, vol.Now(), dch, start)) ==>
      && IsDir(vol.g, vol.Now(), dch, start) && k < |old(Entries(vol.g, vol.Now(), dch))|
      && Entries(vol.g, vol.Now(), dch) == WithEntry(old(Entries(vol.g, vol.Now(), dch)), k, entry)
      && Rewritten(Seen(vol.g, old(vol.Now())), Seen(vol.g, vol.Now()), dch, dch, vol.g.BytesPerCluster(), ENTRY_SIZE * k, entry)
    ensures Seen(vol.g, vol.Now()).fat1 == Seen(vol.g, old(vol.Now())).fat1
    ensures !ok ==> Seen(vol.g, vol.Now()) == Seen(vol.g, old(vol.Now()))
    ensures old(Ordered(vol.g, vol.Now())) ==> CrashSafe(vol.g, old(vol.Now()), vol.Now()) && Ordered(vol.g, vol.Now())
  {
    hide Mounted, Coherent, ElsewhereSame, Fat1Within, KeepsClean, Abs, FatWords, SameShape, Quiet, Wrote, Step,
         SectorBytes, View, NoDangling, CrashSafe, Entries, IsChain, WithEntry, Rewritten;
    var g := vol.g;
    ghost var w0 := vol.Now();
    VolumeBounds(g, w0);
    CrashSafeSelf(g, w0);
    if off + ENTRY_SIZE > BLOCK_SIZE {
      return false;
    }
    ok := PatchSector(vol, lba, off, entry, dch[i], s);
    ghost var w1 := vol.Now();
    StepBounds(g, w0, w1);
    if Ordered(g, w0) {
      DataIsCrashSafe(g, w0, w1);
    }
    if ok && IsDir(g, w0, dch, start) {
      EntryPatched(g, w0, w1, dch, start, k, lba, off, i, s, entry);
    }
  }

  /** What a completed creation leaves: the old entries, a zeroed cluster behind them if there was
      no room, and the new entry in the first free place. */
  lemma CreatedEntries(g: Geometry, w0: World, w1: World, dch: seq<nat>, dch1: seq<nat>, start: nat, entry: Slot32, k: nat,
                       lba: nat, off: nat, i: nat, s: nat)
    requires IsDir(g, w0, dch, start) && Mounted(g, w1)
    requires Created(g, Seen(g, w0), Seen(g, w1), Entries(g, w0, dch), dch, dch1, start, entry, k)
    requires EntryPlaced(g, dch1, k, lba, off, i, s)
    ensures IsDir(g, w1, dch1, start)
    ensures Entries(g, w1, dch1) == Inserted(Entries(g, w0, dch), entry, g.BytesPerCluster())
    ensures k < |Entries(g, w1, dch1)| && Entries(g, w1, dch1)[k] == entry
  {
    hide Content, Slots, Mounted, Abs, IsPlace, Patched, Entries, DirBytes, FirstFree, Rewritten, Inserted,
         WithEntry, Widened, IsChain;
    RewrittenEntries(g, w0, w1, dch, dch1, k, entry);
    DirSector(g, w1, dch1, i, s);
    assert k < |Entries(g, w1, dch1)|;
    WidthOf(g, w0, w1, dch, dch1);
    InsertedIs(Entries(g, w0, dch), entry, g.BytesPerCluster(), k, Widened(DirBytes(g, w0, dch), |DirBytes(g, w1, dch1)|));
  }

  lemma InsertedIs(slots: seq<Slot32>, entry: Slot32, m: nat, k: nat, all: seq<Slot32>)
    requires k < |all|
    requires if FirstFree(slots).Hit? then all == slots && k == FirstFree(slots).k
      else all == slots + Slots(ZeroBytes(m)) && k == |slots|
    ensures WithEntry(all, k, entry) == Inserted(slots, entry, m) && WithEntry(all, k, entry)[k] == entry
    ensures |WithEntry(all, k, entry)| == |all|
  {
    assert entry + all[k][ENTRY_SIZE..] == entry;
  }

  lemma DirSize(g: Geometry, w: World, dch: seq<nat>)
    requires Mounted(g, w) && IsChain(Seen(g, w).fat1, dch)
    ensures |DirBytes(g, w, dch)| == |dch| * g.BytesPerCluster()
  {
    hide Content, Mounted, Abs, IsChain;
    MountedUniform(g, w);
  }

  lemma NoSlots()
    ensures Slots(ZeroBytes(0)) == []
  {
  }

  lemma WidthOf(g: Geometry, w0: World, w1: World, dch: seq<nat>, dch1: seq<nat>)
    requires Mounted(g, w0) && Mounted(g, w1) && IsChain(Seen(g, w0).fat1, dch) && IsChain(Seen(g, w1).fat1, dch1)
    ensures dch1 == dch ==> Widened(DirBytes(g, w0, dch), |DirBytes(g, w1, dch1)|) == Entries(g, w0, dch)
    ensures |dch1| == |dch| + 1 ==>
      Widened(DirBytes(g, w0, dch), |DirBytes(g, w1, dch1)|) == Entries(g, w0, dch) + Slots(ZeroBytes(g.BytesPerCluster()))
  {
    hide Content, Slots, Mounted, Abs, IsChain;
    DirSize(g, w0, dch);
    DirSize(g, w1, dch1);
    NoSlots();
    MulAddOne(|dch|, g.BytesPerCluster());
  }

  /** A live entry marked deleted, found by name, is the name erased. */
  lemma DeletedEntries(slots: seq<Slot32>, key: Key, k: nat)
    requires Search(slots, key) == Hit(k)
    ensures k < |slots| && WithEntry(slots, k, [DELETED_MARK]) == Erased(slots, key)
  {
    assert [DELETED_MARK] + slots[k][1..] == slots[k][0 := DELETED_MARK];
  }

  /** An entry rewritten behind its name and attributes. */
  lemma RestampedEntries(slots: seq<Slot32>, key: Key, k: nat, tail: seq<Byte>)
    requires Search(slots, key) == Hit(k) && |tail| == ENTRY_SIZE - 12
    ensures k < |slots| && WithEntry(slots, k, slots[k][..12] + tail) == Restamped(slots, key, tail)
  {
    var e := slots[k][..12] + tail;
    assert e + slots[k][ENTRY_SIZE..] == e;
  }
}