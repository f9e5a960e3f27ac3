/** Formatting a device, mounting it and starting the descriptor table: the state every run of file
    calls begins from. */
module FreshVolume {
  import opened Blocks
  import opened SectorCache
  import opened FatTable
  import opened VolumeState
  import opened Chains
  import opened FileBytes
  import opened Fat32
  import opened WriteOrder
  import opened ChainIO
  import opened Format
  import opened DirSlots
  import opened FileSystem
  import opened Threading
  import opened FileSpec
  import opened VfsFiles
  import opened VfsTable
  import opened Vfs

  /** The name that the volume label takes up in the root directory, if its entry counts as one. */
  function LabelNames(name: seq<Byte>): set<Key> { LabelMap(LabelSector(Label11(name))[0..32]).Keys }

  /** A run of sectors that is zero after its first sector. */
  lemma {:induction false} ZeroAfterFirst(d: Disk, lba: nat, n: nat)
    requires 1 <= n && lba + n <= |d| && forall i :: lba < i < lba + n ==> d[i] == ZeroSector()
    ensures SectorBytes(d, lba, n) == d[lba] + ZeroBytes((n - 1) * BLOCK_SIZE)
  {
    if n == 1 {
      assert SectorBytes(d, lba, 0) == [];
    } else {
      ZeroAfterFirst(d, lba, n - 1);
      assert ZeroBytes((n - 2) * BLOCK_SIZE) + ZeroSector() == ZeroBytes((n - 1) * BLOCK_SIZE);
    }
  }

  /** The map of a directory that holds a volume label and nothing else. */
  function LabelMap(tag: Slot32): map<Key, Slot32> {
    if Live(tag) then map[KeyOf(tag) := tag] else map[]
  }

  lemma LabelRepresents(tag: Slot32, rest: seq<Slot32>)
    requires !IsLfn(tag) && forall i :: 0 <= i < |rest| ==> IsEnd(rest[i])
    ensures Represents([tag] + rest, LabelMap(tag))
  {
    hide KeyOf;
    var slots := [tag] + rest;
    assert slots[0] == tag;
    if Live(tag) {
      assert Named(slots, KeyOf(tag));
    }
  }

  /** The root directory of a formatted volume. */
  function FreshDir(d: Disk, volLabel: seq<Byte>): FileSys
    requires |volLabel| == 11
  {
    FileSys([2], LabelMap(LabelSector(volLabel)[0..32]), map[])
  }

  lemma LabelSlots(volLabel: seq<Byte>, n: nat)
    requires |volLabel| == 11 && n % ENTRY_SIZE == 0
    ensures var tag: Slot32 := LabelSector(volLabel)[0..32]; var slots := Slots(LabelSector(volLabel) + ZeroBytes(n));
      && |slots| > 0 && slots[0] == tag && !IsLfn(tag) && !IsPlain(tag)
      && forall i :: 1 <= i < |slots| ==> IsEnd(slots[i])
  {
    var b := LabelSector(volLabel) + ZeroBytes(n);
    assert b[0..32] == LabelSector(volLabel)[0..32];
    forall i | 1 <= i < |Slots(b)| ensures IsEnd(Slots(b)[i]) {
      assert b[32 * i] == 0;
    }
  }

  /** A formatted volume that fits holds an empty file system. */
  lemma FormattedIsEmpty(dev: nat, d: Disk, volLabel: seq<Byte>)
    requires |volLabel| == 11 && |d| < U32_RANGE && Formatted(d, volLabel)
    requires Clusters(|d|) + 1 < FAT32_BAD
    ensures var g := FormatGeometry(dev, |d|);
      && g.Fits(|d|) && Uniform(Abs(g, d), g.BytesPerCluster())
      && FsOk(Abs(g, d), g.BytesPerCluster(), 2, FreshDir(d, volLabel), {})
  {
    hide BootSector, BackupSector, LabelSector, InfoSector, FatHead, CountFree, Abs, MountFree, LabelMap,
         Represents, IsLfn, IsPlain, IsEnd;
    var g := FormatGeometry(dev, |d|);
    FormattedIsSound(dev, d, volLabel);
    var v := Abs(g, d);
    FormatUniform(g, d);
    assert IsChain(v.fat1, [[2]][0]);
    ZeroAfterFirst(d, g.dataStart, CLUSTER_SECTORS);
    var m := g.BytesPerCluster();
    assert m == CLUSTER_SECTORS * BLOCK_SIZE;
    OneCluster(v, m, 2);
    LabelSlots(volLabel, 7 * BLOCK_SIZE);
    var slots := Slots(Content(v, [2], m));
    LabelRepresents(slots[0], slots[1..]);
    assert slots == [slots[0]] + slots[1..];
    OnlyLabel(slots[0]);
  }

  lemma OnlyLabel(tag: Slot32)
    requires !IsPlain(tag)
    ensures forall key :: key in LabelMap(tag) ==> !IsPlain(LabelMap(tag)[key])
  {
  }

  lemma OneCluster(v: FatImage, m: nat, c: nat)
    requires Uniform(v, m) && 2 <= c < |v.data|
    ensures Content(v, [c], m) == v.data[c]
  {
    forall i | 0 <= i < m ensures Content(v, [c], m)[i] == v.data[c][i] {
      ContentAt(v, [c], m, 0, i);
    }
  }

  lemma FormatUniform(g: Geometry, d: Disk)
    requires g.Fits(|d|)
    ensures Uniform(Abs(g, d), g.BytesPerCluster())
    ensures |Abs(g, d).data| > 2 && Abs(g, d).data[2] == SectorBytes(d, g.dataStart, g.sectorsPerCluster)
    ensures |Abs(g, d).fat1| <= FAT32_BAD
  {
    ClusterOnDevice(g, |d|, 2);
    forall c | 2 <= c < g.totalClusters + 2 ensures |Abs(g, d).data[c]| == g.BytesPerCluster() {
      ClusterOnDevice(g, |d|, c);
    }
  }

  /** No cache slot belongs to the device. */
  ghost predicate Uncached(w: World, dev: nat) {
    forall i :: 0 <= i < |w.slots| ==> w.slots[i].owner != Some(dev)
  }

  /** Rewriting a device none of whose sectors is cached keeps the cache coherent. */
  lemma RewriteKeepsCoherent(w0: World, w1: World, dev: nat)
    requires Coherent(w0) && Uncached(w0, dev) && w1.slots == w0.slots && |w1.disks| == |w0.disks| && dev < |w0.disks|
    requires forall d :: 0 <= d < |w0.disks| && d != dev ==> w1.disks[d] == w0.disks[d]
    ensures Coherent(w1) && w1.disks[dev] == View(w1, dev)
  {
    forall i | 0 <= i < CACHE_BLOCKS ensures SlotOk(w1, i) {
      assert SlotOk(w0, i);
    }
    forall l | 0 <= l < |w1.disks[dev]| ensures View(w1, dev)[l] == w1.disks[dev][l] {
      assert SlotOk(w0, l % CACHE_BLOCKS);
      assert Lookup(w1, dev, l) == Some(View(w1, dev)[l]);
    }
  }

  lemma FormattedRoom(d: Disk, volLabel: seq<Byte>)
    requires |volLabel| == 11 && |d| < U32_RANGE && Formatted(d, volLabel)
    ensures DataStart(|d|) + CLUSTER_SECTORS <= |d| && d[0] == BootSector(|d|, volLabel) && d[1] == InfoSector(|d|)
  {
  }

  /** What mounting computes for the free count, whether or not FSInfo could be read. */
  lemma FreshFree(n: Word, info: Option<Sector>)
    requires DataStart(n) + CLUSTER_SECTORS <= n && (info.Some? ==> info.value == InfoSector(n))
    ensures MountFree(Clusters(n), info) == Clusters(n) - 1
  {
    FormatCounts(n);
    if info.Some? {
      MountRecounts(n);
    }
  }

  lemma FreshDirChain(d: Disk, volLabel: seq<Byte>)
    requires |volLabel| == 11
    ensures FreshDir(d, volLabel).dch == [2] && AbsFiles(FreshDir(d, volLabel)) == map[] && FreshDir(d, volLabel).nodes == map[]
    ensures FreshDir(d, volLabel).dir == LabelMap(LabelSector(volLabel)[0..32])
  {
  }

  lemma EmptyDir(v: FatImage, m: nat, fs: FileSys)
    requires FsOk(v, m, 2, fs, {}) && fs.dch == [2]
    ensures Uniform(v, m) && IsChain(v.fat1, [2]) && DirReads(v, m, [2], Slots(Content(v, [2], m)))
  {
  }

  lemma CoherentSlots(w: World)
    requires Coherent(w)
    ensures |w.slots| == CACHE_BLOCKS
  {
  }

  lemma SameDiskView(w0: World, w1: World, d: nat)
    requires |w0.slots| == CACHE_BLOCKS && d < |w0.disks| && w1.slots == w0.slots && w1.disks == w0.disks
    ensures View(w1, d) == View(w0, d)
  {
    forall l | 0 <= l < |w0.disks[d]| ensures View(w1, d)[l] == View(w0, d)[l] {
      assert Lookup(w1, d, l) == Lookup(w0, d, l);
    }
  }

  lemma FreshMounted(g: Geometry, w: World, d: Disk, volLabel: seq<Byte>)
    requires |volLabel| == 11 && |d| < U32_RANGE && DataStart(|d|) <= |d| && Clusters(|d|) + 1 < FAT32_BAD
    requires Formatted(d, volLabel)
    requires Coherent(w) && g.dev < |w.disks| && d == w.disks[g.dev] == View(w, g.dev) && g == FormatGeometry(g.dev, |d|)
    ensures Mounted(g, w) && Seen(g, w) == Stored(g, w) == Abs(g, d)
  {
    hide Formatted, Abs, View, FormatGeometry, Coherent, DataStart, Clusters;
    FormattedIsSound(g.dev, d, volLabel);
  }

  lemma FreshVolOk(g: Geometry, w: World, fs: FileSys)
    requires Mounted(g, w) && w.disks[g.dev] == View(w, g.dev)
    requires FsOk(Seen(g, w), g.BytesPerCluster(), 2, fs, {}) && fs.dch == [2]
    ensures Uniform(Seen(g, w), g.BytesPerCluster()) && IsChain(Seen(g, w).fat1, [2])
    ensures VolOk(g, w, 2, fs, Slots(Content(Seen(g, w), [2], g.BytesPerCluster())))
  {
    hide Abs, FsOk, View, Slots, Content, Coherent, Uniform, IsChain, DirReads, Mounted;
    EmptyDir(Seen(g, w), g.BytesPerCluster(), fs);
  }

  lemma GeometryNumbers(dev: nat, n: nat)
    requires DataStart(n) <= n
    ensures var g := FormatGeometry(dev, n); g.dev == dev && g.fsInfoSector == 1 && g.totalClusters == Clusters(n)
  {
  }

  /** A formatted device boots: mounting it again finds the same placement. */
  lemma FreshBootable(g: Geometry, w: World, d: Disk, volLabel: seq<Byte>)
    requires |volLabel| == 11 && |d| < U32_RANGE && DataStart(|d|) + CLUSTER_SECTORS <= |d| && Formatted(d, volLabel)
    requires Mounted(g, w) && d == w.disks[g.dev] == View(w, g.dev) && g == FormatGeometry(g.dev, |d|)
    ensures Bootable(g, w)
  {
    hide Mounted, View, BootSector, FatSize, Load32, ReadBpb, Clusters, FatHead, LabelSector, BackupSector, Coherent;
    MountFindsFormat(g.dev, |d|, volLabel);
    CountsAreStored(ZeroSector(), StoredFree(|d|), 3);
    ZeroIsNoFsInfo();
  }

  lemma NoLinksThread(f: seq<Word>, hs: set<nat>)
    requires NoLinks(f) && NoDangling(f)
    ensures Threaded(f, hs)
  {
  }

  /** fat32_format, fat32_mount and vfs_init in turn, on a device on which no cluster number runs
      into the reserved entry values. Unless a transfer fails, as it does on a device too small for
      the root directory, they give a volume with an exact free count, no dangling link and no file,
      and a descriptor table ready for it. */
  method Start(cache: Cache, dev: nat, name: seq<Byte>) returns (table: FileTable?)
    requires cache.Valid() && dev < |cache.table.disks| && Uncached(cache.W(), dev)
    requires var n := |cache.table.disks[dev]|; n < U32_RANGE && (DataStart(n) <= n ==> Clusters(n) + 1 < FAT32_BAD)
    modifies cache.table
    ensures table != null ==>
      && fresh(table) && table.Inv() && table.vol.cache == cache
      && table.State() == Spec(map[], seq(VFS_MAX_OPEN_FILES, _ => Shut))
      && table.Neat() && Ordered(table.vol.g, table.vol.Now()) && table.Reserved() == LabelNames(name)
      && Bootable(table.vol.g, table.vol.Now())
    ensures cache.table.failures == old(cache.table.failures) ==> table != null
  {
    hide Formatted, BootSector, InfoSector, MountFree, MountNext, Abs, FsOk, ReadBpb, View, CountFree,
         NoDangling, NoLinks, Threaded, FatSize, FormatGeometry, DataStart, Clusters, VolOk, Coherent, Slots, Content;
    table := null;
    ghost var n := |cache.table.disks[dev]|;
    ghost var w0 := cache.W();
    CoherentSlots(w0);
    var ok := FormatDevice(cache.table, dev, name);
    ghost var w1 := cache.W();
    if !ok {
      return;
    }
    RewriteKeepsCoherent(w0, w1, dev);
    FormattedRoom(w1.disks[dev], Label11(name));
    MountFindsFormat(dev, n, Label11(name));
    var vol;
    ghost var info;
    vol, info := Mount(cache, dev);
    ghost var w2 := cache.W();
    if vol == null {
      return;
    }
    CoherentSlots(w2);
    SameDiskView(w1, w2, dev);
    FreshMounted(vol.g, w2, w2.disks[dev], Label11(name));
    FormattedIsSound(dev, w2.disks[dev], Label11(name));
    FormattedIsEmpty(dev, w2.disks[dev], Label11(name));
    ghost var fs := FreshDir(w2.disks[dev], Label11(name));
    FreshDirChain(w2.disks[dev], Label11(name));
    FreshVolOk(vol.g, w2, fs);
    GeometryNumbers(dev, n);
    FreshFree(n, info);
    NoLinksThread(Seen(vol.g, w2).fat1, Heads(fs));
    FreshBootable(vol.g, w2, w2.disks[dev], Label11(name));
    table := new FileTable(vol, 2, fs, Slots(Content(Seen(vol.g, w2), [2], vol.g.BytesPerCluster())));
  }
}
