/** fs/fat32_format.c: the layout of a blank volume, and how fat32_mount reads it back. */
module Format {
  import opened Arithmetic
  import opened Blocks
  import opened SectorCache
  import opened FatTable
  import opened VolumeState
  import opened Chains
  import opened FileBytes
  import opened Fat32
  import opened WriteOrder
  import ShortNames

  const RESERVED_SECTORS: nat := 32
  const CLUSTER_SECTORS: nat := 8

  /** The cluster estimate that sizes the FATs. */
  function Estimate(n: nat): nat { n / CLUSTER_SECTORS }

  function FatSize(n: nat): nat { (Estimate(n) * 4 + (BLOCK_SIZE - 1)) / BLOCK_SIZE }

  function StoredFree(n: nat): nat { if Estimate(n) > 2 then Estimate(n) - 2 else 0 }

  function DataStart(n: nat): nat { RESERVED_SECTORS + 2 * FatSize(n) }

  /** The clusters that mounting the formatted device finds. */
  function Clusters(n: nat): nat
    requires DataStart(n) <= n
  {
    (n - DataStart(n)) / CLUSTER_SECTORS
  }

  /** The placement that mounting a formatted device of `n` sectors yields. */
  function FormatGeometry(dev: nat, n: nat): Geometry
    requires DataStart(n) <= n
  {
    Geometry(dev, RESERVED_SECTORS, RESERVED_SECTORS + FatSize(n), DataStart(n), CLUSTER_SECTORS, Clusters(n), 1, 6)
  }

  /** A boot parameter block, in the fields that mounting reads. */
  datatype Bpb = Bpb(bytesPerSector: nat, sectorsPerCluster: nat, reserved: nat, numFats: nat,
                     total16: nat, total32: nat, fatSize32: nat, rootCluster: nat, fsInfo: nat, backup: nat,
                     fat32: bool, signed: bool)

  function Load16(s: Sector, off: nat): nat
    requires off + 2 <= BLOCK_SIZE
  {
    s[off] as int + 0x100 * s[off + 1] as int
  }

  const FS_TYPE: seq<Byte> := [0x46, 0x41, 0x54, 0x33, 0x32, 0x20, 0x20, 0x20]  // "FAT32   "

  function ReadBpb(s: Sector): Bpb {
    Bpb(Load16(s, 11), s[13], Load16(s, 14), s[16], Load16(s, 19), Load32(s, 32), Load32(s, 36), Load32(s, 44),
        Load16(s, 48), Load16(s, 50), s[82..90] == FS_TYPE, s[510] == 0x55 && s[511] == 0xAA)
  }

  /** Byte `k` of a little-endian word. */
  function ByteOf(w: Word, k: nat): Byte {
    if k == 0 then w % 0x100
    else if k == 1 then w / 0x100 % 0x100
    else if k == 2 then w / 0x1_0000 % 0x100
    else w / 0x100_0000
  }

  /** The primary boot sector that fat32_format writes. */
  function BootByte(n: Word, volLabel: seq<Byte>, i: nat): Byte
    requires |volLabel| == 11
  {
    if i == 0 then 0xEB else if i == 1 then 0x58 else if i == 2 then 0x90
    else if 3 <= i < 11 then ([0x43, 0x4F, 0x46, 0x46, 0x45, 0x45, 0x4F, 0x53])[i - 3]  // "COFFEEOS"
    else if i == 12 then 2                                        // bytes_per_sector = 512
    else if i == 13 then CLUSTER_SECTORS
    else if i == 14 then RESERVED_SECTORS
    else if i == 16 then 2                                        // num_fats
    else if i == 21 then 0xF8                                     // media_type
    else if i == 24 || i == 26 then 1                             // geometry
    else if 32 <= i < 36 then ByteOf(n, i - 32)                   // total_sectors_32
    else if 36 <= i < 40 then ByteOf(FatSize(n), i - 36)          // fat_size_32
    else if i == 44 then 2                                        // root_cluster
    else if i == 48 then 1                                        // fs_info_sector
    else if i == 50 then 6                                        // backup_boot_sector
    else if i == 64 then 0x80 else if i == 66 then 0x29
    else if 67 <= i < 71 then ByteOf(0xC0FF_EE32, i - 67)
    else if 71 <= i < 82 then volLabel[i - 71]
    else if 82 <= i < 90 then FS_TYPE[i - 82]
    else if i == 510 then 0x55 else if i == 511 then 0xAA
    else 0
  }

  /** The backup boot sector leaves geometry and drive number zero. */
  function BackupByte(n: Word, volLabel: seq<Byte>, i: nat): Byte
    requires |volLabel| == 11
  {
    if i == 24 || i == 26 || i == 64 then 0 else BootByte(n, volLabel, i)
  }

  function BootSector(n: Word, volLabel: seq<Byte>): Sector
    requires |volLabel| == 11
  {
    seq(BLOCK_SIZE, i requires 0 <= i < BLOCK_SIZE => BootByte(n, volLabel, i))
  }

  function BackupSector(n: Word, volLabel: seq<Byte>): Sector
    requires |volLabel| == 11
  {
    seq(BLOCK_SIZE, i requires 0 <= i < BLOCK_SIZE => BackupByte(n, volLabel, i))
  }

  lemma ByteOfJoins(w: Word)
    ensures Join32(ByteOf(w, 0), ByteOf(w, 1), ByteOf(w, 2), ByteOf(w, 3)) == w
  {
    SplitJoin32(w);
  }

  /** Mounting reads back exactly what formatting wrote. */
  lemma BootRoundTrip(n: Word, volLabel: seq<Byte>)
    requires |volLabel| == 11
    ensures ReadBpb(BootSector(n, volLabel))
            == Bpb(BLOCK_SIZE, CLUSTER_SECTORS, RESERVED_SECTORS, 2, 0, n, FatSize(n), 2, 1, 6, true, true)
  {
    var s := BootSector(n, volLabel);
    ByteOfJoins(n);
    ByteOfJoins(FatSize(n));
    assert s[82..90] == FS_TYPE;
  }

  /** fat32_format_label: upper-cased ASCII, padded with spaces to 11 bytes. */
  function Label11(volLabel: seq<Byte>): (r: seq<Byte>)
    ensures |r| == 11
  {
    seq(11, i requires 0 <= i < 11 => if i < |volLabel| then ShortNames.Upper(volLabel[i]) else 0x20)
  }

  /** The first root sector: one volume-label entry. */
  function LabelSector(volLabel: seq<Byte>): Sector
    requires |volLabel| == 11
  {
    seq(BLOCK_SIZE, i requires 0 <= i < BLOCK_SIZE => if i < 11 then volLabel[i] else if i == 11 then 0x08 else 0)
  }

  /** The first sector of each FAT: two reserved entries and the root directory's end-of-chain. */
  function FatHead(): Sector {
    Store32(Store32(Store32(ZeroSector(), 0, 0x0FFF_FFF8), 4, 0x0FFF_FFFF), 8, 0x0FFF_FFFF)
  }

  function InfoSector(n: Word): Sector {
    WithCounts(ZeroSector(), StoredFree(n), 3)
  }

  /** The layout of a formatted device whose FATs take `f` sectors each. */
  ghost predicate Laid(d: Disk, f: nat, boot: Sector, info: Sector, backup: Sector, head: Sector, root: Sector) {
    && 1 <= f && 32 + 2 * f + CLUSTER_SECTORS <= |d|
    && d[0] == boot && d[1] == info && d[6] == backup && d[7] == info
    && d[32] == head && d[32 + f] == head && d[32 + 2 * f] == root
    && (forall i :: 33 <= i < 32 + f ==> d[i] == ZeroSector())
    && (forall i :: 33 + f <= i < 32 + 2 * f ==> d[i] == ZeroSector())
    && (forall i :: 33 + 2 * f <= i < 32 + 2 * f + CLUSTER_SECTORS ==> d[i] == ZeroSector())
  }

  ghost predicate Formatted(d: Disk, volLabel: seq<Byte>)
    requires |volLabel| == 11 && |d| < U32_RANGE
  {
    Laid(d, FatSize(|d|), BootSector(|d|, volLabel), InfoSector(|d|), BackupSector(|d|, volLabel), FatHead(), LabelSector(volLabel))
  }

  /** `k` sectors from `start` zeroed, nothing else touched. */
  ghost predicate Zeroed(a: Disk, b: Disk, start: nat, k: nat) {
    && |a| == |b|
    && (forall i :: start <= i < start + k && i < |b| ==> b[i] == ZeroSector())
    && (forall i :: 0 <= i < |b| && !(start <= i < start + k) ==> b[i] == a[i])
  }

  method ZeroRun(table: DeviceTable, dev: nat, start: nat, k: nat) returns (ok: bool)
    requires dev < |table.disks|
    modifies table
    ensures |table.disks| == |old(table.disks)|
    ensures ok ==> Zeroed(old(table.disks[dev]), table.disks[dev], start, k) && (k > 0 ==> start + k <= |table.disks[dev]|)
    ensures ok <==> table.failures == old(table.failures)
    ensures forall d :: 0 <= d < |table.disks| && d != dev ==> table.disks[d] == old(table.disks[d])
  {
    for i := 0 to k
      invariant |table.disks| == |old(table.disks)|
      invariant Zeroed(old(table.disks[dev]), table.disks[dev], start, i) && (i > 0 ==> start + i <= |table.disks[dev]|)
      invariant table.failures == old(table.failures)
      invariant forall d :: 0 <= d < |table.disks| && d != dev ==> table.disks[d] == old(table.disks[d])
    {
      ok := table.Write(dev, start + i, ZeroSector());
      if !ok {
        return;
      }
    }
    return true;
  }

  /** One region: a zeroed run whose first sector was then written. */
  ghost predicate RegionWritten(a: Disk, b: Disk, start: nat, k: nat, head: Sector) {
    && |a| == |b| && start + k <= |b| && start < |b|
    && b[start] == head
    && (forall i :: start < i < start + k ==> b[i] == ZeroSector())
    && (forall i :: 0 <= i < |b| && i != start && !(start <= i < start + k) ==> b[i] == a[i])
  }

  method WriteRegion(table: DeviceTable, dev: nat, start: nat, k: nat, head: Sector) returns (ok: bool)
    requires dev < |table.disks|
    modifies table
    ensures |table.disks| == |old(table.disks)|
    ensures ok ==> RegionWritten(old(table.disks[dev]), table.disks[dev], start, k, head)
    ensures ok <==> table.failures == old(table.failures)
    ensures forall d :: 0 <= d < |table.disks| && d != dev ==> table.disks[d] == old(table.disks[d])
  {
    ok := ZeroRun(table, dev, start, k);
    if ok {
      ok := table.Write(dev, start, head);
    }
  }

  method WriteHeads(table: DeviceTable, dev: nat, boot: Sector, info: Sector, backup: Sector) returns (ok: bool)
    requires dev < |table.disks|
    modifies table
    ensures |table.disks| == |old(table.disks)|
    ensures ok ==> var d := table.disks[dev];
      && 8 <= |d| == |old(table.disks[dev])| && d[0] == boot && d[1] == info && d[6] == backup && d[7] == info
    ensures ok <==> table.failures == old(table.failures)
    ensures forall d :: 0 <= d < |table.disks| && d != dev ==> table.disks[d] == old(table.disks[d])
  {
    ok := table.Write(dev, 0, boot);
    if !ok { return; }
    ok := table.Write(dev, 1, info);
    if !ok { return; }
    ok := table.Write(dev, 6, backup);
    if !ok { return; }
    ok := table.Write(dev, 7, info);
  }

  /** fat32_format. A device too small for the root directory makes some write fail. */
  method FormatDevice(table: DeviceTable, dev: nat, name: seq<Byte>) returns (ok: bool)
    requires dev < |table.disks| && |table.disks[dev]| < U32_RANGE
    modifies table
    ensures |table.disks| == |old(table.disks)| && (ok ==> |table.disks[dev]| == |old(table.disks[dev])|)
    ensures ok ==> Formatted(table.disks[dev], Label11(name))
    ensures forall d :: 0 <= d < |table.disks| && d != dev ==> table.disks[d] == old(table.disks[d])
    ensures ok <==> table.failures == old(table.failures)
  {
    hide FatSize, BootSector, BackupSector, InfoSector, LabelSector, FatHead, Laid, Label11, RegionWritten;
    var n := |table.disks[dev]|;
    var volLabel := Label11(name);
    FatSizePositive(n);
    var f := FatSize(n);
    ok := WriteHeads(table, dev, BootSector(n, volLabel), InfoSector(n), BackupSector(n, volLabel));
    if !ok { return; }
    ghost var d1 := table.disks[dev];
    ok := WriteRegion(table, dev, RESERVED_SECTORS, f, FatHead());
    if !ok { return; }
    ghost var d2 := table.disks[dev];
    ok := WriteRegion(table, dev, RESERVED_SECTORS + f, f, FatHead());
    if !ok { return; }
    ghost var d3 := table.disks[dev];
    ok := WriteRegion(table, dev, RESERVED_SECTORS + 2 * f, CLUSTER_SECTORS, LabelSector(volLabel));
    if !ok { return; }
    RegionsLaid(d1, d2, d3, table.disks[dev], f, BootSector(n, volLabel), InfoSector(n), BackupSector(n, volLabel),
                FatHead(), LabelSector(volLabel));
  }

  lemma FatSizePositive(n: nat)
    ensures 8 <= n ==> 1 <= FatSize(n)
  {
  }

  lemma RegionsLaid(d1: Disk, d2: Disk, d3: Disk, d4: Disk, f: nat,
                    boot: Sector, info: Sector, backup: Sector, head: Sector, root: Sector)
    requires 1 <= f && 8 <= |d1|
    requires d1[0] == boot && d1[1] == info && d1[6] == backup && d1[7] == info
    requires RegionWritten(d1, d2, 32, f, head)
    requires RegionWritten(d2, d3, 32 + f, f, head)
    requires RegionWritten(d3, d4, 32 + 2 * f, CLUSTER_SECTORS, root)
    ensures |d4| == |d1| && Laid(d4, f, boot, info, backup, head, root)
  {
  }

  /** The boot-sector checks of fat32_mount. */
  predicate Accepts(b: Bpb) {
    && b.signed && b.bytesPerSector == BLOCK_SIZE && b.numFats == 2 && b.fat32
    && 2 <= b.rootCluster && 1 <= b.sectorsPerCluster <= 8
  }

  /** The placement fat32_mount computes, in 32-bit arithmetic. */
  function MountGeometry(dev: nat, b: Bpb): Geometry
    requires Accepts(b)
  {
    var dataStart := (b.reserved + b.numFats * b.fatSize32) % U32_RANGE;
    var total := if b.total32 != 0 then b.total32 else b.total16;
    Geometry(dev, b.reserved, (b.reserved + b.fatSize32) % U32_RANGE, dataStart, b.sectorsPerCluster,
             (total - dataStart) % U32_RANGE / b.sectorsPerCluster, b.fsInfo, b.backup)
  }

  /** The allocator fields fat32_mount starts with, from the FSInfo sector if it could be read. */
  function MountFree(total: nat, info: Option<Sector>): nat {
    var stored := if info.Some? && IsFsInfo(info.value) && Load32(info.value, TRAIL_SIG_AT) == TRAIL_SIG
      then Load32(info.value, FREE_COUNT_AT) else 0;
    if stored == 0 || stored > total then (if total > 1 then total - 1 else 0) else stored
  }

  function MountNext(total: nat, info: Option<Sector>): Word {
    var stored: Word := if info.Some? && IsFsInfo(info.value) && Load32(info.value, TRAIL_SIG_AT) == TRAIL_SIG
      then Load32(info.value, NEXT_FREE_AT) else 0;
    if stored < 2 || stored > total + 1 then 2 else stored
  }

  /** fat32_mount, reading the device directly. */
  method Mount(cache: Cache, dev: nat) returns (vol: Volume?, ghost info: Option<Sector>)
    requires cache.Valid() && dev < |cache.table.disks|
    modifies cache.table
    ensures cache.Valid() && Quiet(old(cache.W()), cache.W()) && cache.slots[..] == old(cache.slots[..])
    ensures cache.table.disks == old(cache.table.disks) && cache.table.history == old(cache.table.history)
    ensures vol != null ==> fresh(vol) && 0 < |cache.table.disks[dev]| && var b := ReadBpb(cache.table.disks[dev][0]);
      && Accepts(b) && vol.cache == cache && vol.g == MountGeometry(dev, b)
      && vol.freeClusters == MountFree(vol.g.totalClusters, info)
      && vol.nextFree == MountNext(vol.g.totalClusters, info)
      && (info.Some? ==> info == OnDisk(cache.table.disks, dev, vol.g.fsInfoSector))
    ensures cache.table.failures == old(cache.table.failures) ==>
      && 0 < |cache.table.disks[dev]|
      && (vol != null <==> Accepts(ReadBpb(cache.table.disks[dev][0])))
      && (vol != null ==> info == OnDisk(cache.table.disks, dev, vol.g.fsInfoSector) && info.Some?)
  {
    ghost var w0 := cache.W();
    info := None;
    var ok, sector := cache.DirectRead(dev, 0);
    if !ok {
      return null, None;
    }
    var b := ReadBpb(sector);
    if !Accepts(b) {
      return null, None;
    }
    var g := MountGeometry(dev, b);
    ghost var w1 := cache.W();
    var counts;
    ok, counts := cache.DirectRead(dev, g.fsInfoSector);
    QuietTransitive(w0, w1, cache.W());
    var found := if ok then Some(counts) else None;
    info := found;
    MountFreeIsWord(g, b, dev, found);
    vol := new Volume(cache, g, MountFree(g.totalClusters, found), MountNext(g.totalClusters, found));
  }

  lemma MountFreeIsWord(g: Geometry, b: Bpb, dev: nat, info: Option<Sector>)
    requires Accepts(b) && g == MountGeometry(dev, b)
    ensures MountFree(g.totalClusters, info) < U32_RANGE
  {
    Locate((if b.total32 != 0 then b.total32 else b.total16) % U32_RANGE, b.sectorsPerCluster);
  }

  /** The boot sector still tells this placement, and FSInfo does not lie in its place; a signed FSInfo
      sector has all its signatures. */
  ghost predicate Bootable(g: Geometry, w: World)
    requires Mounted(g, w)
  {
    var v := View(w, g.dev);
    && g.fsInfoSector != 0 && SignedWhole(v[g.fsInfoSector])
    && Accepts(ReadBpb(v[0])) && MountGeometry(g.dev, ReadBpb(v[0])) == g
  }

  /** What fat32_mount makes of a free count that was stored: it is believed from 1 to the total. */
  function Believed(free: Word, total: Word): Word {
    if 1 <= free <= total then free else if total > 1 then total - 1 else 0
  }

  /** fat32_sync, then fat32_mount of the same device: the same volume, the free count and the hint that
      were stored, as far as mounting believes them. An exact count survives unless the volume is full:
      a stored zero reads as unknown. */
  method Remount(vol: Volume) returns (again: Volume?)
    requires vol.Valid() && Bootable(vol.g, vol.Now())
    modifies vol.cache.slots, vol.cache.table
    ensures vol.Valid() && Seen(vol.g, vol.Now()) == Seen(vol.g, old(vol.Now())) && Bootable(vol.g, vol.Now())
    ensures vol.cache.table.failures == old(vol.cache.table.failures) ==>
      && again != null && fresh(again) && again.cache == vol.cache && again.g == vol.g && again.Valid()
      && (1 <= vol.freeClusters <= vol.g.totalClusters ==> again.freeClusters == vol.freeClusters)
      && vol.g.totalClusters < U32_RANGE && again.freeClusters == Believed(vol.freeClusters, vol.g.totalClusters)
      && again.nextFree == (if 2 <= vol.nextFree <= vol.g.totalClusters + 1 then vol.nextFree else 2)
      && vol.cache.table.disks[vol.g.dev] == View(vol.Now(), vol.g.dev)
      && (old(vol.Exact()) ==> (again.Exact() <==> vol.freeClusters != 0 || vol.g.totalClusters == 1))
  {
    hide Mounted, Coherent, Abs, View, ReadBpb, MountGeometry, CountFree, Load32, IsFsInfo, FatWords, KeepsClean, Fat1Within, ElsewhereSame;
    ghost var w0 := vol.Now();
    VolumeBounds(vol.g, w0);
    again := null;
    var ok := vol.WriteBarrier();
    ghost var w1 := vol.Now();
    BootableKept(vol.g, w0, w1);
    if !ok {
      return;
    }
    VolumeBounds(vol.g, w1);
    CleanMeansOnDisk(w1, vol.g.dev);
    ghost var info;
    again, info := Mount(vol.cache, vol.g.dev);
    ghost var w2 := vol.Now();
    QuietVolume(vol.g, w1, w2);
    BootableSame(vol.g, w1, w2);
    if w2.failures == w0.failures {
      StoredBelieved(vol.g, w1, vol.freeClusters, vol.nextFree, info);
      if vol.freeClusters == FreeCount(Seen(vol.g, w0).fat1) {
        BelievedExactly(Seen(vol.g, w0).fat1, vol.g.totalClusters, vol.freeClusters);
      }
    }
  }

  lemma BootableKept(g: Geometry, w0: World, w1: World)
    requires Mounted(g, w0) && Mounted(g, w1) && Bootable(g, w0) && ReservedKept(g, w0, w1)
    ensures Bootable(g, w1)
  {
    hide View, ReadBpb, MountGeometry;
    assert View(w1, g.dev)[0] == View(w0, g.dev)[0];
  }

  lemma BootableSame(g: Geometry, w0: World, w1: World)
    requires Mounted(g, w0) && Mounted(g, w1) && Bootable(g, w0) && View(w1, g.dev) == View(w0, g.dev)
    ensures Bootable(g, w1)
  {
  }

  /** What a barrier recorded is what mounting takes up. */
  lemma StoredBelieved(g: Geometry, w: World, free: Word, next: Word, info: Option<Sector>)
    requires Mounted(g, w) && Bootable(g, w) && w.disks[g.dev] == View(w, g.dev) && Recorded(g, w, free, next)
    requires info == OnDisk(w.disks, g.dev, g.fsInfoSector) && info.Some?
    ensures g.totalClusters < U32_RANGE && MountFree(g.totalClusters, info) == Believed(free, g.totalClusters)
    ensures MountNext(g.totalClusters, info) == if 2 <= next <= g.totalClusters + 1 then next else 2
  {
    hide View, ReadBpb, Load32, Coherent;
  }

  /** An exact count is believed, except that of a full volume. */
  lemma BelievedExactly(f: seq<Word>, total: nat, free: Word)
    requires |f| == total + 2 < U32_RANGE && 1 <= total && free == FreeCount(f)
    ensures Believed(free, total) == FreeCount(f) <==> free != 0 || total == 1
  {
    CountWithin(f, |f|);
  }

  lemma {:induction false} CountWithin(f: seq<Word>, n: nat)
    requires n <= |f|
    ensures CountFree(f, n) <= if n < 2 then 0 else n - 2
  {
    if n > 2 {
      CountWithin(f, n - 1);
    }
  }

  /** A full volume of 507 clusters comes back with 506 clusters free. */
  lemma FullVolumeForgets()
    ensures Believed(0, 507) == 506
  {
  }

  /** Mounting a formatted device accepts it and finds the layout that was formatted. */
  lemma MountFindsFormat(dev: nat, n: Word, volLabel: seq<Byte>)
    requires |volLabel| == 11 && DataStart(n) + CLUSTER_SECTORS <= n
    ensures Accepts(ReadBpb(BootSector(n, volLabel)))
    ensures MountGeometry(dev, ReadBpb(BootSector(n, volLabel))) == FormatGeometry(dev, n)
  {
    hide ReadBpb, BootSector;
    BootRoundTrip(n, volLabel);
    assert (n - DataStart(n)) % U32_RANGE == n - DataStart(n);
  }

  /** The regions of a formatted device are disjoint and on the device, every cluster has an entry
      in one FAT, and all of that amounts to a usable volume exactly when no cluster number runs
      into the reserved 28-bit values. */
  lemma FormatFits(dev: nat, n: nat)
    requires n < U32_RANGE && DataStart(n) + CLUSTER_SECTORS <= n
    ensures var g := FormatGeometry(dev, n);
      && g.backupBootSector + 1 < g.fatStart < g.fat2Start < g.dataStart < n
      && g.fat2Start - g.fatStart == g.dataStart - g.fat2Start == FatSize(n)
      && FatSectors(g.totalClusters + 2) <= FatSize(n)
      && g.dataStart + g.totalClusters * g.sectorsPerCluster <= n
      && (g.Fits(n) <==> Clusters(n) + 1 < FAT32_BAD)
  {
    var g := FormatGeometry(dev, n);
    g.SpanIsProduct(g.totalClusters);
    FormatCounts(n);
  }

  lemma FormatCounts(n: nat)
    requires n < U32_RANGE && DataStart(n) + CLUSTER_SECTORS <= n
    ensures 1 <= FatSize(n) && 1 <= Clusters(n) <= Estimate(n) - 4
    ensures Clusters(n) * 8 <= n - DataStart(n)
  {
  }

  /** A device of 2^32 - 1 sectors formats and mounts, but its last clusters cannot be linked to:
      their numbers read back as end-of-chain. */
  lemma LargestDeviceDoesNotFit()
    ensures var n := 0xFFFF_FFFF;
      && DataStart(n) + CLUSTER_SECTORS <= n
      && !FormatGeometry(0, n).Fits(n)
      && FormatGeometry(0, n).InRange(FAT32_EOC) && IsEoc(FAT32_EOC % ENTRY_RANGE)
  {
  }

  /** The free count that FSInfo stores is always too large to be believed, so mounting computes
      its own, and the search starts at cluster 3 when there is one. */
  lemma MountRecounts(n: Word)
    requires DataStart(n) + CLUSTER_SECTORS <= n
    ensures MountFree(Clusters(n), Some(InfoSector(n))) == Clusters(n) - 1
    ensures MountNext(Clusters(n), Some(InfoSector(n))) == if Clusters(n) > 1 then 3 else 2
  {
    FormatCounts(n);
    CountsAreStored(ZeroSector(), StoredFree(n), 3);
    ZeroIsNoFsInfo();
  }

  lemma ZeroIsNoFsInfo()
    ensures !IsFsInfo(ZeroSector())
  {
    assert Load32(ZeroSector(), 0) == 0;
  }

  /** The FAT words of a formatted volume: three reserved or end-of-chain entries, then zeros. */
  function FreshWord(c: nat): Word {
    if c == 0 then 0x0FFF_FFF8 else if c <= 2 then 0x0FFF_FFFF else 0
  }

  lemma FatHeadWord(k: nat)
    requires k < 128
    ensures Load32(FatHead(), 4 * k) == FreshWord(k)
  {
    hide Load32, Store32;
    var a := Store32(ZeroSector(), 4 * 0, 0x0FFF_FFF8);
    var b := Store32(a, 4 * 1, 0x0FFF_FFFF);
    ZeroWord(k);
    StoredWord(ZeroSector(), 0, 0x0FFF_FFF8, k);
    StoredWord(a, 1, 0x0FFF_FFFF, k);
    StoredWord(b, 2, 0x0FFF_FFFF, k);
  }

  lemma ZeroWord(k: nat)
    requires k < 128
    ensures Load32(ZeroSector(), 4 * k) == 0
  {
  }

  /** A FAT region with `FatHead` in its first sector and zeros after it. */
  lemma FreshFat(d: Disk, start: nat, f: nat, count: nat)
    requires 3 <= count && FatSectors(count) <= f && start + f <= |d|
    requires d[start] == FatHead() && forall i :: start < i < start + f ==> d[i] == ZeroSector()
    ensures forall c :: 0 <= c < count ==> FatWords(d, start, count)[c] == FreshWord(c)
  {
    hide Load32, FatHead;
    forall c | 0 <= c < count ensures FatWords(d, start, count)[c] == FreshWord(c) {
      EntryPlace(c, count);
      if c < 128 {
        FatHeadWord(c);
      } else {
        ZeroWord(c % 128);
      }
    }
  }

  lemma {:induction false} FreshCount(f: seq<Word>, n: nat)
    requires 3 <= n <= |f| && forall c :: 0 <= c < |f| ==> f[c] == FreshWord(c)
    ensures CountFree(f, n) == n - 3
  {
    if n > 3 {
      FreshCount(f, n - 1);
    } else {
      assert CountFree(f, 2) == 0;
    }
  }

  /** A formatted volume that fits is sound: one chain, the root directory; both FATs equal; every
      other cluster free; no dangling link; and the mounted free count is exact. */
  lemma FormattedIsSound(dev: nat, d: Disk, volLabel: seq<Byte>)
    requires |volLabel| == 11 && |d| < U32_RANGE && Formatted(d, volLabel)
    requires Clusters(|d|) + 1 < FAT32_BAD
    ensures var g := FormatGeometry(dev, |d|);
      && g.Fits(|d|)
      && var v := Abs(g, d);
        && v.fat1 == v.fat2
        && Sound(v.fat1, [[2]]) && NoDangling(v.fat1) && NoLinks(v.fat1)
        && FreeCount(v.fat1) == Clusters(|d|) - 1 == MountFree(Clusters(|d|), Some(d[1]))
  {
    hide BootSector, BackupSector, LabelSector, InfoSector, FatHead, MountFree, CountFree, Abs;
    var g := FormatGeometry(dev, |d|);
    var count := g.totalClusters + 2;
    var f := FatSize(|d|);
    FormatFits(dev, |d|);
    FormatCounts(|d|);
    FreshFat(d, 32, f, count);
    FreshFat(d, 32 + f, f, count);
    AbsFats(g, d);
    var v := Abs(g, d);
    FreshCount(v.fat1, count);
    MountRecounts(|d|);
    FreshLinks(v.fat1);
  }

  /** No entry links to a cluster. */
  ghost predicate NoLinks(f: seq<Word>) { forall c :: 2 <= c < |f| ==> !(2 <= Entry(f, c) < |f|) }

  lemma AbsFats(g: Geometry, d: Disk)
    requires g.Fits(|d|)
    ensures Abs(g, d).fat1 == FatWords(d, g.fatStart, g.totalClusters + 2)
    ensures Abs(g, d).fat2 == FatWords(d, g.fat2Start, g.totalClusters + 2)
  {
  }

  lemma FreshLinks(f: seq<Word>)
    requires 3 <= |f| <= FAT32_BAD && forall c :: 0 <= c < |f| ==> f[c] == FreshWord(c)
    ensures Sound(f, [[2]]) && NoDangling(f) && NoLinks(f)
  {
    assert IsChain(f, [2]);
    forall c | 2 <= c < |f| ensures LinkHeld(f, c) {
    }
  }
}
