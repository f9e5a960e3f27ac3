/** What the file calls of fs/vfs.c do to the volume for one file: syncing its entry, writing,
    truncating, creating, removing. */
module VfsFiles {
  import opened Blocks
  import opened SectorCache
  import opened FatTable
  import opened VolumeState
  import opened Chains
  import opened FileBytes
  import opened Fat32
  import opened ChainIO
  import opened ShortNames
  import opened DirSlots
  import opened Directory
  import opened DirWrite
  import opened WriteOrder
  import opened FileSystem
  import opened Threading
  import opened FileSpec

  const VFS_MAX_OPEN_FILES: nat := 16
  const VFS_OK: int := 0
  const VFS_ERR_NOTFOUND: int := -1
  const VFS_ERR_NOSPACE: int := -3
  const VFS_ERR_IO: int := -4
  const VFS_ERR_BADFD: int := -5
  const VFS_ERR_BADPATH: int := -6
  const VFS_ERR_ISDIR: int := -8
  const VFS_ERR_NOMEM: int := -11
  const VFS_ERR_READONLY: int := -12

  /** One descriptor. */
  datatype VfsFile = VfsFile(open: bool, startCluster: Word, fileSize: Word, position: Word, flags: Flags,
                             entryLba: nat, entryOffset: nat)

  /** Whose descriptor it is, and where the entry lies in the directory. */
  datatype Place = Place(key: Key, k: nat, i: nat, s: nat)

  /** The device, as every reader sees it and as it is, holds the file system `fs`. */
  ghost predicate VolOk(g: Geometry, w: World, root: nat, fs: FileSys, slots: seq<Slot32>) {
    && Mounted(g, w) && w.disks[g.dev] == View(w, g.dev)
    && FsOk(Seen(g, w), g.BytesPerCluster(), root, fs, {})
    && DirReads(Seen(g, w), g.BytesPerCluster(), fs.dch, slots)
  }

  /** The place of a file's entry. */
  ghost predicate Placed(g: Geometry, fs: FileSys, slots: seq<Slot32>, p: Place, lba: nat, off: nat) {
    && p.key in fs.nodes && p.key in fs.dir
    && p.k < |slots| && Live(slots[p.k]) && slots[p.k] == fs.dir[p.key] && KeyOf(slots[p.k]) == p.key
    && EntryPlaced(g, fs.dch, p.k, lba, off, p.i, p.s)
  }

  /** A descriptor's start cluster and size are those of its file. */
  ghost predicate Tells(f: VfsFile, n: Node) {
    |n.ch| > 0 && f.startCluster == n.ch[0] && f.fileSize == |n.bytes|
  }

  /** A file whose entry is about to be rewritten, with the entry's sector already on the device. */
  ghost predicate Unsynced(g: Geometry, w: World, root: nat, fs: FileSys, slots: seq<Slot32>, f: VfsFile, p: Place) {
    && Mounted(g, w)
    && FsOk(Seen(g, w), g.BytesPerCluster(), root, fs, {p.key})
    && DirReads(Seen(g, w), g.BytesPerCluster(), fs.dch, slots)
    && Placed(g, fs, slots, p, f.entryLba, f.entryOffset) && Tells(f, fs.nodes[p.key])
    && fs.dch[p.i] < |Stored(g, w).data| && fs.dch[p.i] < |Seen(g, w).data|
    && Stored(g, w).data[fs.dch[p.i]] == Seen(g, w).data[fs.dch[p.i]]
  }

  lemma DirAsEntries(g: Geometry, w: World, root: nat, fs: FileSys, slots: seq<Slot32>, stale: set<Key>)
    requires Mounted(g, w) && FsOk(Seen(g, w), g.BytesPerCluster(), root, fs, stale)
    requires DirReads(Seen(g, w), g.BytesPerCluster(), fs.dch, slots)
    ensures IsDir(g, w, fs.dch, root) && Entries(g, w, fs.dch) == slots
    ensures Represents(slots, fs.dir)
  {
    hide Represents, Slots, Content, Mounted, Abs;
  }

  lemma EntriesAsDir(g: Geometry, w: World, dch: seq<nat>, root: nat)
    requires IsDir(g, w, dch, root)
    ensures DirReads(Seen(g, w), g.BytesPerCluster(), dch, Entries(g, w, dch))
  {
    MountedUniform(g, w);
  }

  /** A cluster whose bytes are on the device: its sectors are. */
  lemma CleanSector(g: Geometry, w: World, c: nat, s: nat)
    requires Mounted(g, w) && g.InRange(c) && s < g.sectorsPerCluster
    requires Stored(g, w).data[c] == Seen(g, w).data[c]
    ensures g.ClusterLba(c) + s < |w.disks[g.dev]| == |View(w, g.dev)|
    ensures w.disks[g.dev][g.ClusterLba(c) + s] == View(w, g.dev)[g.ClusterLba(c) + s]
  {
    ClusterOnDevice(g, |w.disks[g.dev]|, c);
    EqualBytesEqualSectors(w.disks[g.dev], View(w, g.dev), g.ClusterLba(c), g.sectorsPerCluster);
  }

  /** The 32 bytes at an entry's place are the entry. */
  lemma EntryInSector(g: Geometry, w: World, dch: seq<nat>, k: nat, lba: nat, off: nat, i: nat, s: nat)
    requires Mounted(g, w) && IsChain(Seen(g, w).fat1, dch) && EntryPlaced(g, dch, k, lba, off, i, s)
    ensures lba < |View(w, g.dev)| && k < |Entries(g, w, dch)| && off + ENTRY_SIZE <= BLOCK_SIZE
    ensures View(w, g.dev)[lba][off..off + ENTRY_SIZE] == Entries(g, w, dch)[k]
  {
    hide Mounted, Entries, Abs, Coherent, View, IsChain, Slots;
    VolumeBounds(g, w);
    DirSector(g, w, dch, i, s);
    SlotInSector(View(w, g.dev)[lba], off);
    var n := PER_SECTOR * SectorNumber(g, i, s);
    assert Entries(g, w, dch)[k] == Entries(g, w, dch)[n..n + PER_SECTOR][off / ENTRY_SIZE];
  }

  lemma SlotInSector(sector: Sector, off: nat)
    requires off % ENTRY_SIZE == 0 && off < BLOCK_SIZE
    ensures off / ENTRY_SIZE < PER_SECTOR && off + ENTRY_SIZE <= BLOCK_SIZE && |Slots(sector)| == PER_SECTOR
    ensures Slots(sector)[off / ENTRY_SIZE] == sector[off..off + ENTRY_SIZE]
  {
  }

  /** vfs_sync_open_file: the entry read straight from the device, changed, written back, flushed. */
  method SyncOpenFile(vol: Volume, f: VfsFile, ghost root: nat, ghost fs: FileSys, ghost slots: seq<Slot32>, ghost p: Place)
    returns (ok: bool)
    requires vol.Valid() && EntryPlaced(vol.g, fs.dch, p.k, f.entryLba, f.entryOffset, p.i, p.s)
    modifies vol.cache.slots, vol.cache.table
    ensures vol.Valid() && Step(vol.g, old(vol.Now()), vol.Now())
    ensures ok <==> vol.cache.table.failures == old(vol.cache.table.failures)
    ensures ok ==> Clean(vol.Now(), vol.g.dev)
    ensures Seen(vol.g, vol.Now()).fat1 == Seen(vol.g, old(vol.Now())).fat1
    ensures old(Ordered(vol.g, vol.Now())) ==> CrashSafe(vol.g, old(vol.Now()), vol.Now()) && Ordered(vol.g, vol.Now())
    ensures ok && Unsynced(vol.g, old(vol.Now()), root, fs, slots, f, p) ==>
      var e := Restart(slots[p.k], f.startCluster, f.fileSize);
      VolOk(vol.g, vol.Now(), root, fs.(dir := fs.dir[p.key := e]), slots[p.k := e])
  {
    hide Mounted, Coherent, ElsewhereSame, Fat1Within, KeepsClean, Abs, FatWords, SameShape, Quiet, Wrote, Step,
         SectorBytes, View, IsChain, Entries, WithEntry, FsOk, DirReads, Live, KeyOf, Restart, Rewritten, Clean,
         IsDir;
    var g := vol.g;
    ghost var w0 := vol.Now();
    VolumeBounds(g, w0);
    var sector;
    ok, sector := vol.cache.DirectRead(g.dev, f.entryLba);
    ghost var w1 := vol.Now();
    QuietVolume(g, w0, w1);
    QuietIsCrashSafe(g, w0, w1);
    if !ok {
      return;
    }
    assert f.entryOffset + ENTRY_SIZE <= BLOCK_SIZE;
    var entry := Restart(sector[f.entryOffset..f.entryOffset + ENTRY_SIZE], f.startCluster, f.fileSize);
    ok := UpdateDirEntry(vol, f.entryLba, f.entryOffset, entry, fs.dch, root, p.k, p.i, p.s);
    ghost var w2 := vol.Now();
    StepTransitive(g, w0, w1, w2);
    if Ordered(g, w0) {
      CrashSafeTransitive(g, w0, w1, w2);
    }
    if !ok {
      return;
    }
    VolumeBounds(g, w2);
    ok := vol.cache.Flush(g.dev);
    ghost var w3 := vol.Now();
    QuietVolume(g, w2, w3);
    QuietIsCrashSafe(g, w2, w3);
    StepTransitive(g, w0, w2, w3);
    if Ordered(g, w0) {
      CrashSafeTransitive(g, w0, w2, w3);
    }
    if ok && Unsynced(g, w0, root, fs, slots, f, p) {
      SyncReads(g, w0, w1, root, fs, slots, f, p, sector);
      SyncDone(g, w1, w2, w3, root, fs, slots, f, p);
    }
  }

  /** The end of vfs_write. */
  method SyncAndFlush(vol: Volume, f: VfsFile, ghost root: nat, ghost fs: FileSys, ghost slots: seq<Slot32>, ghost p: Place)
    returns (ok: bool)
    requires vol.Valid() && EntryPlaced(vol.g, fs.dch, p.k, f.entryLba, f.entryOffset, p.i, p.s)
    modifies vol.cache.slots, vol.cache.table
    ensures vol.Valid() && Step(vol.g, old(vol.Now()), vol.Now())
    ensures ok <==> vol.cache.table.failures == old(vol.cache.table.failures)
    ensures ok ==> Clean(vol.Now(), vol.g.dev)
    ensures Seen(vol.g, vol.Now()).fat1 == Seen(vol.g, old(vol.Now())).fat1
    ensures old(Ordered(vol.g, vol.Now())) ==> CrashSafe(vol.g, old(vol.Now()), vol.Now()) && Ordered(vol.g, vol.Now())
    ensures ok && Unsynced(vol.g, old(vol.Now()), root, fs, slots, f, p) ==>
      var e := Restart(slots[p.k], f.startCluster, f.fileSize);
      VolOk(vol.g, vol.Now(), root, fs.(dir := fs.dir[p.key := e]), slots[p.k := e])
  {
    hide Mounted, Coherent, ElsewhereSame, Abs, SameShape, Quiet, Step, View, FsOk, DirReads, Restart, Clean,
         VolOk, Unsynced;
    var g := vol.g;
    ghost var w0 := vol.Now();
    ok := SyncOpenFile(vol, f, root, fs, slots, p);
    ghost var w1 := vol.Now();
    StepBounds(g, w0, w1);
    VolumeBounds(g, w1);
    if !ok {
      return;
    }
    ok := vol.cache.Flush(g.dev);
    ghost var w2 := vol.Now();
    QuietVolume(g, w1, w2);
    QuietIsCrashSafe(g, w1, w2);
    StepTransitive(g, w0, w1, w2);
    if Ordered(g, w0) {
      CrashSafeTransitive(g, w0, w1, w2);
    }
    if ok && Unsynced(g, w0, root, fs, slots, f, p) {
      UnsyncedFacts(g, w0, root, fs, slots, f, p);
      VolOkQuiet(g, w1, w2, root, fs.(dir := fs.dir[p.key := Restart(slots[p.k], f.startCluster, f.fileSize)]),
                 slots[p.k := Restart(slots[p.k], f.startCluster, f.fileSize)]);
    }
  }

  lemma UnsyncedFacts(g: Geometry, w: World, root: nat, fs: FileSys, slots: seq<Slot32>, f: VfsFile, p: Place)
    requires Unsynced(g, w, root, fs, slots, f, p)
    ensures p.k < |slots|
  {
  }

  /** The direct read of the entry's sector finds the entry that readers see. */
  lemma SyncReads(g: Geometry, w0: World, w1: World, root: nat, fs: FileSys, slots: seq<Slot32>, f: VfsFile, p: Place, sector: Sector)
    requires Unsynced(g, w0, root, fs, slots, f, p) && Mounted(g, w1) && Seen(g, w1) == Seen(g, w0)
    requires f.entryLba < |w1.disks[g.dev]| && w1.disks == w0.disks && sector == w1.disks[g.dev][f.entryLba]
    ensures f.entryOffset + ENTRY_SIZE <= BLOCK_SIZE && sector[f.entryOffset..f.entryOffset + ENTRY_SIZE] == slots[p.k]
    ensures IsDir(g, w1, fs.dch, root) && Entries(g, w1, fs.dch) == slots
  {
    hide Mounted, Coherent, Abs, View, FsOk, DirReads, Live, KeyOf, Entries, Represents;
    DirAsEntries(g, w0, root, fs, slots, {p.key});
    DirAsEntries(g, w1, root, fs, slots, {p.key});
    CleanSector(g, w0, fs.dch[p.i], p.s);
    EntryInSector(g, w0, fs.dch, p.k, f.entryLba, f.entryOffset, p.i, p.s);
  }

  lemma RewrittenGrown(v0: FatImage, v1: FatImage, ch0: seq<nat>, ch1: seq<nat>, m: nat, off: nat, piece: seq<Byte>)
    requires Rewritten(v0, v1, ch0, ch1, m, off, piece)
    ensures Grown(v0, v1, ch0, ch1, m)
  {
  }

  lemma SyncDone(g: Geometry, w1: World, w2: World, w3: World, root: nat, fs: FileSys, slots: seq<Slot32>, f: VfsFile, p: Place)
    requires Mounted(g, w1) && FsOk(Seen(g, w1), g.BytesPerCluster(), root, fs, {p.key})
    requires DirReads(Seen(g, w1), g.BytesPerCluster(), fs.dch, slots)
    requires Placed(g, fs, slots, p, f.entryLba, f.entryOffset) && Tells(f, fs.nodes[p.key])
    requires Mounted(g, w2) && IsDir(g, w2, fs.dch, root) && IsDir(g, w1, fs.dch, root) && Entries(g, w1, fs.dch) == slots
    requires var e := Restart(slots[p.k], f.startCluster, f.fileSize);
      && Entries(g, w2, fs.dch) == WithEntry(slots, p.k, e)
      && Rewritten(Seen(g, w1), Seen(g, w2), fs.dch, fs.dch, g.BytesPerCluster(), ENTRY_SIZE * p.k, e)
    requires Mounted(g, w3) && Seen(g, w3) == Seen(g, w2) && w3.disks[g.dev] == View(w3, g.dev)
    ensures var e := Restart(slots[p.k], f.startCluster, f.fileSize);
      VolOk(g, w3, root, fs.(dir := fs.dir[p.key := e]), slots[p.k := e])
  {
    hide Mounted, Coherent, Abs, View, FsOk, DirReads, Live, KeyOf, Entries, Represents, EntryCluster,
         EntrySize, Restart, EntryPlaced, IsChain, Grown, IsDir, Content, Rewritten;
    var e := Restart(slots[p.k], f.startCluster, f.fileSize);
    assert e + slots[p.k][ENTRY_SIZE..] == e;
    EntriesAsDir(g, w2, fs.dch, root);
    RewrittenGrown(Seen(g, w1), Seen(g, w2), fs.dch, fs.dch, g.BytesPerCluster(), ENTRY_SIZE * p.k, e);
    EntryStamped(Seen(g, w1), Seen(g, w2), g.BytesPerCluster(), root, fs, p.key, slots, p.k, e);
  }

  /** Reads, evictions and flushes keep the volume as it is. */
  lemma VolOkQuiet(g: Geometry, w0: World, w1: World, root: nat, fs: FileSys, slots: seq<Slot32>)
    requires VolOk(g, w0, root, fs, slots) && Mounted(g, w1) && Seen(g, w1) == Seen(g, w0) && w1.disks[g.dev] == View(w1, g.dev)
    ensures VolOk(g, w1, root, fs, slots)
  {
    hide Mounted, FsOk, DirReads, Abs, View;
  }

  /** The descriptor after a write of `n` bytes at its position. */
  function AfterWrite(f: VfsFile, newStart: Word, n: nat): VfsFile {
    var end := (f.position + n) % U32_RANGE;
    f.(startCluster := newStart, fileSize := if end > f.fileSize then end else f.fileSize, position := end)
  }

  /** A write moves the position by what it wrote and keeps what the descriptor is for. */
  lemma AfterWriteMoves(f: VfsFile, newStart: Word, n: nat)
    requires f.position + n < U32_RANGE
    ensures var f1 := AfterWrite(f, newStart, n);
      && f1.position == f.position + n && f1.fileSize == (if f.position + n > f.fileSize then f.position + n else f.fileSize)
      && f1.startCluster == newStart && f1.open == f.open && f1.flags == f.flags
      && f1.entryLba == f.entryLba && f1.entryOffset == f.entryOffset
  {
  }

  /** What fat32_write_chain leaves is the file with its new bytes, its entry not yet rewritten. */
  lemma WriteUnsynced(g: Geometry, w0: World, w1: World, root: nat, fs: FileSys, slots: seq<Slot32>, f: VfsFile, p: Place,
                      buf: seq<Byte>, ch1: seq<nat>, newStart: Word)
    requires VolOk(g, w0, root, fs, slots) && f.open && f.position + |buf| < U32_RANGE
    requires Placed(g, fs, slots, p, f.entryLba, f.entryOffset) && Tells(f, fs.nodes[p.key])
    requires Mounted(g, w1) && KeepsClean(g, w0, w1, Members(ch1)) && buf != []
    requires g.BytesPerCluster() > 0
    requires Written(Seen(g, w0), Seen(g, w1), fs.nodes[p.key].ch, ch1, g.BytesPerCluster(), f.position, buf, newStart)
    ensures var n := Node(ch1, Overwritten(fs.nodes[p.key].bytes, f.position, buf));
      Unsynced(g, w1, root, WithNode(fs, p.key, n), slots, AfterWrite(f, newStart, |buf|), p)
  {
    hide Mounted, Coherent, Abs, View, FsOk, DirReads, Written, Live, KeyOf, IsChain, Content, Patched,
         Disjoint, Represents, KeepsClean, Tells, AfterWrite, Overwritten, Placed;
    VolumeBounds(g, w0);
    VolumeBounds(g, w1);
    PlacedFacts(g, fs, slots, p, f.entryLba, f.entryOffset);
    PlacedKept(g, fs, slots, p, f.entryLba, f.entryOffset, Node(ch1, Overwritten(fs.nodes[p.key].bytes, f.position, buf)));
    WrittenMeans(Seen(g, w0), Seen(g, w1), fs.nodes[p.key].ch, ch1, g.BytesPerCluster(), f.position, buf, newStart);
    WrittenNode(Seen(g, w0), Seen(g, w1), g.BytesPerCluster(), root, fs, slots, p.key, ch1, f.position, buf);
    AfterWriteTells(f, fs.nodes[p.key], ch1, newStart, buf);
    MemberNotIn(fs.dch, ch1, p.i);
    StaysClean(g, w0, w1, ch1, fs.dch[p.i]);
  }

  lemma PlacedFacts(g: Geometry, fs: FileSys, slots: seq<Slot32>, p: Place, lba: nat, off: nat)
    requires Placed(g, fs, slots, p, lba, off)
    ensures p.key in fs.nodes && p.key in fs.dir && p.i < |fs.dch| && g.InRange(fs.dch[p.i])
  {
  }

  lemma PlacedKept(g: Geometry, fs: FileSys, slots: seq<Slot32>, p: Place, lba: nat, off: nat, n: Node)
    requires Placed(g, fs, slots, p, lba, off)
    ensures Placed(g, WithNode(fs, p.key, n), slots, p, lba, off)
  {
  }

  lemma AfterWriteTells(f: VfsFile, n: Node, ch1: seq<nat>, newStart: Word, buf: seq<Byte>)
    requires Tells(f, n) && f.position + |buf| < U32_RANGE && buf != [] && |ch1| > 0 && ch1[0] == newStart
    ensures var f1 := AfterWrite(f, newStart, |buf|);
      && Tells(f1, Node(ch1, Overwritten(n.bytes, f.position, buf)))
      && f1.entryLba == f.entryLba && f1.entryOffset == f.entryOffset && f1.open == f.open
  {
  }

  lemma StaysClean(g: Geometry, w0: World, w1: World, ch1: seq<nat>, c: nat)
    requires Mounted(g, w0) && Mounted(g, w1) && KeepsClean(g, w0, w1, Members(ch1)) && w0.disks[g.dev] == View(w0, g.dev)
    requires g.InRange(c) && c !in ch1
    ensures c < |Stored(g, w1).data| && c < |Seen(g, w1).data| && Stored(g, w1).data[c] == Seen(g, w1).data[c]
  {
    VolumeBounds(g, w1);
    FlushedStored(g, w0);
  }

  lemma MemberNotIn(a: seq<nat>, b: seq<nat>, i: nat)
    requires Disjoint(a, b) && i < |a|
    ensures a[i] !in b
  {
  }

  lemma WrittenMeans(v0: FatImage, v1: FatImage, ch: seq<nat>, ch1: seq<nat>, m: nat, off: nat, buf: seq<Byte>, newStart: nat)
    requires m > 0 && buf != [] && Written(v0, v1, ch, ch1, m, off, buf, newStart)
    ensures |ch1| > 0 && ch1[0] == newStart && Rewritten(v0, v1, ch, ch1, m, off, buf) && off + |buf| <= |ch1| * m
  {
    hide Rewritten;
    InsideChain(m, off + |buf| - 1, |ch1|);
  }

  lemma WrittenNode(v0: FatImage, v1: FatImage, m: nat, root: nat, fs: FileSys, slots: seq<Slot32>, key: Key,
                    ch1: seq<nat>, off: nat, buf: seq<Byte>)
    requires FsOk(v0, m, root, fs, {}) && key in fs.nodes && DirReads(v0, m, fs.dch, slots)
    requires Rewritten(v0, v1, fs.nodes[key].ch, ch1, m, off, buf) && off + |buf| <= |ch1| * m
    ensures FsOk(v1, m, root, WithNode(fs, key, Node(ch1, Overwritten(fs.nodes[key].bytes, off, buf))), {key})
    ensures DirReads(v1, m, fs.dch, slots) && Disjoint(fs.dch, ch1)
  {
    hide Represents, Content, Slots, Patched, Grown, IsChain, NibblesKept, CopiesAgree, Disjoint, DataOk,
         EntryNames, Overwritten, DirReads, DirOk;
    NodeRewritten(v0, v1, m, root, fs, key, ch1, off, buf);
    DisjointSymmetric(fs.dch, fs.nodes[key].ch);
    DirReadsKept(v0, v1, fs.nodes[key].ch, ch1, m, fs.dch, slots);
  }

  /** vfs_write sets the size to the new position even when it wrote nothing: an empty write beyond
      the end claims bytes that no cluster holds. */
  predicate GrowsByBytes(f: VfsFile, buf: seq<Byte>) { buf != [] || f.position <= f.fileSize }

  /** Such a write: nothing, at position 20 of a file of ten bytes, makes its size 20. */
  lemma EmptyWriteClaimsBytes(bytes: seq<Byte>, flags: FileSpec.Flags)
    requires |bytes| == 10
    ensures var f := VfsFile(true, 2, 10, 20, flags, 0, 0);
      !GrowsByBytes(f, []) && AfterWrite(f, 2, 0).fileSize == 20 && |Overwritten(bytes, 20, [])| == 10
  {
  }

  lemma TellsStart(g: Geometry, w: World, f: VfsFile, n: Node)
    requires Tells(f, n) && Mounted(g, w) && ChainFrom(Seen(g, w).fat1, n.ch, n.ch[0])
    ensures Holds(Seen(g, w), f.startCluster, n.ch)
  {
  }

  /** After a refused write the volume holds a file system in which the file has the bytes written so
      far; its entry and its descriptor still tell the old size. Other files and the directory are as
      they were. */
  ghost predicate HalfWritten(g: Geometry, w: World, root: nat, fs: FileSys, slots: seq<Slot32>, key: Key, off: nat, buf: seq<Byte>) {
    && Mounted(g, w) && key in fs.nodes
    && exists ch1: seq<nat>, done: nat :: done <= |buf|
         && HalfNode(g, w, root, fs, slots, key, Node(ch1, Overwritten(fs.nodes[key].bytes, off, buf[..done])))
  }

  ghost predicate HalfNode(g: Geometry, w: World, root: nat, fs: FileSys, slots: seq<Slot32>, key: Key, n: Node)
    requires Mounted(g, w) && key in fs.nodes
  {
    && fs.nodes[key].ch <= n.ch
    && FsOk(Seen(g, w), g.BytesPerCluster(), root, WithNode(fs, key, n), {key})
    && DirReads(Seen(g, w), g.BytesPerCluster(), fs.dch, slots)
  }

  lemma RefusedLeaves(g: Geometry, w0: World, w1: World, root: nat, fs: FileSys, slots: seq<Slot32>, key: Key,
                      off: nat, buf: seq<Byte>, ch1: seq<nat>, done: nat, newStart: nat)
    requires VolOk(g, w0, root, fs, slots) && Mounted(g, w1) && key in fs.nodes
    requires PartWritten(Seen(g, w0), Seen(g, w1), fs.nodes[key].ch, ch1, g.BytesPerCluster(), off, buf, done, newStart)
    ensures HalfWritten(g, w1, root, fs, slots, key, off, buf)
  {
    hide Mounted, Coherent, Abs, View, FsOk, DirReads, Rewritten, IsChain;
    var bytes, piece := fs.nodes[key].bytes, buf[..done];
    FileChain(g, w0, root, fs, slots, fs.nodes[key]);
    RewrittenGrows(Seen(g, w0), Seen(g, w1), fs.nodes[key].ch, ch1, g.BytesPerCluster(), off, piece);
    var at := if piece == [] then 0 else off;
    WrittenNode(Seen(g, w0), Seen(g, w1), g.BytesPerCluster(), root, fs, slots, key, ch1, at, piece);
    assert Overwritten(bytes, at, piece) == Overwritten(bytes, off, piece);
    assert HalfNode(g, w1, root, fs, slots, key, Node(ch1, Overwritten(bytes, off, piece)));
  }

  lemma RewrittenGrows(v0: FatImage, v1: FatImage, ch0: seq<nat>, ch1: seq<nat>, m: nat, off: nat, piece: seq<Byte>)
    requires Rewritten(v0, v1, ch0, ch1, m, off, piece)
    ensures ch0 <= ch1
    ensures piece == [] ==> Rewritten(v0, v1, ch0, ch1, m, 0, piece)
  {
    if piece == [] {
      assert Patched(Content(v0, ch0, m), |ch1| * m, off, []) == Patched(Content(v0, ch0, m), |ch1| * m, 0, []);
    }
  }

  /** The bytes beyond the size that a refused write leaves are zero no more, unless zeros were all that
      it wrote there: the file's own invariant holds with the old size exactly if the part written
      changes no byte of it and puts only zeros behind it. */
  lemma RefusedTail(v: FatImage, m: nat, n: Node, ch1: seq<nat>, off: nat, piece: seq<Byte>)
    requires Uniform(v, m) && DataOk(v, m, Node(ch1, Overwritten(n.bytes, off, piece))) && |n.bytes| <= |ch1| * m
    ensures DataOk(v, m, Node(ch1, n.bytes)) <==>
      forall i :: 0 <= i < |piece| ==> piece[i] == if off + i < |n.bytes| then n.bytes[off + i] else 0
  {
    hide Content, IsChain, Uniform;
    var k := |ch1| * m;
    var r := Overwritten(n.bytes, off, piece);
    assert |r| <= k;
    var was, now := Patched(n.bytes, k, 0, []), Patched(r, k, 0, []);
    if DataOk(v, m, Node(ch1, n.bytes)) {
      forall i | 0 <= i < |piece| ensures piece[i] == if off + i < |n.bytes| then n.bytes[off + i] else 0 {
        assert now[off + i] == was[off + i];
      }
    }
    if forall i :: 0 <= i < |piece| ==> piece[i] == if off + i < |n.bytes| then n.bytes[off + i] else 0 {
      forall i | 0 <= i < k ensures now[i] == was[i] {
        if off <= i < off + |piece| {
          assert piece[i - off] == if off + (i - off) < |n.bytes| then n.bytes[off + (i - off)] else 0;
        }
      }
      assert now == was;
    }
  }

  lemma AfterWritePlace(g: Geometry, fs: FileSys, slots: seq<Slot32>, f: VfsFile, p: Place, newStart: Word, n: nat)
    requires Placed(g, fs, slots, p, f.entryLba, f.entryOffset)
    ensures var f1 := AfterWrite(f, newStart, n); EntryPlaced(g, fs.dch, p.k, f1.entryLba, f1.entryOffset, p.i, p.s)
  {
  }

  /** What the chain write of vfs_write leaves, also when nothing was to be written. */
  lemma WriteLeaves(g: Geometry, w0: World, w1: World, root: nat, fs: FileSys, slots: seq<Slot32>, f: VfsFile, p: Place,
                    buf: seq<Byte>, ch1: seq<nat>, newStart: Word)
    requires VolOk(g, w0, root, fs, slots) && f.open && f.position + |buf| < U32_RANGE && GrowsByBytes(f, buf)
    requires Placed(g, fs, slots, p, f.entryLba, f.entryOffset) && Tells(f, fs.nodes[p.key])
    requires Mounted(g, w1)
    requires buf == [] ==> w1 == w0 && newStart == f.startCluster
    requires buf != [] ==> KeepsClean(g, w0, w1, Members(ch1))
    requires buf != [] ==>
      && g.BytesPerCluster() > 0
      && Written(Seen(g, w0), Seen(g, w1), fs.nodes[p.key].ch, ch1, g.BytesPerCluster(), f.position, buf, newStart)
    ensures var n := Node(if buf == [] then fs.nodes[p.key].ch else ch1, Overwritten(fs.nodes[p.key].bytes, f.position, buf));
      && Unsynced(g, w1, root, WithNode(fs, p.key, n), slots, AfterWrite(f, newStart, |buf|), p)
      && Tells(AfterWrite(f, newStart, |buf|), n)
  {
    hide Mounted, Written, Members, KeepsClean, FsOk, DirReads, Placed, Abs, View, KeyOf, Live;
    if buf != [] {
      WriteUnsynced(g, w0, w1, root, fs, slots, f, p, buf, ch1, newStart);
    } else {
      PlacedFacts(g, fs, slots, p, f.entryLba, f.entryOffset);
      assert WithNode(fs, p.key, fs.nodes[p.key]) == fs;
      FsOkStale(Seen(g, w0), g.BytesPerCluster(), root, fs, p.key);
      VolumeBounds(g, w0);
      FlushedStored(g, w0);
    }
  }

  lemma FsOkStale(v: FatImage, m: nat, root: nat, fs: FileSys, key: Key)
    requires FsOk(v, m, root, fs, {})
    ensures FsOk(v, m, root, fs, {key})
  {
  }

  lemma FileChain(g: Geometry, w: World, root: nat, fs: FileSys, slots: seq<Slot32>, n: Node)
    requires VolOk(g, w, root, fs, slots) && exists key :: key in fs.nodes && fs.nodes[key] == n
    ensures Uniform(Seen(g, w), g.BytesPerCluster()) && DataOk(Seen(g, w), g.BytesPerCluster(), n) && |n.ch| > 0
    ensures ChainFrom(Seen(g, w).fat1, n.ch, n.ch[0])
  {
    hide Represents, Slots, Content, Patched;
  }

  /** Reading inside a file reads its bytes. */
  lemma FileRead(total: nat, v: FatImage, m: nat, n: Node, pos: nat, count: nat, got: int, buf: seq<Byte>)
    requires Uniform(v, m) && DataOk(v, m, n) && pos + count <= |n.bytes|
    requires ReadOutcome(total, v, n.ch, m, pos, count, got, buf)
    ensures got == AsInt(count) && buf == n.bytes[pos..pos + count]
  {
    hide Content, Uniform, IsChain, Index;
    assert Readable(|n.ch|, m, pos, count) == count;
    if count > 0 {
      PatchedSlice(n.bytes, |n.ch| * m, pos, count);
    }
  }

  /** Reading inside a file, whatever fails, reads its bytes from the position on. */
  lemma FilePartRead(v: FatImage, m: nat, n: Node, pos: nat, count: nat, got: int, buf: seq<Byte>)
    requires Uniform(v, m) && DataOk(v, m, n) && pos + count <= |n.bytes| && count < 0x8000_0000
    requires ReadPart(v, n.ch, m, pos, count, got, buf)
    ensures got >= 0 ==> got == |buf| <= count && buf == n.bytes[pos..pos + got]
  {
    hide Content, Uniform, IsChain;
    if buf != [] {
      PatchedSlice(n.bytes, |n.ch| * m, pos, |buf|);
    }
  }

  lemma PatchedSlice(bytes: seq<Byte>, k: nat, pos: nat, count: nat)
    requires pos + count <= |bytes| <= k
    ensures Patched(bytes, k, 0, [])[pos..pos + count] == bytes[pos..pos + count]
  {
  }

  /** vfs_open with VFS_O_TRUNC on an existing file: a new zeroed cluster first, then the old chain
      freed, then the entry rewritten. */
  method TruncateFile(vol: Volume, f: VfsFile, ghost root: nat, ghost fs: FileSys, ghost slots: seq<Slot32>, ghost p: Place)
    returns (r: int, f1: VfsFile)
    requires vol.Valid() && EntryPlaced(vol.g, fs.dch, p.k, f.entryLba, f.entryOffset, p.i, p.s)
    modifies vol`freeClusters, vol`nextFree, vol.cache.slots, vol.cache.table
    ensures vol.Valid() && vol.cache.table.failures >= old(vol.cache.table.failures)
    ensures (r == VFS_OK ==> Clean(vol.Now(), vol.g.dev)) && (r == VFS_OK || r < 0)
    ensures FileAt(vol.g, old(vol.Now()), root, fs, slots, f, p) && vol.cache.table.failures == old(vol.cache.table.failures) ==>
      && (old(vol.Exact()) ==> vol.Exact())
      && (Threaded(Seen(vol.g, old(vol.Now())).fat1, Heads(fs)) ==>
            Threaded(Seen(vol.g, vol.Now()).fat1, Heads(if r == VFS_OK then WithNode(fs, p.key, Node([f1.startCluster], [])) else fs)))
      && r == (if FreeCount(Seen(vol.g, old(vol.Now())).fat1) == 0 then VFS_ERR_NOSPACE else VFS_OK)
      && (r == VFS_ERR_NOSPACE ==> VolOk(vol.g, vol.Now(), root, fs, slots))
      && (r == VFS_OK ==>
            var n, e := Node([f1.startCluster], []), Restart(slots[p.k], f1.startCluster, 0);
            && f1 == f.(startCluster := f1.startCluster, fileSize := 0, position := 0)
            && VolOk(vol.g, vol.Now(), root, WithNode(fs, p.key, n).(dir := fs.dir[p.key := e]), slots[p.k := e]))
  {
    hide ReservedKept, Recorded, Fat1Within, NextToTake, FreeAll, ScanFree, Threaded, Heads, Mounted, Coherent, ElsewhereSame, Abs, SameShape,
         Quiet, Step, View, FsOk, DirReads, Restart, Clean,
         VolOk, Unsynced, KeepsClean, CountFree, IsChain, Placed, FileAt, FreedFrom, Wrote;
    var g := vol.g;
    ghost var w0 := vol.Now();
    VolumeBounds(g, w0);
    f1 := f;
    var added := vol.AllocCluster();
    ghost var w1 := vol.Now();
    StepBounds(g, w0, w1);
    ghost var given := FileAt(g, w0, root, fs, slots, f, p);
    if added == FAT32_BAD {
      if given && w1.failures == w0.failures {
        VolumeBounds(g, w1);
        QuietVolume(g, w0, w1);
        StaysThere(g, w0, w1, root, fs, slots, f, p);
      }
      return VFS_ERR_NOSPACE, f;
    }
    ghost var ch: seq<nat> := [];
    if given {
      ch := ChainAt(g, w0, w1, root, fs, slots, f, p, added);
    }
    var ok;
    ghost var k;
    ok, k := vol.FreeChain(f.startCluster, ch);
    ghost var w2 := vol.Now();
    StepBounds(g, w1, w2);
    if !ok {
      return VFS_ERR_IO, f;
    }
    ok := vol.WriteCluster(added, ZeroBytes(g.BytesPerCluster()));
    ghost var w3 := vol.Now();
    StepBounds(g, w2, w3);
    if !ok {
      return VFS_ERR_IO, f;
    }
    f1 := f.(startCluster := added, fileSize := 0, position := 0);
    ghost var fs1 := if given then WithNode(fs, p.key, Node([added], [])) else fs;
    ok := SyncOpenFile(vol, f1, root, fs1, slots, p);
    ghost var w4 := vol.Now();
    StepBounds(g, w3, w4);
    if !ok {
      return VFS_ERR_IO, f1;
    }
    if given && w4.failures == w0.failures {
      SameFat(Seen(g, w2), Seen(g, w3), added);
      if Threaded(Seen(g, w0).fat1, Heads(fs)) {
        TruncatedThreads(g, w0, w1, w2, root, fs, slots, f, p, added);
      }
      TruncatedThere(g, w0, w1, w2, w3, root, fs, slots, f, p, added);
    }
    return VFS_OK, f1;
  }

  /** A file of the volume, with its entry's place and its start cluster and size in `f`. */
  ghost predicate FileAt(g: Geometry, w: World, root: nat, fs: FileSys, slots: seq<Slot32>, f: VfsFile, p: Place) {
    && VolOk(g, w, root, fs, slots) && Placed(g, fs, slots, p, f.entryLba, f.entryOffset) && Tells(f, fs.nodes[p.key])
  }

  lemma StaysThere(g: Geometry, w0: World, w1: World, root: nat, fs: FileSys, slots: seq<Slot32>, f: VfsFile, p: Place)
    requires FileAt(g, w0, root, fs, slots, f, p) && Quiet(w0, w1) && Mounted(g, w1)
    ensures VolOk(g, w1, root, fs, slots)
  {
    hide Mounted, Coherent, FsOk, DirReads, Abs, View, Quiet, Placed;
    VolumeBounds(g, w1);
    QuietVolume(g, w0, w1);
    VolOkQuiet(g, w0, w1, root, fs, slots);
  }

  /** The old chain is still a chain once a cluster outside it has been taken. */
  lemma ChainAt(g: Geometry, w0: World, w1: World, root: nat, fs: FileSys, slots: seq<Slot32>, f: VfsFile, p: Place, added: nat)
    returns (ch: seq<nat>)
    requires FileAt(g, w0, root, fs, slots, f, p) && Mounted(g, w1)
    requires g.InRange(added) && Entry(Seen(g, w0).fat1, added) == FAT32_FREE
    requires Seen(g, w1) == SetEntry(Seen(g, w0), added, FAT32_EOC)
    ensures p.key in fs.nodes && ch == fs.nodes[p.key].ch
    ensures IsChain(Seen(g, w0).fat1, ch) && ChainFrom(Seen(g, w1).fat1, ch, f.startCluster)
    ensures f.startCluster >= 2
  {
    hide Mounted, Coherent, Abs, View, Represents, Content, Slots, Patched, EntryPlaced;
    ch := fs.nodes[p.key].ch;
    VolumeBounds(g, w0);
    FreeNotInChain(Seen(g, w0).fat1, ch, added);
    ChainKept(Seen(g, w0).fat1, Seen(g, w1).fat1, ch);
  }

  lemma TruncatedThere(g: Geometry, w0: World, w1: World, w2: World, w3: World, root: nat, fs: FileSys, slots: seq<Slot32>,
                       f: VfsFile, p: Place, added: nat)
    requires FileAt(g, w0, root, fs, slots, f, p) && added < U32_RANGE
    requires g.InRange(added) && Entry(Seen(g, w0).fat1, added) == FAT32_FREE
    requires Mounted(g, w1) && Mounted(g, w2) && Mounted(g, w3)
    requires Seen(g, w1) == SetEntry(Seen(g, w0), added, FAT32_EOC)
    requires IsChain(Seen(g, w1).fat1, fs.nodes[p.key].ch)
    requires FreedFrom(Seen(g, w1), Seen(g, w2), fs.nodes[p.key].ch, |fs.nodes[p.key].ch|)
    requires Stored(g, w2) == Seen(g, w2) && KeepsClean(g, w2, w3, {added})
    requires OnlyCluster(Seen(g, w2), Seen(g, w3), added) && Seen(g, w3).data[added] == ZeroBytes(g.BytesPerCluster())
    ensures var f1 := f.(startCluster := added, fileSize := 0, position := 0);
      Unsynced(g, w3, root, WithNode(fs, p.key, Node([added], [])), slots, f1, p)
  {
    hide Mounted, Coherent, Abs, View, FsOk, DirReads, IsChain, KeepsClean, FreeAll, Represents, Live, KeyOf,
         OnlyCluster, Placed;
    VolumeBounds(g, w0);
    VolumeBounds(g, w3);
    PlacedFacts(g, fs, slots, p, f.entryLba, f.entryOffset);
    PlacedKept(g, fs, slots, p, f.entryLba, f.entryOffset, Node([added], []));
    var ch := fs.nodes[p.key].ch;
    assert ch[..|ch|] == ch;
    MountedUniform(g, w0);
    FileChain(g, w0, root, fs, slots, fs.nodes[p.key]);
    ChainInRange(Seen(g, w0), ch);
    IsTruncated(Seen(g, w0), Seen(g, w1), Seen(g, w2), Seen(g, w3), g.BytesPerCluster(), added, ch);
    NodeTruncated(Seen(g, w0), g.BytesPerCluster(), root, fs, p.key, added);
    MemberOther(fs.dch, added, p.i);
    StillClean(g, w2, w3, added, fs.dch[p.i]);
  }

  /** The links after truncation: the new cluster is a head, and the old chain left no link behind. */
  lemma TruncatedThreads(g: Geometry, w0: World, w1: World, w2: World, root: nat, fs: FileSys, slots: seq<Slot32>, f: VfsFile,
                         p: Place, added: nat)
    requires FileAt(g, w0, root, fs, slots, f, p) && Mounted(g, w1) && Mounted(g, w2) && Threaded(Seen(g, w0).fat1, Heads(fs))
    requires g.InRange(added) && Entry(Seen(g, w0).fat1, added) == FAT32_FREE
    requires Seen(g, w1) == SetEntry(Seen(g, w0), added, FAT32_EOC) && IsChain(Seen(g, w1).fat1, fs.nodes[p.key].ch)
    requires FreedFrom(Seen(g, w1), Seen(g, w2), fs.nodes[p.key].ch, |fs.nodes[p.key].ch|)
    ensures Threaded(Seen(g, w2).fat1, Heads(WithNode(fs, p.key, Node([added], []))))
  {
    hide Mounted, Coherent, Abs, View, FsOk, DirReads, NoDangling, OneWay, IsHead, FreeAll, SetEntry, IsChain;
    VolumeBounds(g, w0);
    TakeThreads(Seen(g, w0), added);
    ChainsBegin(Seen(g, w0), g.BytesPerCluster(), root, fs, {});
    assert fs.nodes[p.key].ch[0] in Heads(fs);
    FreeThreads(Seen(g, w1), fs.nodes[p.key].ch, |fs.nodes[p.key].ch|);
    assert Heads(WithNode(fs, p.key, Node([added], []))) <= Heads(fs) + {added};
  }

  lemma MemberOther(a: seq<nat>, c: nat, i: nat)
    requires c !in a && i < |a|
    ensures a[i] != c
  {
  }

  lemma StillClean(g: Geometry, w0: World, w1: World, added: nat, c: nat)
    requires Mounted(g, w0) && Mounted(g, w1) && KeepsClean(g, w0, w1, {added}) && Stored(g, w0) == Seen(g, w0)
    requires g.InRange(c) && c != added
    ensures c < |Stored(g, w1).data| && c < |Seen(g, w1).data| && Stored(g, w1).data[c] == Seen(g, w1).data[c]
  {
    VolumeBounds(g, w1);
  }

  lemma IsTruncated(v0: FatImage, v1: FatImage, v2: FatImage, v3: FatImage, m: nat, added: nat, ch: seq<nat>)
    requires Uniform(v0, m) && added < |v0.fat1| && IsChain(v0.fat1, ch) && IsChain(v1.fat1, ch)
    requires v1 == SetEntry(v0, added, FAT32_EOC) && v2 == FreeAll(v1, ch)
    requires OnlyCluster(v2, v3, added) && v3.data[added] == ZeroBytes(m)
    ensures forall i :: 0 <= i < |ch| ==> ch[i] < |v0.fat1|
    ensures v3 == Truncated(v0, m, added, ch)
  {
  }

  /** The file system with a new, empty file. */
  function WithNewFile(fs: FileSys, dch1: seq<nat>, e: Slot32, cluster: nat): FileSys {
    FileSys(dch1, fs.dir[KeyOf(e) := e], fs.nodes[KeyOf(e) := Node([cluster], [])])
  }

  /** vfs_open with VFS_O_CREATE for a name that is not there: one zeroed cluster, on the device
      before any entry names it, then the entry. */
  method CreateFile(vol: Volume, name: CString, root: nat, ghost fs: FileSys, ghost slots: seq<Slot32>)
    returns (r: int, cluster: Word, lba: nat, off: nat, ghost dch1: seq<nat>, ghost p: Place)
    requires vol.Valid() && VolOk(vol.g, vol.Now(), root, fs, slots) && IsShort(name) && name != []
    modifies vol`freeClusters, vol`nextFree, vol.cache.slots, vol.cache.table
    ensures vol.Valid() && vol.cache.table.failures >= old(vol.cache.table.failures)
    ensures (r == VFS_OK ==> Clean(vol.Now(), vol.g.dev)) && (r == VFS_OK || r < 0)
    ensures vol.cache.table.failures == old(vol.cache.table.failures) && r == VFS_OK ==>
      DirReads(Seen(vol.g, vol.Now()), vol.g.BytesPerCluster(), dch1, Inserted(slots, NewEntry(name, cluster), vol.g.BytesPerCluster()))
    ensures old(Ordered(vol.g, vol.Now())) ==> CrashSafe(vol.g, old(vol.Now()), vol.Now())
    ensures vol.cache.table.failures == old(vol.cache.table.failures) && old(vol.Exact()) ==> vol.Exact()
    ensures vol.cache.table.failures == old(vol.cache.table.failures) && Threaded(Seen(vol.g, old(vol.Now())).fat1, Heads(fs)) ==>
      && Threaded(Seen(vol.g, vol.Now()).fat1, Heads(fs))
      && (r == VFS_OK ==> Threaded(Seen(vol.g, vol.Now()).fat1, Heads(WithNewFile(fs, dch1, NewEntry(name, cluster), cluster))))
    ensures vol.cache.table.failures == old(vol.cache.table.failures) && LowerAll(name) !in fs.dir && name[0] != DELETED_MARK ==>
      var free, e := FreeCount(Seen(vol.g, old(vol.Now())).fat1), NewEntry(name, cluster);
      && r == (if free == 0 then VFS_ERR_NOSPACE else if FirstFree(slots).Hit? || free >= 2 then VFS_OK else VFS_ERR_IO)
      && (r != VFS_OK ==> VolOk(vol.g, vol.Now(), root, fs, slots))
      && (r == VFS_ERR_IO ==> FreeCount(Seen(vol.g, vol.Now()).fat1) + 1 == free)
      && (r == VFS_OK ==>
            && KeyOf(e) == LowerAll(name) == p.key && fs.dch <= dch1
            && VolOk(vol.g, vol.Now(), root, WithNewFile(fs, dch1, e, cluster), Inserted(slots, e, vol.g.BytesPerCluster()))
            && Placed(vol.g, WithNewFile(fs, dch1, e, cluster), Inserted(slots, e, vol.g.BytesPerCluster()), p, lba, off)
            && EntryNames(e, Node([cluster], [])))
  {
    hide ReservedKept, Recorded, Mounted, Coherent, ElsewhereSame, Abs, SameShape, Quiet, Step, View, FsOk, DirReads, Clean, VolOk,
         KeepsClean, CountFree, IsChain, Placed, Wrote, NewEntry, Inserted, FirstFree, IsShort, IsDir, Created,
         Entries, EntryPlaced, Threaded, Heads, CrashSafe, NoDangling, OnlyCluster, Spare, SetEntry, Fat1Within;
    var g := vol.g;
    ghost var w0 := vol.Now();
    VolumeBounds(g, w0);
    cluster, lba, off, dch1, p := 0, 0, 0, fs.dch, Place([], 0, 0, 0);
    ghost var ordered, threaded := Ordered(g, w0), Threaded(Seen(g, w0).fat1, Heads(fs));
    var added := vol.AllocCluster();
    ghost var w1 := vol.Now();
    StepBounds(g, w0, w1);
    if ordered {
      AllocIsCrashSafe(g, w0, w1, added);
    }
    if added == FAT32_BAD {
      if w1.failures == w0.failures {
        VolOkStays(g, w0, w1, root, fs, slots);
        VolumeBounds(g, w1);
        QuietVolume(g, w0, w1);
      }
      r := VFS_ERR_NOSPACE;
      return;
    }
    var ok := WriteThrough(vol, added);
    ghost var w2 := vol.Now();
    StepBounds(g, w1, w2);
    SameFat(Seen(g, w1), Seen(g, w2), added);
    if ordered {
      CrashSafeTransitive(g, w0, w1, w2);
    }
    r := VFS_ERR_IO;
    if !ok {
      return;
    }
    cluster := added;
    NewCluster(g, w0, w1, w2, root, fs, slots, added);
    if threaded {
      TakenThreads(g, w0, w1, w2, root, fs, slots, added);
    }
    assert VolOk(g, w2, root, fs, slots) by {
      HoldsFs(g, w2, root, fs, slots);
    }
    var entry := NewEntry(name, cluster);
    ghost var k, i, s;
    ok, lba, off, dch1, k, i, s := DirCreate(vol, root, entry, fs.dch);
    ghost var w3 := vol.Now();
    StepBounds(g, w2, w3);
    if ordered {
      CrashSafeTransitive(g, w0, w2, w3);
    }
    if !ok {
      if w3.failures == w0.failures {
        VolumeBounds(g, w3);
        QuietVolume(g, w2, w3);
        VolOkStays(g, w2, w3, root, fs, slots);
      }
      return;
    }
    r := VFS_OK;
    p := Place(LowerAll(name), k, i, s);
    if w3.failures == w0.failures {
      CreatedEntries(g, w2, w3, fs.dch, dch1, root, entry, k, lba, off, i, s);
      EntriesAsDir(g, w3, dch1, root);
      if threaded {
        FiledThreads(g, w2, w3, root, fs, slots, cluster, dch1, entry, k);
      }
    }
    if w3.failures == w0.failures && LowerAll(name) !in fs.dir && name[0] != DELETED_MARK {
      NewFileFiled(g, w0, w2, w3, root, fs, slots, name, cluster, dch1, p, lba, off);
    }
  }

  /** The links after the new file's cluster was taken: it is a head like the others. */
  lemma TakenThreads(g: Geometry, w0: World, w1: World, w2: World, root: nat, fs: FileSys, slots: seq<Slot32>, added: nat)
    requires VolOk(g, w0, root, fs, slots) && Mounted(g, w1) && Mounted(g, w2) && g.InRange(added)
    requires Entry(Seen(g, w0).fat1, added) == FAT32_FREE && Seen(g, w1) == SetEntry(Seen(g, w0), added, FAT32_EOC)
    requires Seen(g, w2).fat1 == Seen(g, w1).fat1 && Threaded(Seen(g, w0).fat1, Heads(fs))
    ensures Threaded(Seen(g, w2).fat1, Heads(fs) + {added}) && Threaded(Seen(g, w2).fat1, Heads(fs))
  {
    hide Mounted, Coherent, Abs, View, FsOk, DirReads, NoDangling, OneWay, IsHead;
    VolumeBounds(g, w0);
    TakeThreads(Seen(g, w0), added);
  }

  /** The links after its entry was made in a directory that may have grown. */
  lemma FiledThreads(g: Geometry, w2: World, w3: World, root: nat, fs: FileSys, slots: seq<Slot32>, cluster: nat, dch1: seq<nat>,
                     entry: Slot32, k: nat)
    requires Mounted(g, w2) && Mounted(g, w3) && FsOk(Seen(g, w2), g.BytesPerCluster(), root, fs, {})
    requires Spare(Seen(g, w2), g.BytesPerCluster(), fs, Node([cluster], []))
    requires Created(g, Seen(g, w2), Seen(g, w3), slots, fs.dch, dch1, root, entry, k)
    requires Threaded(Seen(g, w2).fat1, Heads(fs) + {cluster})
    ensures Threaded(Seen(g, w3).fat1, Heads(fs))
    ensures Threaded(Seen(g, w3).fat1, Heads(WithNewFile(fs, dch1, entry, cluster)))
  {
    hide Mounted, Coherent, Abs, View, FsOk, NoDangling, OneWay, IsHead, Rewritten, Content, DirBytes, Slots;
    var m := g.BytesPerCluster();
    RewrittenGrown(Seen(g, w2), Seen(g, w3), fs.dch, dch1, m, ENTRY_SIZE * k, entry);
    ChainsBegin(Seen(g, w2), m, root, fs, {});
    SpareFacts(Seen(g, w2), m, fs, cluster);
    DirGrown(Seen(g, w2), Seen(g, w3), m, root, fs, {}, dch1, {cluster});
    NewHeads(fs, dch1, entry, cluster);
  }

  lemma SpareFacts(v: FatImage, m: nat, fs: FileSys, c: nat)
    requires Spare(v, m, fs, Node([c], []))
    ensures 2 <= c < |v.fat1| && Entry(v.fat1, c) != FAT32_FREE && c !in fs.dch
  {
    hide Content, Patched;
    ChainIsLive(v.fat1, [c], 0);
  }

  lemma NewHeads(fs: FileSys, dch1: seq<nat>, entry: Slot32, c: nat)
    requires fs.dch != [] && fs.dch <= dch1
    ensures Heads(WithNewFile(fs, dch1, entry, c)) <= Heads(fs) + {c}
  {
  }

  lemma HoldsFs(g: Geometry, w: World, root: nat, fs: FileSys, slots: seq<Slot32>)
    requires Mounted(g, w) && w.disks[g.dev] == View(w, g.dev)
    requires FsOk(Seen(g, w), g.BytesPerCluster(), root, fs, {}) && DirReads(Seen(g, w), g.BytesPerCluster(), fs.dch, slots)
    ensures VolOk(g, w, root, fs, slots)
  {
  }

  lemma VolOkStays(g: Geometry, w0: World, w1: World, root: nat, fs: FileSys, slots: seq<Slot32>)
    requires VolOk(g, w0, root, fs, slots) && Quiet(w0, w1) && Mounted(g, w1)
    ensures VolOk(g, w1, root, fs, slots)
  {
    hide Mounted, Coherent, FsOk, DirReads, Abs, View, Quiet;
    VolumeBounds(g, w1);
    QuietVolume(g, w0, w1);
    VolOkQuiet(g, w0, w1, root, fs, slots);
  }

  /** A zeroed cluster written and flushed. */
  method WriteThrough(vol: Volume, c: nat) returns (ok: bool)
    requires vol.Valid() && vol.g.InRange(c)
    modifies vol.cache.slots, vol.cache.table
    ensures vol.Valid() && Step(vol.g, old(vol.Now()), vol.Now())
    ensures ok <==> vol.cache.table.failures == old(vol.cache.table.failures)
    ensures ok ==> vol.Now().disks[vol.g.dev] == View(vol.Now(), vol.g.dev)
    ensures OnlyCluster(Seen(vol.g, old(vol.Now())), Seen(vol.g, vol.Now()), c)
    ensures old(Ordered(vol.g, vol.Now())) ==> CrashSafe(vol.g, old(vol.Now()), vol.Now()) && Ordered(vol.g, vol.Now())
    ensures ok ==> Seen(vol.g, vol.Now()).data[c] == ZeroBytes(vol.g.BytesPerCluster())
  {
    hide Mounted, Coherent, ElsewhereSame, Fat1Within, Abs, SameShape, Quiet, Step, View, OnlyCluster, NoDangling, CrashSafe;
    ghost var w0 := vol.Now();
    ok := vol.WriteCluster(c, ZeroBytes(vol.g.BytesPerCluster()));
    ghost var w1 := vol.Now();
    StepBounds(vol.g, w0, w1);
    VolumeBounds(vol.g, w1);
    SameFat(Seen(vol.g, w0), Seen(vol.g, w1), c);
    if Ordered(vol.g, w0) {
      DataIsCrashSafe(vol.g, w0, w1);
    }
    if !ok {
      return;
    }
    ok := vol.cache.Flush(vol.g.dev);
    ghost var w2 := vol.Now();
    QuietVolume(vol.g, w1, w2);
    QuietIsCrashSafe(vol.g, w1, w2);
    StepTransitive(vol.g, w0, w1, w2);
    if Ordered(vol.g, w0) {
      CrashSafeTransitive(vol.g, w0, w1, w2);
    }
    StepBounds(vol.g, w1, w2);
  }

  lemma SameFat(v0: FatImage, v1: FatImage, c: nat)
    requires OnlyCluster(v0, v1, c)
    ensures v1.fat1 == v0.fat1
  {
  }

  /** The volume with the zeroed cluster taken. */
  lemma NewCluster(g: Geometry, w0: World, w1: World, w2: World, root: nat, fs: FileSys, slots: seq<Slot32>, added: nat)
    requires VolOk(g, w0, root, fs, slots) && Mounted(g, w1) && Mounted(g, w2)
    requires g.InRange(added) && Entry(Seen(g, w0).fat1, added) == FAT32_FREE
    requires Seen(g, w1) == SetEntry(Seen(g, w0), added, FAT32_EOC)
    requires OnlyCluster(Seen(g, w1), Seen(g, w2), added) && Seen(g, w2).data[added] == ZeroBytes(g.BytesPerCluster())
    ensures FsOk(Seen(g, w2), g.BytesPerCluster(), root, fs, {}) && DirReads(Seen(g, w2), g.BytesPerCluster(), fs.dch, slots)
    ensures Spare(Seen(g, w2), g.BytesPerCluster(), fs, Node([added], []))
    ensures IsDir(g, w2, fs.dch, root) && Entries(g, w2, fs.dch) == slots && IsDir(g, w0, fs.dch, root) && root >= 2
    ensures FreeCount(Seen(g, w2).fat1) + 1 == FreeCount(Seen(g, w0).fat1)
  {
    hide Mounted, Coherent, Abs, View, Represents, FsOk, DirReads, Spare, CountFree, Slots, Content;
    VolumeBounds(g, w0);
    MountedUniform(g, w0);
    IsTaken(Seen(g, w0), Seen(g, w1), Seen(g, w2), g.BytesPerCluster(), added);
    SpareTaken(Seen(g, w0), g.BytesPerCluster(), root, fs, added);
    DirAsEntries(g, w2, root, fs, slots, {});
    DirAsEntries(g, w0, root, fs, slots, {});
    CountAfterSet(Seen(g, w0).fat1, |Seen(g, w0).fat1|, added, Merge28(Seen(g, w0).fat1[added], FAT32_EOC));
  }

  lemma IsTaken(v0: FatImage, v1: FatImage, v2: FatImage, m: nat, added: nat)
    requires |v0.fat1| == |v0.fat2| == |v0.data| && added < |v0.fat1|
    requires v1 == SetEntry(v0, added, FAT32_EOC) && OnlyCluster(v1, v2, added) && v2.data[added] == ZeroBytes(m)
    ensures v2 == Taken(v0, added, m)
  {
  }

  lemma NewFileFiled(g: Geometry, w0: World, w2: World, w3: World, root: nat, fs: FileSys, slots: seq<Slot32>, name: CString,
                     cluster: Word, dch1: seq<nat>, p: Place, lba: nat, off: nat)
    requires VolOk(g, w0, root, fs, slots) && IsShort(name) && name != [] && name[0] != DELETED_MARK && LowerAll(name) !in fs.dir
    requires p.key == LowerAll(name) && Mounted(g, w2) && Mounted(g, w3)
    requires FsOk(Seen(g, w2), g.BytesPerCluster(), root, fs, {}) && DirReads(Seen(g, w2), g.BytesPerCluster(), fs.dch, slots)
    requires Spare(Seen(g, w2), g.BytesPerCluster(), fs, Node([cluster], []))
    requires IsDir(g, w2, fs.dch, root) && Entries(g, w2, fs.dch) == slots
    requires Created(g, Seen(g, w2), Seen(g, w3), slots, fs.dch, dch1, root, NewEntry(name, cluster), p.k)
    requires EntryPlaced(g, dch1, p.k, lba, off, p.i, p.s)
    requires Clean(w3, g.dev)
    ensures var e := NewEntry(name, cluster);
      && KeyOf(e) == p.key && fs.dch <= dch1
      && VolOk(g, w3, root, WithNewFile(fs, dch1, e, cluster), Inserted(slots, e, g.BytesPerCluster()))
      && Placed(g, WithNewFile(fs, dch1, e, cluster), Inserted(slots, e, g.BytesPerCluster()), p, lba, off)
      && EntryNames(e, Node([cluster], []))
  {
    hide Mounted, Coherent, Abs, View, Represents, FsOk, DirReads, Spare, CountFree, Slots, Content, NewEntry,
         Inserted, FirstFree, IsShort, IsDir, Entries, EntryPlaced, Rewritten, Live, KeyOf, IsLfn, IsPlain,
         EntryCluster, EntrySize;
    var e, m := NewEntry(name, cluster), g.BytesPerCluster();
    NewEntryFields(name, cluster);
    NewEntryIsFound(name, cluster);
    CreatedEntries(g, w2, w3, fs.dch, dch1, root, e, p.k, lba, off, p.i, p.s);
    EntriesAsDir(g, w3, dch1, root);
    RewrittenGrown(Seen(g, w2), Seen(g, w3), fs.dch, dch1, m, ENTRY_SIZE * p.k, e);
    SpareFiled(Seen(g, w2), Seen(g, w3), m, root, fs, Node([cluster], []), e, dch1, slots);
    GrownUniform(Seen(g, w2), Seen(g, w3), fs.dch, dch1, m);
    VolumeBounds(g, w3);
    CleanMeansOnDisk(w3, g.dev);
  }

  /** The file system without the file `key`. */
  function Without(fs: FileSys, key: Key): FileSys { FileSys(fs.dch, fs.dir - {key}, fs.nodes - {key}) }

  /** The end of vfs_delete for a file: fat32_dir_delete_entry frees its chain and then marks its
      entry; a last flush follows. */
  method RemoveFile(vol: Volume, lba: nat, off: nat, cluster: Word, ghost root: nat, ghost fs: FileSys,
                    ghost slots: seq<Slot32>, ghost p: Place)
    returns (r: int)
    requires vol.Valid() && EntryPlaced(vol.g, fs.dch, p.k, lba, off, p.i, p.s)
    modifies vol`freeClusters, vol`nextFree, vol.cache.slots, vol.cache.table
    ensures vol.Valid() && vol.cache.table.failures >= old(vol.cache.table.failures)
    ensures r == VFS_OK ==> Clean(vol.Now(), vol.g.dev)
    ensures EntryAt(vol.g, old(vol.Now()), root, fs, slots, p, lba, off, cluster) ==>
      vol.cache.table.failures == old(vol.cache.table.failures) ==>
      && r == VFS_OK && VolOk(vol.g, vol.Now(), root, Without(fs, p.key), Erased(slots, p.key))
      && (old(vol.Exact()) ==> vol.Exact())
      && (Threaded(Seen(vol.g, old(vol.Now())).fat1, Heads(fs)) ==>
            Threaded(Seen(vol.g, vol.Now()).fat1, Heads(Without(fs, p.key))) && Ordered(vol.g, vol.Now()))
      && FreeCount(Seen(vol.g, vol.Now()).fat1) == FreeCount(Seen(vol.g, old(vol.Now())).fat1) + |fs.nodes[p.key].ch|
  {
    hide ReservedKept, Recorded, Fat1Within, Mounted, Coherent, ElsewhereSame, Abs, SameShape, Quiet, Step, View, FsOk, DirReads, Clean, VolOk,
         KeepsClean, CountFree, IsChain, Placed, FreedFrom, Wrote, IsDir, Entries, EntryPlaced, WithEntry,
         Rewritten, Erased, EntryCluster;
    var g := vol.g;
    ghost var w0 := vol.Now();
    VolumeBounds(g, w0);
    ghost var given := EntryAt(g, w0, root, fs, slots, p, lba, off, cluster);
    ghost var ch: seq<nat> := [];
    if given {
      ch := DoomedChain(g, w0, root, fs, slots, p, lba, off, cluster);
    }
    var ok := true;
    ghost var k;
    if cluster >= 2 {
      ok, k := vol.FreeChain(cluster, ch);
    }
    ghost var w1 := vol.Now();
    StepBounds(g, w0, w1);
    if !ok {
      return VFS_ERR_IO;
    }
    if given && w1.failures == w0.failures {
      FreedDir(g, w0, w1, root, fs, slots, p.key, ch);
    }
    ok := MarkDeleted(vol, lba, off, fs.dch, root, p.k, p.i, p.s);
    ghost var w2 := vol.Now();
    StepBounds(g, w1, w2);
    if !ok {
      assert w2.failures != w1.failures by {
        PlaceOnSector(g, fs.dch, p.k, lba, off, p.i, p.s);
      }
      return VFS_ERR_IO;
    }
    PlaceOnSector(g, fs.dch, p.k, lba, off, p.i, p.s);
    VolumeBounds(g, w2);
    ok := vol.cache.Flush(g.dev);
    ghost var w3 := vol.Now();
    QuietVolume(g, w2, w3);
    VolumeBounds(g, w3);
    StepBounds(g, w2, w3);
    if !ok {
      return VFS_ERR_IO;
    }
    if given && w3.failures == w0.failures {
      if Threaded(Seen(g, w0).fat1, Heads(fs)) {
        RemovedThreads(g, w0, w1, root, fs, slots, p.key);
        FlushedStored(g, w3);
      }
      RemovedThere(g, w0, w1, w2, w3, root, fs, slots, p, lba, off, ch);
    }
    return VFS_OK;
  }

  /** The links once a file's whole chain is free: none dangles. */
  lemma RemovedThreads(g: Geometry, w0: World, w1: World, root: nat, fs: FileSys, slots: seq<Slot32>, key: Key)
    requires VolOk(g, w0, root, fs, slots) && key in fs.nodes && Mounted(g, w1) && Threaded(Seen(g, w0).fat1, Heads(fs))
    requires IsChain(Seen(g, w0).fat1, fs.nodes[key].ch)
    requires FreedFrom(Seen(g, w0), Seen(g, w1), fs.nodes[key].ch, |fs.nodes[key].ch|)
    ensures Threaded(Seen(g, w1).fat1, Heads(Without(fs, key))) && NoDangling(Seen(g, w1).fat1)
  {
    hide Mounted, Coherent, Abs, View, FsOk, DirReads, NoDangling, OneWay, IsHead, FreeAll, IsChain;
    VolumeBounds(g, w0);
    ChainsBegin(Seen(g, w0), g.BytesPerCluster(), root, fs, {});
    assert fs.nodes[key].ch[0] in Heads(fs);
    FreeThreads(Seen(g, w0), fs.nodes[key].ch, |fs.nodes[key].ch|);
    assert Heads(Without(fs, key)) <= Heads(fs);
  }

  /** An entry of the volume, its place, and the cluster it names. */
  ghost predicate EntryAt(g: Geometry, w: World, root: nat, fs: FileSys, slots: seq<Slot32>, p: Place, lba: nat, off: nat, cluster: Word) {
    VolOk(g, w, root, fs, slots) && Placed(g, fs, slots, p, lba, off) && cluster == EntryCluster(slots[p.k])
  }

  lemma PlaceOnSector(g: Geometry, dch: seq<nat>, k: nat, lba: nat, off: nat, i: nat, s: nat)
    requires EntryPlaced(g, dch, k, lba, off, i, s)
    ensures off < BLOCK_SIZE
  {
  }

  lemma DoomedChain(g: Geometry, w: World, root: nat, fs: FileSys, slots: seq<Slot32>, p: Place, lba: nat, off: nat, cluster: Word)
    returns (ch: seq<nat>)
    requires EntryAt(g, w, root, fs, slots, p, lba, off, cluster)
    ensures p.key in fs.nodes && ch == fs.nodes[p.key].ch && ChainFrom(Seen(g, w).fat1, ch, cluster) && cluster >= 2
  {
    hide Mounted, Coherent, Abs, View, Represents, Content, Slots, Patched, EntryPlaced, EntryCluster, EntrySize;
    ch := fs.nodes[p.key].ch;
  }

  /** Freeing a file's chain leaves the directory as it was. */
  lemma FreedDir(g: Geometry, w0: World, w1: World, root: nat, fs: FileSys, slots: seq<Slot32>, key: Key, ch: seq<nat>)
    requires VolOk(g, w0, root, fs, slots) && key in fs.nodes && ch == fs.nodes[key].ch && Mounted(g, w1)
    requires IsChain(Seen(g, w0).fat1, ch) && FreedFrom(Seen(g, w0), Seen(g, w1), ch, |ch|)
    ensures IsDir(g, w1, fs.dch, root) && Entries(g, w1, fs.dch) == slots
    ensures FreeCount(Seen(g, w1).fat1) == FreeCount(Seen(g, w0).fat1) + |ch|
  {
    hide Mounted, Coherent, Abs, View, Represents, Content, Slots, Patched, FreeAll, CountFree;
    VolumeBounds(g, w0);
    assert ch[..|ch|] == ch;
    FreeAllCounts(Seen(g, w0), ch, |ch|);
    ChainInRange(Seen(g, w0), ch);
    MountedUniform(g, w1);
    DisjointSymmetric(fs.dch, ch);
    FreedSame(Seen(g, w0), ch, fs.dch);
    SameContent(Seen(g, w0), Seen(g, w1), g.BytesPerCluster(), fs.dch);
  }

  lemma RemovedThere(g: Geometry, w0: World, w1: World, w2: World, w3: World, root: nat, fs: FileSys, slots: seq<Slot32>,
                     p: Place, lba: nat, off: nat, ch: seq<nat>)
    requires VolOk(g, w0, root, fs, slots) && Placed(g, fs, slots, p, lba, off) && ch == fs.nodes[p.key].ch
    requires Mounted(g, w1) && Mounted(g, w2) && Mounted(g, w3)
    requires IsChain(Seen(g, w0).fat1, ch) && FreedFrom(Seen(g, w0), Seen(g, w1), ch, |ch|)
    requires IsDir(g, w1, fs.dch, root) && Entries(g, w1, fs.dch) == slots && IsDir(g, w2, fs.dch, root)
    requires Entries(g, w2, fs.dch) == WithEntry(slots, p.k, [DELETED_MARK])
    requires Rewritten(Seen(g, w1), Seen(g, w2), fs.dch, fs.dch, g.BytesPerCluster(), ENTRY_SIZE * p.k, [DELETED_MARK])
    requires Seen(g, w3) == Seen(g, w2) && w3.disks[g.dev] == View(w3, g.dev)
    ensures VolOk(g, w3, root, Without(fs, p.key), Erased(slots, p.key))
    ensures FreeCount(Seen(g, w3).fat1) == FreeCount(Seen(g, w1).fat1)
  {
    hide Mounted, Coherent, Abs, View, FsOk, DirReads, IsChain, FreeAll, Represents, KeyOf, IsDir, Entries,
         WithEntry, Rewritten, Erased, Search, EntryPlaced, CountFree;
    var m := g.BytesPerCluster();
    VolumeBounds(g, w0);
    assert ch[..|ch|] == ch;
    DirAsEntries(g, w0, root, fs, slots, {});
    PlacedIsFound(slots, fs.dir, p.key, p.k);
    DeletedEntries(slots, p.key, p.k);
    EntriesAsDir(g, w2, fs.dch, root);
    RewrittenGrown(Seen(g, w1), Seen(g, w2), fs.dch, fs.dch, m, ENTRY_SIZE * p.k, [DELETED_MARK]);
    NodeRemoved(Seen(g, w0), Seen(g, w2), m, root, fs, p.key, slots);
    GrownCounts(Seen(g, w1), Seen(g, w2), fs.dch, m);
  }

  lemma GrownCounts(v0: FatImage, v1: FatImage, ch: seq<nat>, m: nat)
    requires Grown(v0, v1, ch, ch, m)
    ensures FreeCount(v1.fat1) == FreeCount(v0.fat1)
  {
  }

  /** The live entry of a name is the one a search finds. */
  lemma PlacedIsFound(slots: seq<Slot32>, dir: map<Key, Slot32>, key: Key, k: nat)
    requires Represents(slots, dir) && k < |slots| && Live(slots[k]) && KeyOf(slots[k]) == key
    ensures Search(slots, key) == Hit(k)
  {
    SearchIsComplete(slots, key, k);
  }
}
