/** The descriptor table of fs/vfs.c: which descriptors are open, for which files, and how they
    move. */
module VfsTable {
  import opened Blocks
  import opened SectorCache
  import opened FatTable
  import opened VolumeState
  import opened Chains
  import opened FileBytes
  import opened Fat32
  import opened ChainIO
  import opened ShortNames
  import opened DirSlots
  import opened Directory
  import opened DirWrite
  import opened FileSystem
  import opened FileSpec
  import opened VfsFiles

  ghost predicate FdOk(g: Geometry, fs: FileSys, slots: seq<Slot32>, f: VfsFile, p: Place) {
    f.open ==> Placed(g, fs, slots, p, f.entryLba, f.entryOffset) && Tells(f, fs.nodes[p.key])
  }

  /** Open descriptors tell the truth, and no two are for the same file. */
  ghost predicate FdsOk(g: Geometry, fs: FileSys, slots: seq<Slot32>, files: seq<VfsFile>, places: seq<Place>) {
    && |files| == |places| == VFS_MAX_OPEN_FILES
    && (forall fd :: 0 <= fd < |files| ==> FdOk(g, fs, slots, files[fd], places[fd]))
    && (forall a, b :: 0 <= a < b < |files| && files[a].open && files[b].open ==> places[a].key != places[b].key)
  }

  ghost function AbsFd(f: VfsFile, p: Place): Fd { if f.open then Opened(p.key, f.position, f.flags) else Shut }

  ghost function AbsFiles(fs: FileSys): map<Key, seq<Byte>> { map key | key in fs.nodes :: fs.nodes[key].bytes }

  ghost function AbsFds(files: seq<VfsFile>, places: seq<Place>): (r: seq<Fd>)
    requires |files| == |places|
    ensures |r| == |files|
  {
    seq(|files|, fd requires 0 <= fd < |files| => AbsFd(files[fd], places[fd]))
  }

  /** One descriptor replaced. */
  lemma FdReplaced(g: Geometry, fs: FileSys, slots: seq<Slot32>, files: seq<VfsFile>, places: seq<Place>, fd: nat, f: VfsFile, p: Place)
    requires FdsOk(g, fs, slots, files, places) && fd < |files| && FdOk(g, fs, slots, f, p)
    requires f.open ==> forall a :: 0 <= a < |files| && a != fd && files[a].open ==> places[a].key != p.key
    ensures FdsOk(g, fs, slots, files[fd := f], places[fd := p])
    ensures AbsFds(files[fd := f], places[fd := p]) == AbsFds(files, places)[fd := AbsFd(f, p)]
  {
    hide Placed, Tells;
    var files1, places1 := files[fd := f], places[fd := p];
    forall a, b | 0 <= a < b < |files| && files1[a].open && files1[b].open ensures places1[a].key != places1[b].key {
    }
  }

  /** No descriptor is open for `key`. */
  ghost predicate NotOpen(files: seq<VfsFile>, places: seq<Place>, key: Key)
    requires |files| == |places|
  {
    forall fd :: 0 <= fd < |files| && files[fd].open ==> places[fd].key != key
  }

  /** Descriptors of other files do not notice that the entry and the node of `key` changed. */
  lemma FdsKept(g: Geometry, fs0: FileSys, fs1: FileSys, slots0: seq<Slot32>, slots1: seq<Slot32>,
                files: seq<VfsFile>, places: seq<Place>, key: Key)
    requires FdsOk(g, fs0, slots0, files, places) && NotOpen(files, places, key)
    requires fs0.dch <= fs1.dch && |slots0| <= |slots1|
    requires forall other :: other in fs0.nodes && other != key ==> other in fs1.nodes && fs1.nodes[other] == fs0.nodes[other]
    requires forall other :: other in fs0.dir && other != key ==> other in fs1.dir && fs1.dir[other] == fs0.dir[other]
    requires forall k :: 0 <= k < |slots0| && Live(slots0[k]) && KeyOf(slots0[k]) != key ==> slots1[k] == slots0[k]
    ensures FdsOk(g, fs1, slots1, files, places)
  {
    hide Live, KeyOf, Tells;
    forall fd | 0 <= fd < |files| && files[fd].open ensures FdOk(g, fs1, slots1, files[fd], places[fd]) {
      assert FdOk(g, fs0, slots0, files[fd], places[fd]);
      PlaceStays(g, fs0.dch, fs1.dch, places[fd], files[fd].entryLba, files[fd].entryOffset);
    }
  }

  lemma PlaceStays(g: Geometry, dch0: seq<nat>, dch1: seq<nat>, p: Place, lba: nat, off: nat)
    requires EntryPlaced(g, dch0, p.k, lba, off, p.i, p.s) && dch0 <= dch1
    ensures EntryPlaced(g, dch1, p.k, lba, off, p.i, p.s)
  {
  }

  /** The state after `key`'s file changed on the volume, before its own descriptor is put back. */
  lemma ShutFd(g: Geometry, fs: FileSys, slots: seq<Slot32>, files: seq<VfsFile>, places: seq<Place>, fd: nat)
    requires FdsOk(g, fs, slots, files, places) && fd < |files| && files[fd].open
    ensures FdsOk(g, fs, slots, files[fd := files[fd].(open := false)], places)
    ensures NotOpen(files[fd := files[fd].(open := false)], places, places[fd].key)
  {
    hide Placed, Tells;
    var shut := files[fd := files[fd].(open := false)];
    assert places[fd := places[fd]] == places;
    FdReplaced(g, fs, slots, files, places, fd, files[fd].(open := false), places[fd]);
    forall a | 0 <= a < |files| && shut[a].open ensures places[a].key != places[fd].key {
      assert a != fd;
      if a < fd {
        assert files[a].open && files[fd].open;
      } else {
        assert files[fd].open && files[a].open;
      }
    }
  }

  /** A file's entry was rewritten: the open descriptor `fd` of that file moved on to `f`. */
  lemma FdsRestarted(g: Geometry, fs: FileSys, slots: seq<Slot32>, files: seq<VfsFile>, places: seq<Place>, fd: nat,
                     f: VfsFile, n: Node, e: Slot32)
    requires FdsOk(g, fs, slots, files, places) && fd < |files| && files[fd].open && f.open
    requires f.entryLba == files[fd].entryLba && f.entryOffset == files[fd].entryOffset
    requires Tells(f, n)
    requires places[fd].k < |slots| && e[..12] == slots[places[fd].k][..12]
    requires places[fd].key in fs.nodes
    ensures var p := places[fd];
      var fs1 := WithNode(fs, p.key, n).(dir := fs.dir[p.key := e]);
      && FdsOk(g, fs1, slots[p.k := e], files[fd := f], places)
      && AbsFiles(fs1) == AbsFiles(fs)[p.key := n.bytes]
      && AbsFds(files[fd := f], places) == AbsFds(files, places)[fd := Opened(p.key, f.position, f.flags)]
  {
    hide Live, KeyOf, Tells, EntryPlaced;
    var p := places[fd];
    var fs1 := WithNode(fs, p.key, n).(dir := fs.dir[p.key := e]);
    assert FdOk(g, fs, slots, files[fd], p);
    SameName(slots[p.k], e);
    ShutFd(g, fs, slots, files, places, fd);
    var shut := files[fd := files[fd].(open := false)];
    FdsKept(g, fs, fs1, slots, slots[p.k := e], shut, places, p.key);
    FdReplaced(g, fs1, slots[p.k := e], shut, places, fd, f, p);
    assert shut[fd := f] == files[fd := f] && places[fd := p] == places;
    assert AbsFds(files[fd := f], places) == AbsFds(files, places)[fd := Opened(p.key, f.position, f.flags)];
  }

  ghost function StateOf(fs: FileSys, files: seq<VfsFile>, places: seq<Place>): Spec
    requires |files| == |places|
  {
    Spec(AbsFiles(fs), AbsFds(files, places))
  }

  /** What an open descriptor stands for. */
  lemma FdOpen(g: Geometry, fs: FileSys, slots: seq<Slot32>, files: seq<VfsFile>, places: seq<Place>, fd: int)
    requires FdsOk(g, fs, slots, files, places) && 0 <= fd < |files| && files[fd].open
    ensures var key, s := places[fd].key, StateOf(fs, files, places);
      && key in fs.nodes && IsOpen(s, fd) && s.files[key] == fs.nodes[key].bytes
      && s.fds[fd] == Opened(key, files[fd].position, files[fd].flags)
      && Placed(g, fs, slots, places[fd], files[fd].entryLba, files[fd].entryOffset)
      && Tells(files[fd], fs.nodes[key]) && files[fd].fileSize == |s.files[key]|
  {
    assert FdOk(g, fs, slots, files[fd], places[fd]);
  }

  lemma FdClosed(g: Geometry, fs: FileSys, slots: seq<Slot32>, files: seq<VfsFile>, places: seq<Place>, fd: nat)
    requires FdsOk(g, fs, slots, files, places) && fd < |files|
    ensures var files1 := files[fd := files[fd].(open := false)];
      FdsOk(g, fs, slots, files1, places) && StateOf(fs, files1, places) == Closing(StateOf(fs, files, places), fd)
  {
    hide Placed, Tells;
    assert places[fd := places[fd]] == places;
    FdReplaced(g, fs, slots, files, places, fd, files[fd].(open := false), places[fd]);
  }

  lemma FdMoved(g: Geometry, fs: FileSys, slots: seq<Slot32>, files: seq<VfsFile>, places: seq<Place>, fd: nat, position: Word)
    requires FdsOk(g, fs, slots, files, places) && fd < |files| && files[fd].open
    ensures var files1 := files[fd := files[fd].(position := position)];
      && FdsOk(g, fs, slots, files1, places) && IsOpen(StateOf(fs, files, places), fd)
      && StateOf(fs, files1, places) == Moved(StateOf(fs, files, places), fd, position)
  {
    hide Placed;
    FdOpen(g, fs, slots, files, places, fd);
    ShutFd(g, fs, slots, files, places, fd);
    var f := files[fd].(position := position);
    assert FdOk(g, fs, slots, files[fd], places[fd]);
    assert places[fd := places[fd]] == places;
    FdReplaced(g, fs, slots, files, places, fd, f, places[fd]);
    assert AbsFds(files[fd := f], places) == AbsFds(files, places)[fd := Opened(places[fd].key, position, f.flags)];
  }

  lemma AfterWriteSize(s: Spec, fd: int, f: VfsFile, newStart: Word, buf: seq<Byte>)
    requires IsOpen(s, fd) && s.fds[fd].pos == f.position && f.fileSize == |s.files[s.fds[fd].key]|
    ensures f.position + |buf| < U32_RANGE ==>
      (AfterWrite(f, newStart, |buf|).fileSize == |Writing(s, fd, buf).files[s.fds[fd].key]| <==> GrowsByBytes(f, buf))
  {
  }

  /** The table and the files after a write whose entry has been rewritten. */
  lemma WriteRestarted(g: Geometry, fs: FileSys, slots: seq<Slot32>, files: seq<VfsFile>, places: seq<Place>, fd: nat,
                       newStart: Word, buf: seq<Byte>, n: Node, e: Slot32)
    requires FdsOk(g, fs, slots, files, places) && fd < |files| && files[fd].open && files[fd].position + |buf| < U32_RANGE
    requires places[fd].key in fs.nodes && n.bytes == Overwritten(fs.nodes[places[fd].key].bytes, files[fd].position, buf)
    requires Tells(AfterWrite(files[fd], newStart, |buf|), n)
    requires places[fd].k < |slots| && e[..12] == slots[places[fd].k][..12]
    ensures var p, f := places[fd], AfterWrite(files[fd], newStart, |buf|);
      var fs1 := WithNode(fs, p.key, n).(dir := fs.dir[p.key := e]);
      && FdsOk(g, fs1, slots[p.k := e], files[fd := f], places)
      && IsOpen(StateOf(fs, files, places), fd)
      && StateOf(fs1, files[fd := f], places) == Writing(StateOf(fs, files, places), fd, buf)
  {
    hide Placed, Tells, Overwritten;
    FdOpen(g, fs, slots, files, places, fd);
    FdsRestarted(g, fs, slots, files, places, fd, AfterWrite(files[fd], newStart, |buf|), n, e);
  }

  ghost function FdChain(fs: FileSys, places: seq<Place>, fd: int): seq<nat> {
    if 0 <= fd < |places| && places[fd].key in fs.nodes then fs.nodes[places[fd].key].ch else []
  }

  /** The lowest closed descriptor, or the table's length. */
  function FirstShut(files: seq<VfsFile>): (fd: nat)
    ensures fd <= |files| && (fd < |files| ==> !files[fd].open)
    ensures forall k :: 0 <= k < fd ==> files[k].open
  {
    if files == [] || !files[0].open then 0 else 1 + FirstShut(files[1..])
  }

  /** A closed descriptor opened for `key`, after that file alone may have changed on the volume. */
  lemma FdsOpened(g: Geometry, fs0: FileSys, fs1: FileSys, slots0: seq<Slot32>, slots1: seq<Slot32>,
                  files: seq<VfsFile>, places: seq<Place>, fd: nat, f: VfsFile, p: Place)
    requires FdsOk(g, fs0, slots0, files, places) && NotOpen(files, places, p.key)
    requires fs0.dch <= fs1.dch && |slots0| <= |slots1|
    requires forall other :: other in fs0.nodes && other != p.key ==> other in fs1.nodes && fs1.nodes[other] == fs0.nodes[other]
    requires forall other :: other in fs0.dir && other != p.key ==> other in fs1.dir && fs1.dir[other] == fs0.dir[other]
    requires forall k :: 0 <= k < |slots0| && Live(slots0[k]) && KeyOf(slots0[k]) != p.key ==> slots1[k] == slots0[k]
    requires fd < |files| && !files[fd].open && f.open && Placed(g, fs1, slots1, p, f.entryLba, f.entryOffset) && Tells(f, fs1.nodes[p.key])
    ensures FdsOk(g, fs1, slots1, files[fd := f], places[fd := p])
    ensures AbsFds(files[fd := f], places[fd := p]) == AbsFds(files, places)[fd := Opened(p.key, f.position, f.flags)]
  {
    hide Placed, Tells, Live, KeyOf, FdsOk;
    FdsKept(g, fs0, fs1, slots0, slots1, files, places, p.key);
    TableSize(g, fs1, slots1, files, places);
    FdReplaced(g, fs1, slots1, files, places, fd, f, p);
  }

  lemma TableSize(g: Geometry, fs: FileSys, slots: seq<Slot32>, files: seq<VfsFile>, places: seq<Place>)
    requires FdsOk(g, fs, slots, files, places)
    ensures |files| == |places| == VFS_MAX_OPEN_FILES
  {
  }

  /** A closed slot of the table may hold anything. */
  lemma FdsShut(g: Geometry, fs: FileSys, slots: seq<Slot32>, files: seq<VfsFile>, places: seq<Place>, fd: nat, f: VfsFile)
    requires FdsOk(g, fs, slots, files, places) && fd < |files| && !files[fd].open && !f.open
    ensures FdsOk(g, fs, slots, files[fd := f], places)
    ensures StateOf(fs, files[fd := f], places) == StateOf(fs, files, places)
  {
    hide Placed, Tells;
    FdReplaced(g, fs, slots, files, places, fd, f, places[fd]);
    assert places[fd := places[fd]] == places;
    assert AbsFds(files, places)[fd := Shut] == AbsFds(files, places);
  }

  /** Files that are not in the directory are not open. */
  lemma AbsentNotOpen(g: Geometry, fs: FileSys, slots: seq<Slot32>, files: seq<VfsFile>, places: seq<Place>, key: Key)
    requires FdsOk(g, fs, slots, files, places) && key !in fs.dir
    ensures NotOpen(files, places, key)
  {
    hide EntryPlaced, Live, KeyOf, Tells;
    forall fd | 0 <= fd < |files| && files[fd].open ensures places[fd].key != key {
      assert FdOk(g, fs, slots, files[fd], places[fd]);
    }
  }

  /** A new file opened. */
  lemma FdsCreated(g: Geometry, fs: FileSys, slots: seq<Slot32>, files: seq<VfsFile>, places: seq<Place>, fd: nat,
                   f: VfsFile, p: Place, dch1: seq<nat>, e: Slot32, m: nat)
    requires FdsOk(g, fs, slots, files, places) && p.key !in fs.dir && p.key !in fs.nodes && KeyOf(e) == p.key && fs.dch <= dch1
    requires fd < |files| && !files[fd].open && f.open && f.position == 0 && f.fileSize == 0
    requires Placed(g, WithNewFile(fs, dch1, e, f.startCluster), Inserted(slots, e, m), p, f.entryLba, f.entryOffset)
    ensures var fs1, slots1 := WithNewFile(fs, dch1, e, f.startCluster), Inserted(slots, e, m);
      && FdsOk(g, fs1, slots1, files[fd := f], places[fd := p])
      && StateOf(fs1, files[fd := f], places[fd := p]) == Opening(StateOf(fs, files, places), fd, p.key, f.flags)
  {
    hide Placed, Live, KeyOf, FdsOk, Inserted;
    TableSize(g, fs, slots, files, places);
    AbsentNotOpen(g, fs, slots, files, places, p.key);
    InsertedKeeps(slots, e, m);
    FdsOpened(g, fs, WithNewFile(fs, dch1, e, f.startCluster), slots, Inserted(slots, e, m), files, places, fd, f, p);
  }

  lemma InsertedKeeps(slots: seq<Slot32>, e: Slot32, m: nat)
    ensures |slots| <= |Inserted(slots, e, m)|
    ensures forall k :: 0 <= k < |slots| && Live(slots[k]) ==> Inserted(slots, e, m)[k] == slots[k]
  {
    hide Slots, Live;
  }

  /** An existing file opened, untouched. */
  lemma FdsReopened(g: Geometry, fs: FileSys, slots: seq<Slot32>, files: seq<VfsFile>, places: seq<Place>, fd: nat, f: VfsFile, p: Place)
    requires FdsOk(g, fs, slots, files, places) && NotOpen(files, places, p.key)
    requires fd < |files| && !files[fd].open && f.open && Placed(g, fs, slots, p, f.entryLba, f.entryOffset) && Tells(f, fs.nodes[p.key])
    requires !f.flags.trunc && f.position == if f.flags.append then f.fileSize else 0
    ensures FdsOk(g, fs, slots, files[fd := f], places[fd := p])
    ensures StateOf(fs, files[fd := f], places[fd := p]) == Opening(StateOf(fs, files, places), fd, p.key, f.flags)
  {
    hide Live, KeyOf, FdsOk, EntryPlaced;
    TableSize(g, fs, slots, files, places);
    FdsOpened(g, fs, fs, slots, slots, files, places, fd, f, p);
    assert AbsFiles(fs)[p.key := fs.nodes[p.key].bytes] == AbsFiles(fs);
  }

  /** An existing file opened and emptied. */
  lemma FdsTruncated(g: Geometry, fs: FileSys, slots: seq<Slot32>, files: seq<VfsFile>, places: seq<Place>, fd: nat,
                     f: VfsFile, p: Place, e: Slot32)
    requires FdsOk(g, fs, slots, files, places) && NotOpen(files, places, p.key)
    requires fd < |files| && !files[fd].open && f.open && Placed(g, fs, slots, p, f.entryLba, f.entryOffset)
    requires e[..12] == slots[p.k][..12] && f.flags.trunc && f.position == 0 && f.fileSize == 0
    ensures var n := Node([f.startCluster], []);
      var fs1, slots1 := WithNode(fs, p.key, n).(dir := fs.dir[p.key := e]), slots[p.k := e];
      && FdsOk(g, fs1, slots1, files[fd := f], places[fd := p])
      && StateOf(fs1, files[fd := f], places[fd := p]) == Opening(StateOf(fs, files, places), fd, p.key, f.flags)
  {
    hide Live, KeyOf, FdsOk, EntryPlaced;
    TableSize(g, fs, slots, files, places);
    SameName(slots[p.k], e);
    var fs1 := WithNode(fs, p.key, Node([f.startCluster], [])).(dir := fs.dir[p.key := e]);
    FdsOpened(g, fs, fs1, slots, slots[p.k := e], files, places, fd, f, p);
  }

  /** A file deleted while no descriptor was open for it. */
  lemma FdsDeleted(g: Geometry, fs: FileSys, slots: seq<Slot32>, files: seq<VfsFile>, places: seq<Place>, key: Key)
    requires FdsOk(g, fs, slots, files, places) && NotOpen(files, places, key)
    ensures FdsOk(g, Without(fs, key), Erased(slots, key), files, places)
    ensures StateOf(Without(fs, key), files, places) == Deleting(StateOf(fs, files, places), key)
  {
    hide Live, KeyOf, EntryPlaced, Tells, Search;
    FdsKept(g, fs, Without(fs, key), slots, Erased(slots, key), files, places, key);
  }

  /** What vfs_open answers, with `free` clusters free, when the lowest closed descriptor is `fd`. */
  function OpenResult(fd: nat, fs: FileSys, slots: seq<Slot32>, free: nat, key: Key, flags: Flags): int {
    if fd >= VFS_MAX_OPEN_FILES then VFS_ERR_NOMEM
    else if key !in fs.dir then
      if !flags.create then VFS_ERR_NOTFOUND
      else if free == 0 then VFS_ERR_NOSPACE
      else if FirstFree(slots).Hit? || free >= 2 then fd
      else VFS_ERR_IO
    else if IsDirectory(fs.dir[key]) then VFS_ERR_ISDIR
    else if flags.trunc && free == 0 then VFS_ERR_NOSPACE
    else fd
  }
}
