/** The file calls of fs/vfs.c over one directory: open, close, read, write, seek, delete. */
module Vfs {
  import opened Blocks
  import opened SectorCache
  import opened FatTable
  import opened VolumeState
  import opened Chains
  import opened FileBytes
  import opened Fat32
  import opened ChainIO
  import opened ShortNames
  import opened DirSlots
  import opened Directory
  import opened DirWrite
  import opened WriteOrder
  import opened FileSystem
  import opened Threading
  import opened FileSpec
  import opened VfsFiles
  import opened VfsTable

  /** The descriptor table and the volume under it. The ghost fields say which file system the
      volume holds, how its directory reads, and where each open file's entry lies. */
  class FileTable {
    const vol: Volume
    const root: nat
    const files: array<VfsFile>
    ghost var fs: FileSys
    ghost var slots: seq<Slot32>
    ghost var places: seq<Place>

    ghost predicate Inv()
      reads this, files, vol.cache.slots, vol.cache.table
    {
      && vol.Valid() && VolOk(vol.g, vol.Now(), root, fs, slots)
      && FdsOk(vol.g, fs, slots, files[..], places)
    }

    /** The files and descriptors as callers know them. */
    ghost function State(): Spec
      reads this, files
      requires |places| == files.Length
    {
      StateOf(fs, files[..], places)
    }

    /** The free count is exact and the links of the FAT are sound. */
    ghost predicate Neat()
      reads this, vol, vol.cache.slots, vol.cache.table
    {
      vol.Valid() && vol.Exact() && Threaded(Seen(vol.g, vol.Now()).fat1, Heads(fs))
    }

    /** The same volume with its files told anew: the heads of the old telling do. */
    lemma NeatAnew(was: FileSys)
      requires vol.Valid() && vol.Exact() && Threaded(Seen(vol.g, vol.Now()).fat1, Heads(was)) && Heads(fs) <= Heads(was)
      ensures Neat()
    {
      hide NoDangling, OneWay, IsHead, Heads, CountFree;
    }

    lemma NeatMeans()
      requires Neat()
      ensures vol.Valid() && vol.Exact() && Threaded(Seen(vol.g, vol.Now()).fat1, Heads(fs))
    {
    }

    /** With everything on the device, sound links mean that none dangles there. */
    lemma NeatIsOrdered()
      requires Inv() && Neat()
      ensures Ordered(vol.g, vol.Now())
    {
      hide FdsOk, Mounted, Abs, View, FsOk, DirReads, NoDangling;
      VolumeBounds(vol.g, vol.Now());
      FlushedStored(vol.g, vol.Now());
    }

    /** Names in the directory that are no files. */
    ghost function Reserved(): set<Key>
      reads this
    {
      fs.dir.Keys - fs.nodes.Keys
    }

    predicate IsFd(fd: int)
      reads files
    {
      0 <= fd < files.Length && files[fd].open
    }

    /** vfs_init over a volume that holds `fs`. */
    constructor (vol: Volume, root: nat, ghost fs: FileSys, ghost slots: seq<Slot32>)
      requires vol.Valid() && VolOk(vol.g, vol.Now(), root, fs, slots)
      ensures Inv() && this.vol == vol && this.fs == fs && fresh(files)
      ensures State() == Spec(AbsFiles(fs), seq(VFS_MAX_OPEN_FILES, _ => Shut))
    {
      hide VolOk, AbsFiles, Coherent, Mounted;
      this.vol, this.root, this.fs, this.slots := vol, root, fs, slots;
      files := new VfsFile[VFS_MAX_OPEN_FILES](_ => VfsFile(false, 0, 0, 0, Flags(false, false, false, false, false), 0, 0));
      places := seq(VFS_MAX_OPEN_FILES, _ => Place([], 0, 0, 0));
    }

    /** vfs_close */
    method Close(fd: int) returns (r: int)
      requires Inv()
      modifies files
      ensures Inv()
      ensures if old(IsFd(fd)) then r == VFS_OK && State() == Closing(old(State()), fd)
        else r == VFS_ERR_BADFD && State() == old(State())
    {
      hide VolOk, FdOk, AbsFds, AbsFiles, Coherent, Mounted;
      if fd < 0 || fd >= files.Length || !files[fd].open {
        return VFS_ERR_BADFD;
      }
      ghost var was := files[..];
      FdClosed(vol.g, fs, slots, was, places, fd);
      files[fd] := files[fd].(open := false);
      assert files[..] == was[fd := files[fd]];
      return VFS_OK;
    }

    /** Only the position of a descriptor changes. */
    method Reposition(fd: nat, position: Word)
      requires Inv() && IsFd(fd)
      modifies files
      ensures Inv() && IsOpen(old(State()), fd) && State() == Moved(old(State()), fd, position)
      ensures files[fd] == old(files[fd]).(position := position)
    {
      hide VolOk, FdOk, AbsFds, AbsFiles, Moved, IsOpen, Coherent, Mounted;
      ghost var was := files[..];
      FdMoved(vol.g, fs, slots, was, places, fd, position);
      files[fd] := files[fd].(position := position);
      assert files[..] == was[fd := files[fd]];
    }

    /** vfs_seek: the target is computed in 64 bits, never before the start, then cut to 32 bits. */
    method Seek(fd: int, offset: int, whence: int) returns (r: int)
      requires Inv() && -0x8000_0000 <= offset < 0x8000_0000
      modifies files
      ensures Inv()
      ensures !old(IsFd(fd)) ==> r == VFS_ERR_BADFD && State() == old(State())
      ensures old(IsFd(fd)) && whence !in {0, 1, 2} ==> r == VFS_ERR_BADPATH && State() == old(State())
      ensures old(IsFd(fd)) && whence in {0, 1, 2} ==>
        && IsOpen(old(State()), fd)
        && var f := old(State()).fds[fd];
           var target := Target(if whence == 0 then 0 else if whence == 1 then f.pos else |old(State()).files[f.key]|, offset);
           State() == Moved(old(State()), fd, target) && r == AsInt(target)
    {
      hide VolOk, FdsOk, AbsFds, AbsFiles, Moved, Placed, Tells, Coherent, Mounted;
      SameTable();
      if fd < 0 || fd >= files.Length || !files[fd].open {
        return VFS_ERR_BADFD;
      }
      FdOpen(vol.g, fs, slots, files[..], places, fd);
      var next: int;
      if whence == 0 {
        next := offset;
      } else if whence == 1 {
        next := files[fd].position + offset;
      } else if whence == 2 {
        next := files[fd].fileSize + offset;
      } else {
        return VFS_ERR_BADPATH;
      }
      if next < 0 {
        next := 0;
      }
      Reposition(fd, next % U32_RANGE);
      return AsInt(files[fd].position);
    }

    lemma SameTable()
      requires Inv()
      ensures |places| == files.Length == VFS_MAX_OPEN_FILES
    {
      hide VolOk, FdOk;
    }

    /** vfs_read. A count of 2^31 or more comes back negative and reads as an error. When a transfer
        fails, fewer bytes than there are may come back, but never others. */
    method Read(fd: int, len: Word) returns (r: int, buf: seq<Byte>)
      requires Inv()
      modifies files, vol.cache.slots, vol.cache.table
      ensures vol.Valid() && Inv() && (old(Neat()) ==> Neat())
      ensures !old(IsFd(fd)) ==> r == VFS_ERR_BADFD && State() == old(State())
      ensures old(IsFd(fd)) && !old(files[fd]).flags.read ==> r == VFS_ERR_READONLY && State() == old(State())
      ensures old(IsFd(fd)) && old(files[fd]).flags.read ==>
        && IsOpen(old(State()), fd)
        && (vol.cache.table.failures == old(vol.cache.table.failures) ==>
              var data := Reading(old(State()), fd, len);
              if |data| < 0x8000_0000 then r == |data| && buf == data && State() == AfterRead(old(State()), fd, len)
              else r == VFS_ERR_IO && State() == old(State()))
        && (|Reading(old(State()), fd, len)| < 0x8000_0000 ==>
              && (r < 0 ==> State() == old(State()))
              && (r >= 0 ==>
                    && r <= |Reading(old(State()), fd, len)| && buf == Reading(old(State()), fd, len)[..r]
                    && State() == Moved(old(State()), fd, old(files[fd]).position + r)))
    {
      hide VolOk, FdsOk, AbsFds, AbsFiles, Placed, Coherent, Mounted, AfterRead, Moved, Neat, Reading;
      SameTable();
      buf := [];
      if fd < 0 || fd >= files.Length || !files[fd].open {
        return VFS_ERR_BADFD, buf;
      }
      FdOpen(vol.g, fs, slots, files[..], places, fd);
      if !files[fd].flags.read {
        return VFS_ERR_READONLY, buf;
      }
      ReadingIs(State(), fd, len);
      if files[fd].position >= files[fd].fileSize {
        return 0, buf;
      }
      var remaining := files[fd].fileSize - files[fd].position;
      var count := if len > remaining then remaining else len;
      var got;
      got, buf := ReadFile(files[fd], count, fs.nodes[places[fd].key]);
      if got < 0 {
        return VFS_ERR_IO, buf;
      }
      Reposition(fd, (files[fd].position + got) % U32_RANGE);
      return got, buf;
    }

    /** The chain read of vfs_read. */
    method ReadFile(f: VfsFile, count: Word, ghost n: Node) returns (got: int, buf: seq<Byte>)
      requires Inv() && Tells(f, n) && f.position + count <= f.fileSize && (exists key :: key in fs.nodes && fs.nodes[key] == n)
      modifies vol.cache.slots, vol.cache.table
      ensures Inv() && (old(Neat()) ==> Neat())
      ensures vol.cache.table.failures == old(vol.cache.table.failures) ==>
        f.position + count <= |n.bytes| && got == AsInt(count) && buf == n.bytes[f.position..f.position + count]
      ensures count < 0x8000_0000 && got >= 0 ==>
        got == |buf| <= count && f.position + got <= |n.bytes| && buf == n.bytes[f.position..f.position + got]
    {
      hide Mounted, Coherent, Abs, View, FsOk, DirReads, Represents, Quiet, ReadOutcome, ReadPart, IsChain, FdsOk;
      ghost var w0 := vol.Now();
      VolumeBounds(vol.g, w0);
      FileChain(vol.g, w0, root, fs, slots, n);
      got, buf := ReadChain(vol, f.startCluster, f.position, count, n.ch);
      ghost var w1 := vol.Now();
      VolumeBounds(vol.g, w1);
      QuietVolume(vol.g, w0, w1);
      VolOkQuiet(vol.g, w0, w1, root, fs, slots);
      if count < 0x8000_0000 {
        FilePartRead(Seen(vol.g, w0), vol.g.BytesPerCluster(), n, f.position, count, got, buf);
      }
      if w1.failures == w0.failures {
        FileRead(vol.g.totalClusters, Seen(vol.g, w0), vol.g.BytesPerCluster(), n, f.position, count, got, buf);
      }
    }

    /** The chain write of vfs_write. */
    method WriteFile(f: VfsFile, buf: seq<Byte>, ghost key: Key)
      returns (r: int, newStart: Word, ghost ch1: seq<nat>, ghost finished: bool, ghost torn: bool)
      requires Inv() && |buf| < U32_RANGE && key in fs.nodes && Tells(f, fs.nodes[key])
      modifies vol`freeClusters, vol`nextFree, vol.cache.slots, vol.cache.table
      ensures vol.Valid() && Step(vol.g, old(vol.Now()), vol.Now())
      ensures r == if finished then ChainIO.AsInt(|buf|) else -1
      ensures vol.cache.table.failures == old(vol.cache.table.failures) ==> !torn
      ensures old(Ordered(vol.g, vol.Now())) ==>
        CrashSafe(vol.g, old(vol.Now()), vol.Now()) && (finished ==> Ordered(vol.g, vol.Now()))
      ensures buf == [] ==> finished && !torn && newStart == f.startCluster && vol.Now() == old(vol.Now()) && (old(Neat()) ==> Neat())
      ensures buf != [] && f.position + |buf| < U32_RANGE ==>
        && vol.g.BytesPerCluster() > 0
        && (vol.cache.table.failures == old(vol.cache.table.failures) ==>
              (finished <==> CanFinish(vol.g.totalClusters, |fs.nodes[key].ch| + FreeCount(Seen(vol.g, old(vol.Now())).fat1),
                                       vol.g.BytesPerCluster(), f.position, |buf|)))
        && (finished && !torn ==>
              && Written(Seen(vol.g, old(vol.Now())), Seen(vol.g, vol.Now()), fs.nodes[key].ch, ch1, vol.g.BytesPerCluster(),
                         f.position, buf, newStart)
              && KeepsClean(vol.g, old(vol.Now()), vol.Now(), Members(ch1))
              && fs.nodes[key].ch != [] && ch1 != [] && ch1[0] == fs.nodes[key].ch[0])
        && (!finished && vol.cache.table.failures == old(vol.cache.table.failures) ==>
              HalfWritten(vol.g, vol.Now(), root, fs, slots, key, f.position, buf))
        && (!torn && (finished || vol.cache.table.failures == old(vol.cache.table.failures)) && old(Neat()) ==> Neat())
    {
      hide VolOk, FdsOk, Coherent, Mounted, CanFinish, Quiet, Step, Abs, IsChain, Written, PartWritten, HalfWritten,
           KeepsClean, Torn, Threaded;
      ghost var w0, n0, neat := vol.Now(), fs.nodes[key], Neat();
      VolumeBounds(vol.g, w0);
      FileChain(vol.g, w0, root, fs, slots, n0);
      TellsStart(vol.g, w0, f, n0);
      ghost var done;
      r, newStart, ch1, finished, torn, done := WriteChain(vol, f.startCluster, f.position, buf, n0.ch);
      ghost var w1 := vol.Now();
      StepBounds(vol.g, w0, w1);
      if buf == [] {
        torn := false;
      } else if f.position + |buf| < U32_RANGE {
        if !torn && (finished || w1.failures == w0.failures) {
          WriteBegins(vol.g, w0, w1, root, fs, slots, key, f.position, buf, ch1, finished, done, newStart);
          if neat {
            WriteThreads(vol.g, w0, w1, root, fs, slots, key, f.position, buf, ch1, finished, done, newStart);
          }
        }
        if !finished && w1.failures == w0.failures {
          RefusedLeaves(vol.g, w0, w1, root, fs, slots, key, f.position, buf, ch1, done, newStart);
        }
      }
    }

    /** vfs_write on a descriptor that may write, as far as volume and descriptor go: the file's new node
        and entry, which the ghost fields do not tell yet. */
    method WriteVolume(fd: nat, buf: seq<Byte>) returns (r: int, ghost torn: bool, ghost newStart: Word, ghost n1: Node, ghost e: Slot32)
      requires Inv() && |buf| < U32_RANGE && IsFd(fd)
      modifies files, vol`freeClusters, vol`nextFree, vol.cache.slots, vol.cache.table
      ensures vol.Valid() && (vol.cache.table.failures == old(vol.cache.table.failures) ==> !torn)
      ensures old(Ordered(vol.g, vol.Now())) ==> CrashSafe(vol.g, old(vol.Now()), vol.Now())
      ensures r >= 0 ==> Clean(vol.Now(), vol.g.dev)
      ensures IsOpen(old(State()), fd) && vol.g.BytesPerCluster() > 0
      ensures |buf| < 0x8000_0000 && old(files[fd]).position + |buf| < U32_RANGE ==>
        && (vol.cache.table.failures == old(vol.cache.table.failures) ==>
              r == (if buf == [] || CanFinish(vol.g.totalClusters,
                                              |old(FdChain(fs, places, fd))| + FreeCount(Seen(vol.g, old(vol.Now())).fat1),
                                              vol.g.BytesPerCluster(), old(files[fd]).position, |buf|)
                    then |buf| else VFS_ERR_IO))
        && (!torn && (r >= 0 || vol.cache.table.failures == old(vol.cache.table.failures)) && old(Neat()) ==> Neat())
        && (r < 0 && vol.cache.table.failures == old(vol.cache.table.failures) ==>
              && files[..] == old(files[..])
              && HalfWritten(vol.g, vol.Now(), root, fs, slots, old(places[fd]).key, old(files[fd]).position, buf))
        && (r >= 0 ==> r == |buf| && files[..] == old(files[..])[fd := AfterWrite(old(files[fd]), newStart, |buf|)])
        && (forall other :: 0 <= other < files.Length && other != fd ==> files[other] == old(files[other]))
        && (r >= 0 && !torn && GrowsByBytes(old(files[fd]), buf) ==>
              NodeWritten(vol.g, vol.Now(), root, fs, slots, places[fd], old(files[fd]), newStart, buf, n1, e))
    {
      hide VolOk, FdsOk, AbsFds, AbsFiles, Coherent, Mounted, Unsynced, Placed, Tells, Writing, CanFinish,
           Quiet, Step, Clean, Restart, Live, KeyOf, Abs, IsChain, AfterWrite, Written, PartWritten, HalfWritten,
           KeepsClean, GrowsByBytes, Torn, Threaded, Heads, CountFree, CrashSafe, NoDangling, Neat;
      SameTable();
      ghost var w0 := vol.Now();
      VolumeBounds(vol.g, w0);
      CrashSafeSelf(vol.g, w0);
      ghost var ordered := Ordered(vol.g, w0);
      ghost var was, p := files[..], places[fd];
      FdOpen(vol.g, fs, slots, was, places, fd);
      ghost var n0 := fs.nodes[p.key];
      var start;
      ghost var ch1, finished;
      r, start, ch1, finished, torn := WriteFile(files[fd], buf, p.key);
      ghost var w1 := vol.Now();
      StepBounds(vol.g, w0, w1);
      newStart := start;
      n1, e := Node(if buf == [] then n0.ch else ch1, Overwritten(n0.bytes, was[fd].position, buf)), slots[p.k];
      if r < 0 {
        r := VFS_ERR_IO;
        return;
      }
      files[fd] := AfterWrite(files[fd], start, r);
      AfterWritePlace(vol.g, fs, slots, was[fd], p, start, r);
      e := Restart(slots[p.k], files[fd].startCluster, files[fd].fileSize);
      var ok := SyncNode(files[fd], WithNode(fs, p.key, n1), p);
      ghost var w2 := vol.Now();
      StepBounds(vol.g, w1, w2);
      if ordered {
        CrashSafeTransitive(vol.g, w0, w1, w2);
      }
      if !ok {
        r := VFS_ERR_IO;
        return;
      }
      if !torn && was[fd].position + |buf| < U32_RANGE && |buf| < 0x8000_0000 && GrowsByBytes(was[fd], buf) {
        WriteLeaves(vol.g, w0, w1, root, fs, slots, was[fd], p, buf, ch1, start);
        HeadsRewritten(fs, p.key, n1, fs.dir[p.key := e]);
      }
    }

    /** vfs_write on a descriptor that may write. */
    method WriteOpen(fd: nat, buf: seq<Byte>) returns (r: int, ghost torn: bool)
      requires Inv() && |buf| < U32_RANGE && IsFd(fd)
      modifies this`fs, this`slots, files, vol`freeClusters, vol`nextFree, vol.cache.slots, vol.cache.table
      ensures vol.Valid() && (vol.cache.table.failures == old(vol.cache.table.failures) ==> !torn) && Reserved() == old(Reserved())
      ensures old(Ordered(vol.g, vol.Now())) ==> CrashSafe(vol.g, old(vol.Now()), vol.Now())
      ensures r >= 0 ==> Clean(vol.Now(), vol.g.dev)
      ensures IsOpen(old(State()), fd) && vol.g.BytesPerCluster() > 0
      ensures |buf| < 0x8000_0000 && old(files[fd]).position + |buf| < U32_RANGE ==>
        && (vol.cache.table.failures == old(vol.cache.table.failures) ==>
              r == (if buf == [] || CanFinish(vol.g.totalClusters,
                                              |old(FdChain(fs, places, fd))| + FreeCount(Seen(vol.g, old(vol.Now())).fat1),
                                              vol.g.BytesPerCluster(), old(files[fd]).position, |buf|)
                    then |buf| else VFS_ERR_IO))
        && (!torn && (r >= 0 || vol.cache.table.failures == old(vol.cache.table.failures)) && old(Neat()) ==> Neat())
        && (r >= 0 && !torn && GrowsByBytes(old(files[fd]), buf) ==> Inv() && State() == Writing(old(State()), fd, buf))
        && (r >= 0 ==>
              (files[fd].fileSize == |Writing(old(State()), fd, buf).files[old(places[fd]).key]| <==> GrowsByBytes(old(files[fd]), buf)))
        && (r >= 0 ==>
              && r == |buf| && files[fd].open && files[fd].position == old(files[fd]).position + |buf| && files[fd].flags == old(files[fd]).flags
              && files[fd].entryLba == old(files[fd]).entryLba && files[fd].entryOffset == old(files[fd]).entryOffset)
        && (forall other :: 0 <= other < files.Length && other != fd ==> files[other] == old(files[other]))
        && (r < 0 && vol.cache.table.failures == old(vol.cache.table.failures) ==>
              && files[..] == old(files[..]) && fs == old(fs) && slots == old(slots)
              && HalfWritten(vol.g, vol.Now(), root, fs, slots, old(places[fd]).key, old(files[fd]).position, buf))
    {
      hide VolOk, FdsOk, AbsFds, AbsFiles, Coherent, Mounted, Writing, CanFinish, Clean, Restart, Live, KeyOf, Abs, AfterWrite,
           HalfWritten, GrowsByBytes, Threaded, Heads, CountFree, CrashSafe, NoDangling, Neat, Placed, Tells, Overwritten;
      SameTable();
      ghost var was, p := files[..], places[fd];
      FdOpen(vol.g, fs, slots, was, places, fd);
      ghost var s0 := State();
      ghost var newStart, n1, e;
      r, torn, newStart, n1, e := WriteVolume(fd, buf);
      AfterWriteSize(s0, fd, was[fd], newStart, buf);
      if was[fd].position + |buf| < U32_RANGE {
        AfterWriteMoves(was[fd], newStart, |buf|);
      }
      if r >= 0 && !torn && was[fd].position + |buf| < U32_RANGE && |buf| < 0x8000_0000 && GrowsByBytes(was[fd], buf) {
        WriteRestarted(vol.g, fs, slots, was, places, fd, newStart, buf, n1, e);
        ghost var neat, fs0 := Neat(), fs;
        if neat {
          NeatMeans();
        }
        fs, slots := WithNode(fs, p.key, n1).(dir := fs.dir[p.key := e]), slots[p.k := e];
        if neat {
          NeatAnew(fs0);
        }
      }
    }

    /** The end of vfs_write: the entry rewritten, everything on the device. */
    method SyncNode(f: VfsFile, ghost fs1: FileSys, ghost p: Place) returns (ok: bool)
      requires vol.Valid() && EntryPlaced(vol.g, fs1.dch, p.k, f.entryLba, f.entryOffset, p.i, p.s)
      modifies vol.cache.slots, vol.cache.table
      ensures vol.Valid() && Step(vol.g, old(vol.Now()), vol.Now()) && (old(Neat()) ==> Neat())
      ensures ok <==> vol.cache.table.failures == old(vol.cache.table.failures)
      ensures ok ==> Clean(vol.Now(), vol.g.dev)
      ensures old(Ordered(vol.g, vol.Now())) ==> CrashSafe(vol.g, old(vol.Now()), vol.Now())
      ensures ok && Unsynced(vol.g, old(vol.Now()), root, fs1, slots, f, p) ==>
        var e := Restart(slots[p.k], f.startCluster, f.fileSize);
        VolOk(vol.g, vol.Now(), root, fs1.(dir := fs1.dir[p.key := e]), slots[p.k := e])
    {
      hide Unsynced, VolOk, CrashSafe, NoDangling, Clean, Threaded, Heads, CountFree, Mounted, Coherent, Abs, View, Restart,
           EntryPlaced, Step;
      ok := SyncAndFlush(vol, f, root, fs1, slots, p);
    }

    /** vfs_write. `torn` tells that a link read of the chain failed short of its end; such a call may
        return the length all the same. */
    method Write(fd: int, buf: seq<Byte>) returns (r: int, ghost torn: bool)
      requires Inv() && |buf| < U32_RANGE
      modifies this`fs, this`slots, files, vol`freeClusters, vol`nextFree, vol.cache.slots, vol.cache.table
      ensures vol.Valid() && (vol.cache.table.failures == old(vol.cache.table.failures) ==> !torn) && Reserved() == old(Reserved())
      ensures !old(IsFd(fd)) ==> r == VFS_ERR_BADFD && Inv() && State() == old(State()) && (old(Neat()) ==> Neat())
      ensures old(IsFd(fd)) && !old(files[fd]).flags.write ==>
        r == VFS_ERR_READONLY && Inv() && State() == old(State()) && (old(Neat()) ==> Neat())
      ensures old(Ordered(vol.g, vol.Now())) ==> CrashSafe(vol.g, old(vol.Now()), vol.Now())
      ensures r >= 0 ==> Clean(vol.Now(), vol.g.dev)
      ensures old(IsFd(fd)) && old(files[fd]).flags.write ==>
        && IsOpen(old(State()), fd) && vol.g.BytesPerCluster() > 0
        && (|buf| < 0x8000_0000 && old(files[fd]).position + |buf| < U32_RANGE ==>
              && (vol.cache.table.failures == old(vol.cache.table.failures) ==>
                    r == (if buf == [] || CanFinish(vol.g.totalClusters,
                                                    |old(FdChain(fs, places, fd))| + FreeCount(Seen(vol.g, old(vol.Now())).fat1),
                                                    vol.g.BytesPerCluster(), old(files[fd]).position, |buf|)
                          then |buf| else VFS_ERR_IO))
              && (!torn && (r >= 0 || vol.cache.table.failures == old(vol.cache.table.failures)) && old(Neat()) ==> Neat())
              && (r >= 0 && !torn && GrowsByBytes(old(files[fd]), buf) ==> Inv() && State() == Writing(old(State()), fd, buf))
              && (r < 0 && vol.cache.table.failures == old(vol.cache.table.failures) ==>
                    && files[..] == old(files[..]) && fs == old(fs) && slots == old(slots)
                    && HalfWritten(vol.g, vol.Now(), root, fs, slots, old(places[fd]).key, old(files[fd]).position, buf)))
      ensures r >= 0 && old(IsFd(fd)) && |buf| < 0x8000_0000 && old(files[fd]).position + |buf| < U32_RANGE ==>
        (files[fd].fileSize == |Writing(old(State()), fd, buf).files[old(places[fd]).key]| <==> GrowsByBytes(old(files[fd]), buf))
      ensures r >= 0 && old(IsFd(fd)) && |buf| < 0x8000_0000 && old(files[fd]).position + |buf| < U32_RANGE ==>
        && r == |buf| && files[fd].open && files[fd].position == old(files[fd]).position + |buf| && files[fd].flags == old(files[fd]).flags
        && files[fd].entryLba == old(files[fd]).entryLba && files[fd].entryOffset == old(files[fd]).entryOffset
      ensures |buf| < 0x8000_0000 && old(IsFd(fd)) && old(files[fd]).position + |buf| < U32_RANGE ==>
        forall other :: 0 <= other < files.Length && other != fd ==> files[other] == old(files[other])
    {
      hide VolOk, FdsOk, AbsFds, AbsFiles, Coherent, Mounted, Writing, CanFinish, GrowsByBytes, Neat, HalfWritten, CrashSafe,
           NoDangling, Clean, CountFree, Tells, Placed;
      SameTable();
      VolumeBounds(vol.g, vol.Now());
      CrashSafeSelf(vol.g, vol.Now());
      torn := false;
      if fd < 0 || fd >= files.Length || !files[fd].open {
        return VFS_ERR_BADFD, torn;
      }
      FdOpen(vol.g, fs, slots, files[..], places, fd);
      if !files[fd].flags.write {
        return VFS_ERR_READONLY, torn;
      }
      r, torn := WriteOpen(fd, buf);
    }

    /** The search of vfs_open for a free descriptor. */
    method FreeFd() returns (fd: nat)
      ensures fd == FirstShut(files[..]) <= files.Length
      ensures fd < files.Length ==> !files[fd].open
    {
      fd := 0;
      while fd < files.Length && files[fd].open
        invariant fd <= files.Length
        invariant FirstShut(files[..]) == fd + FirstShut(files[fd..])
      {
        assert files[fd..][1..] == files[fd + 1..];
        fd := fd + 1;
      }
    }

    /** No descriptor is open for the name, it is not the volume label's, and creating it would not
        give an entry that counts as deleted at once. */
    ghost predicate Openable(name: CString)
      reads this, files
    {
      && |places| == files.Length && name != []
      && NotOpen(files[..], places, LowerAll(name))
      && (LowerAll(name) !in fs.dir ==> name[0] != DELETED_MARK)
      && (LowerAll(name) in fs.dir ==> IsDirectory(fs.dir[LowerAll(name)]) || IsPlain(fs.dir[LowerAll(name)]))
    }

    /** vfs_open on the 8.3 name of an entry of the directory. */
    method Open(name: CString, flags: Flags) returns (r: int)
      requires Inv() && IsShort(name) && name != []
      modifies this`fs, this`slots, this`places, files, vol`freeClusters, vol`nextFree, vol.cache.slots, vol.cache.table
      ensures vol.Valid() && Reserved() == old(Reserved())
      ensures 0 <= r && (flags.trunc || LowerAll(name) !in old(fs).dir) ==> Clean(vol.Now(), vol.g.dev)
      ensures vol.cache.table.failures == old(vol.cache.table.failures) && old(Openable(name)) ==>
        && r == OpenResult(old(FirstShut(files[..])), old(fs), old(slots), FreeCount(Seen(vol.g, old(vol.Now())).fat1), LowerAll(name), flags)
        && Inv() && (old(Neat()) ==> Neat())
        && (r < 0 ==> State() == old(State()))
        && (r == VFS_ERR_IO ==> FreeCount(Seen(vol.g, vol.Now()).fat1) + 1 == FreeCount(Seen(vol.g, old(vol.Now())).fat1))
        && (0 <= r ==> r < |old(State()).fds| && State() == Opening(old(State()), r, LowerAll(name), flags))
    {
      hide VolOk, FdsOk, AbsFds, AbsFiles, Coherent, Mounted, Placed, Tells, Quiet, Step, Clean, Restart, Live,
           KeyOf, Abs, IsChain, Opening, FirstShut, IsShort, Search, HitAt, NotOpen, OpenResult, FirstFree,
           IsDir, IsDirectory, IsPlain;
      SameTable();
      ghost var w0 := vol.Now();
      VolumeBounds(vol.g, w0);
      VolOkDir(vol.g, w0, root, fs, slots);
      var fd := FreeFd();
      OpenCases(fd, fs, slots, FreeCount(Seen(vol.g, w0).fat1), LowerAll(name), flags);
      if fd >= VFS_MAX_OPEN_FILES {
        return VFS_ERR_NOMEM;
      }
      var look;
      ghost var k, i, s;
      look, k, i, s := DirFind(vol, root, name, fs.dch);
      ghost var w1 := vol.Now();
      VolumeBounds(vol.g, w1);
      QuietVolume(vol.g, w0, w1);
      VolOkStays(vol.g, w0, w1, root, fs, slots);
      if look == Nowhere {
        if w1.failures == w0.failures {
          NotThere(vol.g, w0, root, fs, slots, LowerAll(name));
        }
        if !flags.create {
          return VFS_ERR_NOTFOUND;
        }
        r := OpenNew(fd, name, flags);
        return;
      }
      FoundPlace(vol.g, w0, root, fs, slots, LowerAll(name), look, k, i, s);
      r := OpenOld(fd, look.slot, look.lba, look.off, flags, Place(LowerAll(name), k, i, s));
    }

    /** vfs_open for a name that was not found. An entry is made for it in any case: if the name is in the
        directory all the same, because an unreadable sector ended the search, it is the second one. */
    method OpenNew(fd: nat, name: CString, flags: Flags) returns (r: int)
      requires Inv() && fd < files.Length && !files[fd].open && IsShort(name) && name != []
      modifies this`fs, this`slots, this`places, files, vol`freeClusters, vol`nextFree, vol.cache.slots, vol.cache.table
      ensures vol.Valid() && vol.cache.table.failures >= old(vol.cache.table.failures) && Reserved() == old(Reserved())
      ensures r >= 0 ==> Clean(vol.Now(), vol.g.dev)
      ensures vol.cache.table.failures == old(vol.cache.table.failures) && r >= 0 ==>
        && fd < files.Length
        && exists dch1 :: DirReads(Seen(vol.g, vol.Now()), vol.g.BytesPerCluster(), dch1,
                                   Inserted(old(slots), NewEntry(name, files[fd].startCluster), vol.g.BytesPerCluster()))
      ensures vol.cache.table.failures == old(vol.cache.table.failures) && LowerAll(name) !in old(fs).dir && name[0] != DELETED_MARK ==>
        var free := FreeCount(Seen(vol.g, old(vol.Now())).fat1);
        && r == (if free == 0 then VFS_ERR_NOSPACE else if FirstFree(old(slots)).Hit? || free >= 2 then fd else VFS_ERR_IO)
        && (old(Neat()) ==> Neat())
        && (r < 0 ==> Inv() && State() == old(State()))
        && (r == VFS_ERR_IO ==> FreeCount(Seen(vol.g, vol.Now()).fat1) + 1 == free)
        && (r >= 0 ==> Inv() && fd < |old(State()).fds| && State() == Opening(old(State()), fd, LowerAll(name), flags))
    {
      hide VolOk, FdsOk, AbsFds, AbsFiles, Coherent, Mounted, Placed, Tells, Clean, Live, KeyOf, Abs, IsChain,
           Opening, IsShort, FirstFree, NewEntry, WithNewFile, DirReads, Inserted, CountFree, View, EntryNames, Quiet,
           Step, EntryPlaced;
      SameTable();
      ghost var was, w0 := files[..], vol.Now();
      var made, cluster, lba, off;
      ghost var dch1, p;
      made, cluster, lba, off, dch1, p := CreateFile(vol, name, root, fs, slots);
      if made != VFS_OK {
        return made;
      }
      files[fd] := VfsFile(true, cluster, 0, 0, flags, lba, off);
      if vol.cache.table.failures == w0.failures && LowerAll(name) !in fs.dir && name[0] != DELETED_MARK {
        ghost var e, m := NewEntry(name, cluster), vol.g.BytesPerCluster();
        KeysAreEntries(vol.g, w0, root, fs, slots);
        FdsCreated(vol.g, fs, slots, was, places, fd, files[fd], p, dch1, e, m);
        assert files[..] == was[fd := files[fd]];
        FiledNames(fs, dch1, e, cluster);
        fs, slots, places := WithNewFile(fs, dch1, e, cluster), Inserted(slots, e, m), places[fd := p];
      }
      return fd;
    }

    /** vfs_open for an entry the directory holds. */
    method OpenOld(fd: nat, entry: Slot32, lba: nat, off: nat, flags: Flags, ghost p: Place) returns (r: int)
      requires Inv() && fd < files.Length && !files[fd].open
      requires EntryPlaced(vol.g, fs.dch, p.k, lba, off, p.i, p.s)
      requires p.k < |slots| && slots[p.k] == entry
      requires IsPlain(entry) ==> Placed(vol.g, fs, slots, p, lba, off) && EntryNames(entry, fs.nodes[p.key])
      modifies this`fs, this`slots, this`places, files, vol`freeClusters, vol`nextFree, vol.cache.slots, vol.cache.table
      ensures vol.Valid() && Reserved() == old(Reserved())
      ensures r >= 0 && flags.trunc ==> Clean(vol.Now(), vol.g.dev)
      ensures vol.cache.table.failures == old(vol.cache.table.failures) && |old(places)| == |old(files[..])| && old(NotOpen(files[..], places, p.key)) ==>
        IsDirectory(entry) || IsPlain(entry) ==>
        && r == (if IsDirectory(entry) then VFS_ERR_ISDIR
                 else if flags.trunc && FreeCount(Seen(vol.g, old(vol.Now())).fat1) == 0 then VFS_ERR_NOSPACE else fd)
        && Inv() && (old(Neat()) ==> Neat())
        && (r < 0 ==> State() == old(State()))
        && (r >= 0 ==> fd < |old(State()).fds| && State() == Opening(old(State()), fd, p.key, flags))
    {
      hide VolOk, FdsOk, AbsFds, AbsFiles, Coherent, Mounted, Placed, Clean, Live, KeyOf, Abs, IsChain, Opening,
           FirstFree, IsDirectory, IsPlain, EntryPlaced, Restart, EntryCluster, EntrySize, NotOpen;
      SameTable();
      ghost var was, w0 := files[..], vol.Now();
      if IsDirectory(entry) {
        return VFS_ERR_ISDIR;
      }
      ghost var mine := |places| == |was| && NotOpen(was, places, p.key) && IsPlain(entry);
      files[fd] := VfsFile(true, EntryCluster(entry), EntrySize(entry), 0, flags, lba, off);
      if flags.trunc {
        var ok, f := TruncateFile(vol, files[fd], root, fs, slots, p);
        if ok != VFS_OK {
          files[fd] := f.(open := false);
          if vol.cache.table.failures == w0.failures {
            FdsShut(vol.g, fs, slots, was, places, fd, files[fd]);
            assert files[..] == was[fd := files[fd]];
          }
          return ok;
        }
        files[fd] := f;
        if mine && vol.cache.table.failures == w0.failures {
          ghost var e := Restart(slots[p.k], f.startCluster, 0);
          FdsTruncated(vol.g, fs, slots, was, places, fd, f, p, e);
          assert files[..] == was[fd := f];
          PlacedFacts(vol.g, fs, slots, p, lba, off);
          SameNames(fs, p.key, Node([f.startCluster], []), e);
          fs, slots, places := WithNode(fs, p.key, Node([f.startCluster], [])).(dir := fs.dir[p.key := e]), slots[p.k := e], places[fd := p];
        }
        return fd;
      }
      if flags.append {
        files[fd] := files[fd].(position := files[fd].fileSize);
      }
      if mine {
        FdsReopened(vol.g, fs, slots, was, places, fd, files[fd], p);
        assert files[..] == was[fd := files[fd]];
        places := places[fd := p];
      }
      return fd;
    }

    /** vfs_delete on the 8.3 name of a file of the directory. */
    method Delete(name: CString) returns (r: int)
      requires Inv() && (LowerAll(name) in fs.dir ==> IsPlain(fs.dir[LowerAll(name)]))
      modifies this`fs, this`slots, vol`freeClusters, vol`nextFree, vol.cache.slots, vol.cache.table
      ensures vol.Valid() && (r == VFS_OK ==> Clean(vol.Now(), vol.g.dev)) && Reserved() == old(Reserved())
      ensures vol.cache.table.failures == old(vol.cache.table.failures) && old(|places| == files.Length && NotOpen(files[..], places, LowerAll(name))) ==>
        && r == (if LowerAll(name) in old(fs).nodes then VFS_OK else VFS_ERR_NOTFOUND)
        && Inv() && (old(Neat()) ==> Neat())
        && State() == (if r == VFS_OK then Deleting(old(State()), LowerAll(name)) else old(State()))
        && (r == VFS_OK ==>
              FreeCount(Seen(vol.g, vol.Now()).fat1)
              == FreeCount(Seen(vol.g, old(vol.Now())).fat1) + |old(fs).nodes[LowerAll(name)].ch|)
    {
      hide VolOk, FdsOk, AbsFds, AbsFiles, Coherent, Mounted, Placed, Tells, Quiet, Step, Clean, Live, KeyOf,
           Abs, IsChain, Deleting, Search, HitAt, NotOpen, IsDir, EntryCluster, EntrySize, CountFree, View,
           Represents, Erased, Without, IsPlain, EntryPlaced;
      SameTable();
      ghost var w0 := vol.Now();
      VolumeBounds(vol.g, w0);
      VolOkDir(vol.g, w0, root, fs, slots);
      ghost var key := LowerAll(name);
      var look;
      ghost var k, i, s;
      look, k, i, s := DirFind(vol, root, name, fs.dch);
      ghost var w1 := vol.Now();
      VolumeBounds(vol.g, w1);
      QuietVolume(vol.g, w0, w1);
      VolOkStays(vol.g, w0, w1, root, fs, slots);
      if look == Nowhere {
        if w1.failures == w0.failures {
          NotThere(vol.g, w0, root, fs, slots, key);
        }
        return VFS_ERR_NOTFOUND;
      }
      FoundPlace(vol.g, w0, root, fs, slots, key, look, k, i, s);
      PlacedFacts(vol.g, fs, slots, Place(key, k, i, s), look.lba, look.off);
      r := RemoveFile(vol, look.lba, look.off, EntryCluster(look.slot), root, fs, slots, Place(key, k, i, s));
      if vol.cache.table.failures == w0.failures && NotOpen(files[..], places, key) {
        FdsDeleted(vol.g, fs, slots, files[..], places, key);
        ErasedNames(fs, key);
        fs, slots := Without(fs, key), Erased(slots, key);
      }
    }
  }

  lemma FiledNames(fs: FileSys, dch1: seq<nat>, e: Slot32, c: nat)
    requires KeyOf(e) !in fs.dir && KeyOf(e) !in fs.nodes
    ensures WithNewFile(fs, dch1, e, c).dir.Keys - WithNewFile(fs, dch1, e, c).nodes.Keys == fs.dir.Keys - fs.nodes.Keys
  {
    hide KeyOf;
  }

  lemma SameNames(fs: FileSys, key: Key, n: Node, e: Slot32)
    requires key in fs.dir && key in fs.nodes
    ensures var fs1 := WithNode(fs, key, n).(dir := fs.dir[key := e]);
      fs1.dir.Keys - fs1.nodes.Keys == fs.dir.Keys - fs.nodes.Keys
  {
  }

  lemma ErasedNames(fs: FileSys, key: Key)
    requires key in fs.nodes
    ensures Without(fs, key).dir.Keys - Without(fs, key).nodes.Keys == fs.dir.Keys - fs.nodes.Keys
  {
  }

  /** A chain write that was not torn keeps the links sound, finished or refused. */
  lemma WriteThreads(g: Geometry, w0: World, w1: World, root: nat, fs: FileSys, slots: seq<Slot32>, key: Key, off: nat,
                     buf: seq<Byte>, ch1: seq<nat>, finished: bool, done: nat, newStart: nat)
    requires VolOk(g, w0, root, fs, slots) && Mounted(g, w1) && key in fs.nodes && Threaded(Seen(g, w0).fat1, Heads(fs))
    requires g.BytesPerCluster() > 0 && buf != []
    requires if finished then Written(Seen(g, w0), Seen(g, w1), fs.nodes[key].ch, ch1, g.BytesPerCluster(), off, buf, newStart)
             else PartWritten(Seen(g, w0), Seen(g, w1), fs.nodes[key].ch, ch1, g.BytesPerCluster(), off, buf, done, newStart)
    ensures Threaded(Seen(g, w1).fat1, Heads(fs))
  {
    hide Mounted, Abs, View, FsOk, DirReads, Threaded, Rewritten, Covers, Heads;
    var v0, v1, m := Seen(g, w0), Seen(g, w1), g.BytesPerCluster();
    ChainsBegin(v0, m, root, fs, {});
    var piece := if finished then buf else buf[..done];
    RewrittenGrown(v0, v1, fs.nodes[key].ch, ch1, m, off, piece);
    FileGrown(v0, v1, m, root, fs, {}, key, ch1);
  }

  lemma WriteBegins(g: Geometry, w0: World, w1: World, root: nat, fs: FileSys, slots: seq<Slot32>, key: Key, off: nat,
                    buf: seq<Byte>, ch1: seq<nat>, finished: bool, done: nat, newStart: nat)
    requires VolOk(g, w0, root, fs, slots) && Mounted(g, w1) && key in fs.nodes && g.BytesPerCluster() > 0 && buf != []
    requires if finished then Written(Seen(g, w0), Seen(g, w1), fs.nodes[key].ch, ch1, g.BytesPerCluster(), off, buf, newStart)
             else PartWritten(Seen(g, w0), Seen(g, w1), fs.nodes[key].ch, ch1, g.BytesPerCluster(), off, buf, done, newStart)
    ensures fs.nodes[key].ch != [] && ch1 != [] && ch1[0] == fs.nodes[key].ch[0]
  {
    hide Mounted, Abs, View, FsOk, DirReads, Rewritten, Covers;
    ChainsBegin(Seen(g, w0), g.BytesPerCluster(), root, fs, {});
    RewrittenGrows(Seen(g, w0), Seen(g, w1), fs.nodes[key].ch, ch1, g.BytesPerCluster(), off, if finished then buf else buf[..done]);
  }

  /** The volume holds the file with its new node, under its rewritten entry. */
  ghost predicate NodeWritten(g: Geometry, w: World, root: nat, fs: FileSys, slots: seq<Slot32>, p: Place, was: VfsFile,
                              newStart: Word, buf: seq<Byte>, n1: Node, e: Slot32) {
    && p.key in fs.nodes && p.key in fs.dir && p.k < |slots| && e[..12] == slots[p.k][..12]
    && n1.bytes == Overwritten(fs.nodes[p.key].bytes, was.position, buf)
    && Tells(AfterWrite(was, newStart, |buf|), n1)
    && var fs1 := WithNode(fs, p.key, n1).(dir := fs.dir[p.key := e]);
       Heads(fs1) <= Heads(fs) && VolOk(g, w, root, fs1, slots[p.k := e])
  }

  /** A file's new node begins where the old one did. */
  lemma HeadsRewritten(fs: FileSys, key: Key, n: Node, dir: map<Key, Slot32>)
    requires key in fs.nodes && (n.ch != [] ==> fs.nodes[key].ch != [] && n.ch[0] == fs.nodes[key].ch[0])
    ensures Heads(WithNode(fs, key, n).(dir := dir)) <= Heads(fs)
  {
  }

  lemma VolOkDir(g: Geometry, w: World, root: nat, fs: FileSys, slots: seq<Slot32>)
    requires VolOk(g, w, root, fs, slots)
    ensures IsDir(g, w, fs.dch, root) && Entries(g, w, fs.dch) == slots && Represents(slots, fs.dir)
  {
    hide Mounted, FsOk, DirReads, Abs, View, Represents;
    DirAsEntries(g, w, root, fs, slots, {});
  }

  lemma KeysAreEntries(g: Geometry, w: World, root: nat, fs: FileSys, slots: seq<Slot32>)
    requires VolOk(g, w, root, fs, slots)
    ensures forall key :: key in fs.nodes <==> key in fs.dir && IsPlain(fs.dir[key])
    ensures forall key :: key in fs.nodes ==> EntryNames(fs.dir[key], fs.nodes[key])
  {
    hide Mounted, DirReads, Abs, View, Represents, DirOk, DataOk, Apart, IsPlain, EntryNames;
  }

  lemma NotThere(g: Geometry, w: World, root: nat, fs: FileSys, slots: seq<Slot32>, key: Key)
    requires VolOk(g, w, root, fs, slots) && !Search(slots, key).Hit?
    ensures key !in fs.dir && key !in fs.nodes
  {
    hide VolOk, Represents, Search, IsPlain;
    VolOkDir(g, w, root, fs, slots);
    KeysAreEntries(g, w, root, fs, slots);
    FindIsLookup(slots, fs.dir, key);
  }

  /** What a hit tells of the file. */
  lemma FoundPlace(g: Geometry, w: World, root: nat, fs: FileSys, slots: seq<Slot32>, key: Key, look: Look, k: nat, i: nat, s: nat)
    requires VolOk(g, w, root, fs, slots) && look.At? && HitAt(g, fs.dch, slots, key, look, k, i, s)
    ensures key in fs.dir && k < |slots| && look.slot == fs.dir[key] == slots[k]
    ensures EntryPlaced(g, fs.dch, k, look.lba, look.off, i, s)
    ensures IsPlain(look.slot) ==>
      Placed(g, fs, slots, Place(key, k, i, s), look.lba, look.off) && EntryNames(look.slot, fs.nodes[key])
  {
    hide VolOk, Represents, Search, IsPlain, EntryPlaced, Live, KeyOf, EntryCluster, EntrySize;
    VolOkDir(g, w, root, fs, slots);
    KeysAreEntries(g, w, root, fs, slots);
    FindIsLookup(slots, fs.dir, key);
  }

  /** vfs_open's answers, case by case. */
  lemma OpenCases(fd: nat, fs: FileSys, slots: seq<Slot32>, free: nat, key: Key, flags: Flags)
    ensures fd >= VFS_MAX_OPEN_FILES ==> OpenResult(fd, fs, slots, free, key, flags) == VFS_ERR_NOMEM
    ensures fd < VFS_MAX_OPEN_FILES && key !in fs.dir && !flags.create ==> OpenResult(fd, fs, slots, free, key, flags) == VFS_ERR_NOTFOUND
    ensures fd < VFS_MAX_OPEN_FILES && key !in fs.dir && flags.create ==>
      OpenResult(fd, fs, slots, free, key, flags)
      == if free == 0 then VFS_ERR_NOSPACE else if FirstFree(slots).Hit? || free >= 2 then fd else VFS_ERR_IO
    ensures fd < VFS_MAX_OPEN_FILES && key in fs.dir ==>
      OpenResult(fd, fs, slots, free, key, flags)
      == if IsDirectory(fs.dir[key]) then VFS_ERR_ISDIR else if flags.trunc && free == 0 then VFS_ERR_NOSPACE else fd
  {
  }
}
