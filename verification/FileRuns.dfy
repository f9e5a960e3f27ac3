/** Runs of file calls: what any sequence of opens, closes, reads, writes, seeks and deletions does is
    what it does to named byte sequences and descriptors. */
module FileRuns {
  import opened Arithmetic
  import opened Blocks
  import opened SectorCache
  import opened FatTable
  import opened Chains
  import opened ChainIO
  import opened ShortNames
  import opened DirSlots
  import opened FileSystem
  import opened FileSpec
  import opened Threading
  import opened VfsFiles
  import opened VfsTable
  import opened Vfs

  datatype Call =
    | DoOpen(name: CString, flags: FileSpec.Flags)
    | DoClose(fd: int)
    | DoRead(fd: int, len: Word)
    | DoWrite(fd: int, buf: seq<Byte>)
    | DoSeek(fd: int, offset: int, whence: int)
    | DoDelete(name: CString)

  datatype Answer = Answer(r: int, bytes: seq<Byte>)

  /** The lowest shut descriptor, or their number. */
  function LowestShut(fds: seq<Fd>): (fd: nat)
    ensures fd <= |fds| && (fd < |fds| ==> fds[fd].Shut?)
    ensures forall k :: 0 <= k < fd ==> fds[k].Opened?
  {
    if fds == [] || fds[0].Shut? then 0 else 1 + LowestShut(fds[1..])
  }

  /** No descriptor is open for `key`. */
  ghost predicate Idle(s: Spec, key: Key) {
    forall fd :: 0 <= fd < |s.fds| && s.fds[fd].Opened? ==> s.fds[fd].key != key
  }

  predicate IsFdOf(s: Spec, fd: int) { 0 <= fd < |s.fds| && s.fds[fd].Opened? }

  /** A call within what this model speaks of: 8.3 names of files or of nothing, one descriptor to a
      file, sizes and positions that fit C's integers, no empty write beyond the end. */
  ghost predicate Fair(s: Spec, c: Call, reserved: set<Key>) {
    match c
    case DoOpen(name, _) =>
      && IsShort(name) && name != [] && LowerAll(name) !in reserved && Idle(s, LowerAll(name))
      && (LowerAll(name) !in s.files ==> name[0] != DELETED_MARK)
    case DoClose(_) => true
    case DoRead(fd, len) => IsOpen(s, fd) ==> |Reading(s, fd, len)| < 0x8000_0000
    case DoWrite(fd, buf) =>
      && |buf| < 0x8000_0000
      && (IsOpen(s, fd) ==> s.fds[fd].pos + |buf| < U32_RANGE && (buf != [] || s.fds[fd].pos <= |s.files[s.fds[fd].key]|))
    case DoSeek(_, offset, _) => -0x8000_0000 <= offset < 0x8000_0000
    case DoDelete(name) => LowerAll(name) !in reserved && Idle(s, LowerAll(name))
  }

  /** What a call may answer in state `s`, and the state it leaves. */
  ghost predicate Follows(s: Spec, c: Call, a: Answer, s1: Spec) {
    match c
    case DoOpen(name, flags) =>
      var fd, key := LowestShut(s.fds), LowerAll(name);
      if fd >= |s.fds| then a.r == VFS_ERR_NOMEM && s1 == s
      else if key !in s.files && !flags.create then a.r == VFS_ERR_NOTFOUND && s1 == s
      else (a.r == fd && s1 == Opening(s, fd, key, flags)) || (a.r in {VFS_ERR_NOSPACE, VFS_ERR_IO} && s1 == s)
    case DoClose(fd) =>
      if IsFdOf(s, fd) then a.r == VFS_OK && s1 == Closing(s, fd) else a.r == VFS_ERR_BADFD && s1 == s
    case DoRead(fd, len) =>
      if !IsFdOf(s, fd) then a.r == VFS_ERR_BADFD && s1 == s
      else if !s.fds[fd].flags.read then a.r == VFS_ERR_READONLY && s1 == s
      else IsOpen(s, fd) && a.bytes == Reading(s, fd, len) && a.r == |a.bytes| && s1 == AfterRead(s, fd, len)
    case DoWrite(fd, buf) =>
      if !IsFdOf(s, fd) then a.r == VFS_ERR_BADFD && s1 == s
      else if !s.fds[fd].flags.write then a.r == VFS_ERR_READONLY && s1 == s
      else IsOpen(s, fd) && ((a.r == |buf| && s1 == Writing(s, fd, buf)) || (a.r == VFS_ERR_IO && s1 == s))
    case DoSeek(fd, offset, whence) =>
      if !IsFdOf(s, fd) then a.r == VFS_ERR_BADFD && s1 == s
      else if whence !in {0, 1, 2} then a.r == VFS_ERR_BADPATH && s1 == s
      else
        && IsOpen(s, fd)
        && var f := s.fds[fd];
           var target := Target(if whence == 0 then 0 else if whence == 1 then f.pos else |s.files[f.key]|, offset);
           a.r == ChainIO.AsInt(target) && s1 == Moved(s, fd, target)
    case DoDelete(name) =>
      if LowerAll(name) in s.files then a.r == VFS_OK && s1 == Deleting(s, LowerAll(name))
      else a.r == VFS_ERR_NOTFOUND && s1 == s
  }

  /** A write refused for want of room: the file may hold a part of it, and the run ends there. */
  predicate Ends(c: Call, a: Answer) { c.DoWrite? && a.r == VFS_ERR_IO }

  /** All calls of a run are fair, whatever those before them answered. */
  ghost predicate FairRun(s: Spec, calls: seq<Call>, reserved: set<Key>)
    decreases |calls|
  {
    calls != [] ==>
      && Fair(s, calls[0], reserved)
      && forall a, s1 :: Follows(s, calls[0], a, s1) && !Ends(calls[0], a) ==> FairRun(s1, calls[1..], reserved)
  }

  lemma {:induction false} ShutIsShut(files: seq<VfsFile>, places: seq<Place>)
    requires |files| == |places|
    ensures LowestShut(AbsFds(files, places)) == FirstShut(files)
  {
    if files != [] && files[0].open {
      assert AbsFds(files, places)[1..] == AbsFds(files[1..], places[1..]);
      ShutIsShut(files[1..], places[1..]);
    }
  }

  lemma IdleIsNotOpen(t: FileTable, key: Key)
    requires t.Inv() && Idle(t.State(), key)
    ensures |t.places| == t.files.Length == |t.State().fds| && NotOpen(t.files[..], t.places, key)
  {
    hide VolOk, FdOk, AbsFiles;
    forall fd | 0 <= fd < t.files.Length && t.files[fd].open ensures t.places[fd].key != key {
      assert t.State().fds[fd].Opened?;
    }
  }

  /** What the spec state says of the table. */
  lemma TableIs(t: FileTable, fd: int)
    requires t.Inv()
    ensures |t.State().fds| == t.files.Length == |t.places| == VFS_MAX_OPEN_FILES
    ensures t.IsFd(fd) <==> IsFdOf(t.State(), fd)
    ensures t.IsFd(fd) ==> IsOpen(t.State(), fd) && t.State().fds[fd] == Opened(t.places[fd].key, t.files[fd].position, t.files[fd].flags)
    ensures t.IsFd(fd) ==> t.files[fd].fileSize == |t.State().files[t.State().fds[fd].key]|
    ensures LowestShut(t.State().fds) == FirstShut(t.files[..])
  {
    hide VolOk, FdOk, AbsFiles, Placed, Tells;
    t.SameTable();
    ShutIsShut(t.files[..], t.places);
    if t.IsFd(fd) {
      FdOpen(t.vol.g, t.fs, t.slots, t.files[..], t.places, fd);
    }
  }

  /** A name that is not reserved is in the directory exactly when it is a file's. */
  lemma NameIsFile(t: FileTable, key: Key)
    requires t.Inv() && key !in t.Reserved()
    ensures |t.places| == t.files.Length
    ensures key in t.fs.dir <==> key in t.State().files
    ensures key in t.fs.dir ==> key in t.fs.nodes && IsPlain(t.fs.dir[key]) && !IsDirectory(t.fs.dir[key])
    ensures key in t.fs.nodes <==> key in t.State().files
  {
    hide VolOk, FdOk, AbsFds;
    t.SameTable();
    KeysAreEntries(t.vol.g, t.vol.Now(), t.root, t.fs, t.slots);
  }

  /** One call. */
  method Make(t: FileTable, c: Call) returns (a: Answer)
    requires t.Inv() && Fair(t.State(), c, t.Reserved())
    modifies t`fs, t`slots, t`places, t.files, t.vol`freeClusters, t.vol`nextFree, t.vol.cache.slots, t.vol.cache.table
    ensures t.vol.Valid() && t.Reserved() == old(t.Reserved())
    ensures t.vol.cache.table.failures == old(t.vol.cache.table.failures) ==>
      && |t.places| == t.files.Length && Follows(old(t.State()), c, a, t.State())
      && (!Ends(c, a) ==> t.Inv())
      && (old(t.Neat()) ==> t.Neat())
  {
    hide VolOk, FdsOk, AbsFds, AbsFiles, Reading, AfterRead, Moved, Writing, Opening, Closing, Deleting, CanFinish,
         IsShort, LowestShut, FirstShut, HalfWritten, Threaded, Heads, CountFree, Idle, NotOpen, IsPlain, IsDirectory, FirstFree;
    t.SameTable();
    match c {
      case DoOpen(name, flags) =>
        TableIs(t, 0);
        IdleIsNotOpen(t, LowerAll(name));
        NameIsFile(t, LowerAll(name));
        var r := t.Open(name, flags);
        a := Answer(r, []);
      case DoClose(fd) =>
        TableIs(t, fd);
        var r := t.Close(fd);
        a := Answer(r, []);
      case DoRead(fd, len) =>
        TableIs(t, fd);
        var r, bytes := t.Read(fd, len);
        a := Answer(r, bytes);
      case DoWrite(fd, buf) =>
        TableIs(t, fd);
        var r, torn := t.Write(fd, buf);
        a := Answer(r, []);
      case DoSeek(fd, offset, whence) =>
        TableIs(t, fd);
        var r := t.Seek(fd, offset, whence);
        a := Answer(r, []);
      case DoDelete(name) =>
        IdleIsNotOpen(t, LowerAll(name));
        NameIsFile(t, LowerAll(name));
        var r := t.Delete(name);
        a := Answer(r, []);
    }
    if t.Inv() {
      t.SameTable();
    }
  }

  /** A run of calls, up to the first failing transfer or the first refused write: the answers are those
      of a run over byte sequences, state by state. */
  method Run(t: FileTable, calls: seq<Call>) returns (answers: seq<Answer>, ghost states: seq<Spec>)
    requires t.Inv() && FairRun(t.State(), calls, t.Reserved())
    modifies t`fs, t`slots, t`places, t.files, t.vol`freeClusters, t.vol`nextFree, t.vol.cache.slots, t.vol.cache.table
    ensures |answers| <= |calls| && |states| == |answers| + 1 && states[0] == old(t.State())
    ensures t.vol.cache.table.failures == old(t.vol.cache.table.failures) ==>
      && (forall i :: 0 <= i < |answers| ==> Follows(states[i], calls[i], answers[i], states[i + 1]))
      && (|answers| < |calls| ==> answers != [] && Ends(calls[|answers| - 1], answers[|answers| - 1]))
      && (answers == [] || !Ends(calls[|answers| - 1], answers[|answers| - 1]) ==> t.Inv())
      && |t.places| == t.files.Length && t.State() == states[|answers|]
      && (old(t.Neat()) ==> t.Neat())
  {
    hide Follows, Fair, VolOk, FdsOk, AbsFds, AbsFiles, Threaded, Heads, CountFree, Coherent;
    ghost var reserved := t.Reserved();
    ghost var f0 := t.vol.cache.table.failures;
    var start := t.vol.cache.table.failures;
    t.SameTable();
    answers, states := [], [t.State()];
    assert calls[0..] == calls;
    while |answers| < |calls|
      invariant |answers| <= |calls| && |states| == |answers| + 1 && states[0] == old(t.State())
      invariant t.Inv() && t.Reserved() == reserved && t.vol.cache.table.failures == start == f0
      invariant |t.places| == t.files.Length && t.State() == states[|answers|]
      invariant FairRun(t.State(), calls[|answers|..], reserved)
      invariant forall i :: 0 <= i < |answers| ==> Follows(states[i], calls[i], answers[i], states[i + 1]) && !Ends(calls[i], answers[i])
      invariant old(t.Neat()) ==> t.Neat()
      decreases |calls| - |answers|
    {
      var c := calls[|answers|];
      ghost var before := t.State();
      assert calls[|answers|..][0] == c && calls[|answers|..][1..] == calls[|answers| + 1..];
      var a := Make(t, c);
      answers := answers + [a];
      if t.vol.cache.table.failures != start {
        states := states + [before];
        return;
      }
      states := states + [t.State()];
      if Ends(c, a) {
        return;
      }
    }
  }
}
