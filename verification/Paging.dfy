/** mm/paging.c: the current directory, its tables through the recursive window, and the mapping
    operations on it and on other directories. */
module Paging {
  import opened PageEntry
  import opened PageTables
  import opened KernelAccess
  import opened Pmm

  const IDENTITY_LIMIT: nat := 0x400_0000   // PAGING_BOOT_IDENTITY_LIMIT, 64 MiB
  const SCRATCH_PAGE: nat := 0xF_FBFF       // page number of 0xFFBFF000

  /** The PAGING_FLAG_ bits of a request. */
  datatype Flags = Flags(present: bool, writable: bool, user: bool, nx: bool, cow: bool)

  /** Table frames are in use; frame 0 is reserved, without a reference that could be dropped. */
  ghost predicate Backed(mem: seq<PageTables.Frame>, dirs: set<nat>, frames: Frames)
    requires Tables(mem, dirs)
  {
    && frames.Sound() && frames.used[0] && frames.refs[0] == 0 && 0 < frames.total
    && forall f: nat :: IsTable(mem, dirs, f) ==> f < FRAME_RANGE && frames.used[f]
  }

  /** The lowest free frame below a limit is the lowest free frame of all. */
  lemma TakenBelow(f: Frames, limit: nat)
    requires f.Sound() && limit <= MAX_PAGES && LowestFree(f.used, limit) < limit
    ensures LowestFree(f.used, f.total) == LowestFree(f.used, limit) < f.total
    ensures f.Taken(limit) == f.Taken(f.total)
  {
    LowestIs(f.used, f.total, LowestFree(f.used, limit));
  }

  /** Some frame is free. */
  ghost predicate HasRoom(f: Frames)
    requires f.Sound()
  {
    LowestFree(f.used, f.total) < f.total
  }

  lemma FreeIsFresh(mem: seq<PageTables.Frame>, dirs: set<nat>, frames: Frames)
    requires Tables(mem, dirs) && Backed(mem, dirs, frames) && HasRoom(frames)
    ensures Fresh(mem, dirs, LowestFree(frames.used, frames.total)) && LowestFree(frames.used, frames.total) > 0
  {
  }

  /** The directories `dirs`, one of them the kernel's, over the frames in use. */
  ghost predicate SpaceOk(mem: seq<PageTables.Frame>, dirs: set<nat>, kernel: nat, frames: Frames) {
    Tables(mem, dirs) && UserOwned(mem, dirs, kernel) && HighAligned(mem, dirs) && Backed(mem, dirs, frames) && kernel in dirs
  }

  /** Frames in use stay in use, those that are no tables keep their contents, and the frames newly
      taken became tables. */
  ghost predicate Steady(mem0: seq<PageTables.Frame>, frames0: Frames, mem1: seq<PageTables.Frame>, frames1: Frames, dirs: set<nat>) {
    && Tables(mem0, dirs) && Tables(mem1, dirs) && |frames0.used| == |frames1.used| == FRAME_RANGE
    && KeepsExclusive(mem0, mem1, dirs)
    && forall f: nat :: f < FRAME_RANGE ==>
         && (frames0.used[f] ==> frames1.used[f])
         && (frames0.used[f] && !IsTable(mem0, dirs, f) ==> mem1[f] == mem0[f])
         && (IsTable(mem1, dirs, f) <==> IsTable(mem0, dirs, f) || (frames1.used[f] && !frames0.used[f]))
  }

  /** Frames that are in use before and after and are no tables keep their words. */
  ghost predicate DataKept(mem0: seq<PageTables.Frame>, frames0: Frames, mem1: seq<PageTables.Frame>, frames1: Frames, dirs: set<nat>) {
    && Tables(mem0, dirs) && |mem1| == |frames0.used| == |frames1.used| == FRAME_RANGE
    && forall f: nat :: f < FRAME_RANGE && frames0.used[f] && frames1.used[f] && !IsTable(mem0, dirs, f) ==> mem1[f] == mem0[f]
  }

  /** Frames in use that are no tables stay so, with their words. */
  ghost predicate DataStays(mem0: seq<PageTables.Frame>, frames0: Frames, mem1: seq<PageTables.Frame>, frames1: Frames, dirs: set<nat>) {
    && Tables(mem0, dirs) && Tables(mem1, dirs) && |frames0.used| == |frames1.used| == FRAME_RANGE
    && forall f: nat :: f < FRAME_RANGE && frames0.used[f] && !IsTable(mem0, dirs, f) ==>
         mem1[f] == mem0[f] && frames1.used[f] && !IsTable(mem1, dirs, f)
  }

  lemma SteadyTransitive(m0: seq<PageTables.Frame>, f0: Frames, m1: seq<PageTables.Frame>, f1: Frames,
                         m2: seq<PageTables.Frame>, f2: Frames, dirs: set<nat>)
    requires Steady(m0, f0, m1, f1, dirs) && Steady(m1, f1, m2, f2, dirs)
    ensures Steady(m0, f0, m2, f2, dirs)
  {
    hide Tables, IsTable, Exclusive, Decode;
  }

  /** What a walk to the table of page `v` in directory `d` comes to. */
  ghost predicate Walked(mem0: seq<PageTables.Frame>, frames0: Frames, mem1: seq<PageTables.Frame>, frames1: Frames, dirs: set<nat>,
                         d: nat, v: nat, create: bool, ok: bool, table: nat) {
    && Steady(mem0, frames0, mem1, frames1, dirs) && SameMaps(mem0, mem1, dirs)
    && frames0.Sound() && d in dirs && v < WINDOW_START
    && var was := EntryAt(mem0, d, v / SLOTS);
       && ok == (was.present || (create && HasRoom(frames0)))
       && frames1 == (if !was.present && create then frames0.Taken(frames0.total) else frames0)
       && (ok ==> EntryAt(mem1, d, v / SLOTS).present && EntryAt(mem1, d, v / SLOTS).frame == table)
       && (Exclusive(mem0, dirs, d, v / SLOTS) ==> Exclusive(mem1, dirs, d, v / SLOTS))
  }

  lemma WalkedNowhere(mem: seq<PageTables.Frame>, dirs: set<nat>, kernel: nat, frames: Frames, d: nat, v: nat, create: bool)
    requires SpaceOk(mem, dirs, kernel, frames) && d in dirs && v < WINDOW_START
    ensures Walked(mem, frames, mem, frames, dirs, d, v, create, EntryAt(mem, d, v / SLOTS).present, EntryAt(mem, d, v / SLOTS).frame)
      || (create && !EntryAt(mem, d, v / SLOTS).present)
    ensures create && !EntryAt(mem, d, v / SLOTS).present && !HasRoom(frames) ==> Walked(mem, frames, mem, frames, dirs, d, v, create, false, 0)
    ensures SlotsOpened(mem, mem, dirs, d, v / SLOTS, false)
    ensures EntryAt(mem, d, v / SLOTS).user || !EntryAt(mem, d, v / SLOTS).present ==> SlotsOpened(mem, mem, dirs, d, v / SLOTS, true)
  {
    hide Exclusive, IsTable, Decode;
  }

  lemma WalkedNew(mem: seq<PageTables.Frame>, dirs: set<nat>, kernel: nat, frames: Frames, d: nat, v: nat, user: bool)
    requires SpaceOk(mem, dirs, kernel, frames) && d in dirs && v < WINDOW_START
    requires !EntryAt(mem, d, v / SLOTS).present && HasRoom(frames)
    ensures var f := LowestFree(frames.used, frames.total);
      var mem1 := WithTable(mem, d, v / SLOTS, f, user);
      && SpaceOk(mem1, dirs, kernel, frames.Taken(frames.total))
      && Walked(mem, frames, mem1, frames.Taken(frames.total), dirs, d, v, true, true, f)
      && SlotsOpened(mem, mem1, dirs, d, v / SLOTS, user)
  {
    hide UserOwned, HighAligned, Exclusive, IsTable, Decode, Encode, SameMaps, Tables, SlotsOpened;
    SpaceFacts(mem, dirs, kernel, frames, d);
    FreeIsFresh(mem, dirs, frames);
    var f := LowestFree(frames.used, frames.total);
    TableAdded(mem, dirs, kernel, d, v / SLOTS, f, user);
    DirIsTable(mem, dirs, d);
  }

  lemma DirIsTable(mem: seq<PageTables.Frame>, dirs: set<nat>, d: nat)
    requires Tables(mem, dirs) && d in dirs
    ensures IsTable(mem, dirs, d)
  {
  }

  lemma WalkedUser(mem: seq<PageTables.Frame>, dirs: set<nat>, kernel: nat, frames: Frames, d: nat, v: nat, create: bool)
    requires SpaceOk(mem, dirs, kernel, frames) && d in dirs && v < WINDOW_START && EntryAt(mem, d, v / SLOTS).present
    ensures var mem1 := SetWord(mem, d, v / SLOTS, With(mem[d][v / SLOTS], USER));
      && SpaceOk(mem1, dirs, kernel, frames)
      && Walked(mem, frames, mem1, frames, dirs, d, v, create, true, EntryAt(mem, d, v / SLOTS).frame)
      && SlotsOpened(mem, mem1, dirs, d, v / SLOTS, true)
  {
    hide UserOwned, HighAligned, Exclusive, IsTable, Decode, With, SameMaps, Tables, SlotsOpened;
    SpaceFacts(mem, dirs, kernel, frames, d);
    var mem1 := SetWord(mem, d, v / SLOTS, With(mem[d][v / SLOTS], USER));
    UserBitSet(mem, dirs, d, v / SLOTS);
    SameSlotsKeep(mem, mem1, dirs, kernel);
    ExclusiveKept(mem, mem1, dirs, d, v / SLOTS);
    DirIsTable(mem, dirs, d);
  }

  /** One entry of the table under slot v / 1024 written. */
  lemma EntrySet(mem: seq<PageTables.Frame>, dirs: set<nat>, kernel: nat, frames: Frames, d: nat, v: nat, w: Word)
    requires SpaceOk(mem, dirs, kernel, frames) && d in dirs && v < WINDOW_START && EntryAt(mem, d, v / SLOTS).present
    ensures var mem1 := SetWord(mem, EntryAt(mem, d, v / SLOTS).frame, v % SLOTS, w);
      && SpaceOk(mem1, dirs, kernel, frames) && Steady(mem, frames, mem1, frames, dirs)
      && Lookup(mem1, d, v) == Mapping(Decode(w))
      && (Exclusive(mem, dirs, d, v / SLOTS) ==> SameBut(mem, mem1, dirs, d, v))
      && (HIGH_SLOTS <= v / SLOTS ==> SameButPage(mem, mem1, dirs, v))
  {
    hide UserOwned, Exclusive, IsTable, Decode, SameBut, SameButPage, SameIndexOnly;
    EntryWritten(mem, dirs, d, v / SLOTS, v % SLOTS, w);
    assert v / SLOTS * SLOTS + v % SLOTS == v;
    var f := EntryAt(mem, d, v / SLOTS).frame;
    SameSlotsKeep(mem, SetWord(mem, f, v % SLOTS, w), dirs, kernel);
    SlotIsTable(mem, dirs, d, v / SLOTS);
  }

  lemma SlotIsTable(mem: seq<PageTables.Frame>, dirs: set<nat>, d: nat, i: nat)
    requires Tables(mem, dirs) && d in dirs && i < RECURSIVE_SLOT && EntryAt(mem, d, i).present
    ensures IsTable(mem, dirs, EntryAt(mem, d, i).frame)
  {
    assert NamesTable(mem, dirs, d, i, EntryAt(mem, d, i).frame);
  }

  lemma SpaceFacts(mem: seq<PageTables.Frame>, dirs: set<nat>, kernel: nat, frames: Frames, d: nat)
    requires SpaceOk(mem, dirs, kernel, frames) && d in dirs
    ensures Tables(mem, dirs) && |mem| == FRAME_RANGE && d < FRAME_RANGE && kernel in dirs && Has(mem[d][RECURSIVE_SLOT], PRESENT)
    ensures frames.Sound() && frames.used[0] && frames.refs[0] == 0 && 0 < frames.total
  {
  }

  /** A request that map_page_current accepts at all. */
  predicate Wanted(vaddr: Word, paddr: Word, flags: Flags) {
    !flags.nx && vaddr % PAGE_SIZE == 0 && paddr % PAGE_SIZE == 0 && flags.present
  }

  /** What mapping page `v` in directory `d` as `e` comes to: it succeeds exactly when the request is
      accepted, the page is not mapped, and its table is there or can be allocated; then that one
      translation changes, and no other if the table is exclusive. */
  ghost predicate MapDone(mem0: seq<PageTables.Frame>, frames0: Frames, mem1: seq<PageTables.Frame>, frames1: Frames, dirs: set<nat>,
                          d: nat, v: nat, wanted: bool, e: Entry, r: bool) {
    && Steady(mem0, frames0, mem1, frames1, dirs) && frames0.Sound() && d in dirs && v < WINDOW_START
    && var there := EntryAt(mem0, d, v / SLOTS).present;
       && r == (wanted && !Lookup(mem0, d, v).present && (there || HasRoom(frames0)))
       && (r ==> Lookup(mem1, d, v) == e && (Exclusive(mem0, dirs, d, v / SLOTS) ==> SameBut(mem0, mem1, dirs, d, v)))
       && (r && HIGH_SLOTS <= v / SLOTS ==> SameButPage(mem0, mem1, dirs, v))
       && (!r ==> SameMaps(mem0, mem1, dirs))
       && frames1 == (if wanted && !there then frames0.Taken(frames0.total) else frames0)
       && (Exclusive(mem0, dirs, d, v / SLOTS) ==> Exclusive(mem1, dirs, d, v / SLOTS))
  }

  /** What changing the entry of a mapped page to `e` comes to: it succeeds exactly on mapped pages. */
  ghost predicate ChangeDone(mem0: seq<PageTables.Frame>, mem1: seq<PageTables.Frame>, frames: Frames, dirs: set<nat>,
                             d: nat, v: nat, wanted: bool, e: Entry, r: bool) {
    && Steady(mem0, frames, mem1, frames, dirs) && d in dirs && v < WINDOW_START
    && r == (wanted && Lookup(mem0, d, v).present)
    && (r ==> Lookup(mem1, d, v) == e && (Exclusive(mem0, dirs, d, v / SLOTS) ==> SameBut(mem0, mem1, dirs, d, v)))
    && (r && HIGH_SLOTS <= v / SLOTS ==> SameButPage(mem0, mem1, dirs, v))
    && (!r ==> mem1 == mem0)
    && (Exclusive(mem0, dirs, d, v / SLOTS) ==> Exclusive(mem1, dirs, d, v / SLOTS))
  }

  /** The isolation that user halves enjoy: their tables have one owner. */
  lemma UserIsExclusive(mem: seq<PageTables.Frame>, dirs: set<nat>, kernel: nat, frames: Frames, d: nat, v: nat)
    requires SpaceOk(mem, dirs, kernel, frames) && d in dirs && d != kernel && v < USER_SLOTS * SLOTS
    ensures Tables(mem, dirs) && Exclusive(mem, dirs, d, v / SLOTS)
  {
    hide Exclusive, Backed;
  }

  lemma NotWanted(mem: seq<PageTables.Frame>, dirs: set<nat>, kernel: nat, frames: Frames, d: nat, v: nat, e: Entry)
    requires SpaceOk(mem, dirs, kernel, frames) && d in dirs && v < WINDOW_START
    ensures MapDone(mem, frames, mem, frames, dirs, d, v, false, e, false)
    ensures ChangeDone(mem, mem, frames, dirs, d, v, false, e, false)
  {
    hide Exclusive, IsTable, Decode, UserOwned, HighAligned;
  }

  lemma MapStays(mem0: seq<PageTables.Frame>, frames0: Frames, mem1: seq<PageTables.Frame>, frames1: Frames, dirs: set<nat>,
                 d: nat, v: nat, table: nat, ok: bool, wanted: bool, e: Entry)
    requires Walked(mem0, frames0, mem1, frames1, dirs, d, v, true, ok, table) && wanted
    requires ok ==> table < FRAME_RANGE && EntryAt(mem1, table, v % SLOTS).present
    ensures MapDone(mem0, frames0, mem1, frames1, dirs, d, v, wanted, e, false)
  {
    hide Exclusive, Steady, Decode, HasRoom;
    LookupWalks(mem0, frames0, mem1, frames1, dirs, d, v, table, true, ok);
  }

  /** Where the walk ends is where translations come from. */
  lemma LookupWalks(mem0: seq<PageTables.Frame>, frames0: Frames, mem1: seq<PageTables.Frame>, frames1: Frames, dirs: set<nat>,
                    d: nat, v: nat, table: nat, create: bool, ok: bool)
    requires Walked(mem0, frames0, mem1, frames1, dirs, d, v, create, ok, table)
    ensures d < FRAME_RANGE && Tables(mem0, dirs) && Tables(mem1, dirs) && d in dirs && v < WINDOW_START
    ensures ok ==> table < FRAME_RANGE && Lookup(mem0, d, v) == Lookup(mem1, d, v) == Mapping(EntryAt(mem1, table, v % SLOTS))
    ensures ok ==> EntryAt(mem1, d, v / SLOTS).present && EntryAt(mem1, d, v / SLOTS).frame == table
    ensures !ok ==> Lookup(mem0, d, v) == NO_ENTRY
  {
    hide Exclusive, IsTable, Decode, HasRoom;
  }

  lemma MapWritten(mem0: seq<PageTables.Frame>, frames0: Frames, mem1: seq<PageTables.Frame>, frames1: Frames, mem2: seq<PageTables.Frame>,
                   dirs: set<nat>, kernel: nat, d: nat, v: nat, table: nat, e: Entry)
    requires Walked(mem0, frames0, mem1, frames1, dirs, d, v, true, true, table) && SpaceOk(mem1, dirs, kernel, frames1)
    requires e.frame < FRAME_RANGE && e.present
    requires table < FRAME_RANGE && |mem1| == FRAME_RANGE && !EntryAt(mem1, table, v % SLOTS).present
    requires mem2 == SetWord(mem1, table, v % SLOTS, Encode(e))
    ensures SpaceOk(mem2, dirs, kernel, frames1)
    ensures MapDone(mem0, frames0, mem2, frames1, dirs, d, v, true, e, true)
    ensures |mem2| == FRAME_RANGE && d < FRAME_RANGE && Lookup(mem2, d, v) == e
  {
    hide Exclusive, Decode, Encode, HasRoom, IsTable, SpaceOk, SameBut, SameMaps, Steady;
    LookupWalks(mem0, frames0, mem1, frames1, dirs, d, v, table, true, true);
    EntrySet(mem1, dirs, kernel, frames1, d, v, Encode(e));
    DecodeEncode(e);
    StillExclusive(mem1, dirs, d, v / SLOTS, table, v % SLOTS, Encode(e));
    SteadyTransitive(mem0, frames0, mem1, frames1, mem2, frames1, dirs);
    if Exclusive(mem0, dirs, d, v / SLOTS) {
      SameMapsThenBut(mem0, mem1, mem2, dirs, d, v);
    }
    if HIGH_SLOTS <= v / SLOTS {
      SameMapsThenPage(mem0, mem1, mem2, dirs, v);
    }
  }

  lemma ChangeWritten(mem: seq<PageTables.Frame>, frames: Frames, mem1: seq<PageTables.Frame>, dirs: set<nat>, kernel: nat,
                      d: nat, v: nat, table: nat, w: Word, create: bool)
    requires Walked(mem, frames, mem, frames, dirs, d, v, create, true, table) && SpaceOk(mem, dirs, kernel, frames)
    requires table < FRAME_RANGE && |mem| == FRAME_RANGE && EntryAt(mem, table, v % SLOTS).present
    requires mem1 == SetWord(mem, table, v % SLOTS, w)
    ensures SpaceOk(mem1, dirs, kernel, frames)
    ensures ChangeDone(mem, mem1, frames, dirs, d, v, true, Mapping(Decode(w)), true)
  {
    hide Exclusive, Decode, HasRoom, IsTable, SpaceOk, SameBut, SameMaps, Steady;
    LookupWalks(mem, frames, mem, frames, dirs, d, v, table, create, true);
    EntrySet(mem, dirs, kernel, frames, d, v, w);
    StillExclusive(mem, dirs, d, v / SLOTS, table, v % SLOTS, w);
  }

  lemma ChangeStays(mem: seq<PageTables.Frame>, frames: Frames, dirs: set<nat>, kernel: nat, d: nat, v: nat, table: nat, ok: bool, e: Entry)
    requires Walked(mem, frames, mem, frames, dirs, d, v, false, ok, table) && SpaceOk(mem, dirs, kernel, frames)
    requires ok ==> table < FRAME_RANGE && !EntryAt(mem, table, v % SLOTS).present
    ensures ChangeDone(mem, mem, frames, dirs, d, v, true, e, false)
  {
    hide Exclusive, Decode, HasRoom, IsTable, SpaceOk, SameBut, SameMaps, Steady;
    LookupWalks(mem, frames, mem, frames, dirs, d, v, table, false, ok);
  }

  /** The entry after the bits of `on` were set and then those of `off` cleared; PRESENT and the frame
      stay. */
  function Reflagged(e: Entry, on: Flags, off: Flags): Entry {
    Entry(e.frame, e.present, (e.writable || on.writable) && !off.writable, (e.user || on.user) && !off.user, (e.cow || on.cow) && !off.cow)
  }

  lemma ReflaggedMapping(e: Entry, on: Flags, off: Flags)
    ensures e.present ==> Mapping(Reflagged(e, on, off)) == Reflagged(Mapping(e), on, off)
  {
  }

  function SetIf(w: Word, on: bool, off: bool, f: Flag): Word {
    var up := if on then With(w, f) else w;
    if off then Without(up, f) else up
  }

  /** The bit updates of paging_update_page_flags. */
  function Reword(w: Word, on: Flags, off: Flags): Word {
    SetIf(SetIf(SetIf(w, on.writable, off.writable, WRITABLE), on.user, off.user, USER), on.cow, off.cow, COW)
  }

  lemma RewordDecodes(w: Word, on: Flags, off: Flags)
    ensures Decode(Reword(w, on, off)) == Reflagged(Decode(w), on, off)
  {
    hide Decode;
    SetIfDecodes(w, on.writable, off.writable, WRITABLE);
    var w1 := SetIf(w, on.writable, off.writable, WRITABLE);
    SetIfDecodes(w1, on.user, off.user, USER);
    var w2 := SetIf(w1, on.user, off.user, USER);
    SetIfDecodes(w2, on.cow, off.cow, COW);
  }

  lemma SetIfDecodes(w: Word, on: bool, off: bool, f: Flag)
    ensures var e, r := Decode(w), Decode(SetIf(w, on, off, f));
      match f
      case PRESENT => r == e.(present := (e.present || on) && !off)
      case WRITABLE => r == e.(writable := (e.writable || on) && !off)
      case USER => r == e.(user := (e.user || on) && !off)
      case COW => r == e.(cow := (e.cow || on) && !off)
  {
    hide Decode, With, Without;
    DecodeWith(w, f);
    DecodeWith(With(w, f), f);
  }

  lemma StillExclusive(mem: seq<PageTables.Frame>, dirs: set<nat>, d: nat, i: nat, table: nat, j: nat, w: Word)
    requires Tables(mem, dirs) && d in dirs && i < RECURSIVE_SLOT && j < SLOTS
    requires EntryAt(mem, d, i).present && EntryAt(mem, d, i).frame == table
    ensures var mem1 := SetWord(mem, table, j, w);
      Tables(mem1, dirs) && (Exclusive(mem, dirs, d, i) ==> Exclusive(mem1, dirs, d, i))
  {
    hide Decode, Exclusive;
    EntryWritten(mem, dirs, d, i, j, w);
    ExclusiveKept(mem, SetWord(mem, table, j, w), dirs, d, i);
  }

  /** What mapping the scratch page comes to. */
  ghost predicate TempDone(mem0: seq<PageTables.Frame>, frames0: Frames, mem1: seq<PageTables.Frame>, frames1: Frames, dirs: set<nat>,
                           d: nat, phys: Word, ok: bool) {
    && Steady(mem0, frames0, mem1, frames1, dirs) && frames0.Sound() && d in dirs
    && var there := EntryAt(mem0, d, SCRATCH_PAGE / SLOTS).present;
       && ok == (phys % PAGE_SIZE == 0 && (there || HasRoom(frames0)))
       && (ok ==>
             && Lookup(mem1, d, SCRATCH_PAGE) == Entry(phys / PAGE_SIZE, true, true, false, false)
             && SameButPage(mem0, mem1, dirs, SCRATCH_PAGE))
       && (!ok ==> SameMaps(mem0, mem1, dirs))
       && frames1 == (if phys % PAGE_SIZE == 0 && !there then frames0.Taken(frames0.total) else frames0)
  }

  lemma TempUnaligned(mem: seq<PageTables.Frame>, dirs: set<nat>, kernel: nat, frames: Frames, d: nat, phys: Word)
    requires SpaceOk(mem, dirs, kernel, frames) && d in dirs && phys % PAGE_SIZE != 0
    ensures TempDone(mem, frames, mem, frames, dirs, d, phys, false)
  {
    hide Exclusive, IsTable, Decode, UserOwned, HighAligned;
  }

  lemma TempFull(mem0: seq<PageTables.Frame>, frames0: Frames, mem1: seq<PageTables.Frame>, frames1: Frames, dirs: set<nat>,
                 d: nat, phys: Word, table: nat)
    requires Walked(mem0, frames0, mem1, frames1, dirs, d, SCRATCH_PAGE, true, false, table) && phys % PAGE_SIZE == 0
    ensures TempDone(mem0, frames0, mem1, frames1, dirs, d, phys, false)
  {
    hide Exclusive, IsTable, Decode, UserOwned, HighAligned, Steady, SameMaps;
  }

  lemma TempWritten(mem0: seq<PageTables.Frame>, frames0: Frames, mem1: seq<PageTables.Frame>, frames1: Frames, mem2: seq<PageTables.Frame>,
                    dirs: set<nat>, kernel: nat, d: nat, table: nat, phys: Word)
    requires Walked(mem0, frames0, mem1, frames1, dirs, d, SCRATCH_PAGE, true, true, table) && SpaceOk(mem1, dirs, kernel, frames1)
    requires phys % PAGE_SIZE == 0 && table < FRAME_RANGE && |mem1| == FRAME_RANGE
    requires mem2 == SetWord(mem1, table, SCRATCH_PAGE % SLOTS, Encode(Entry(phys / PAGE_SIZE, true, true, false, false)))
    ensures SpaceOk(mem2, dirs, kernel, frames1) && TempDone(mem0, frames0, mem2, frames1, dirs, d, phys, true)
  {
    hide Exclusive, Decode, Encode, HasRoom, IsTable, SpaceOk, SameButPage, SameMaps, Steady;
    var e := Entry(phys / PAGE_SIZE, true, true, false, false);
    LookupWalks(mem0, frames0, mem1, frames1, dirs, d, SCRATCH_PAGE, table, true, true);
    EntrySet(mem1, dirs, kernel, frames1, d, SCRATCH_PAGE, Encode(e));
    DecodeEncode(e);
    SteadyTransitive(mem0, frames0, mem1, frames1, mem2, frames1, dirs);
    SameMapsThenPage(mem0, mem1, mem2, dirs, SCRATCH_PAGE);
  }

  /** A new directory in a frame that was free. */
  lemma DirectoryMade(mem: seq<PageTables.Frame>, dirs: set<nat>, kernel: nat, frames: Frames)
    requires SpaceOk(mem, dirs, kernel, frames) && HasRoom(frames)
    ensures var f := LowestFree(frames.used, frames.total);
      var mem1 := mem[f := NewDirectory(mem[kernel], f)];
      && f !in dirs && SpaceOk(mem1, dirs + {f}, kernel, frames.Taken(frames.total)) && SameMaps(mem, mem1, dirs)
      && (forall v: nat :: v < USER_SLOTS * SLOTS ==> Lookup(mem1, f, v) == NO_ENTRY)
      && (forall v: nat :: USER_SLOTS * SLOTS <= v < WINDOW_START ==> Lookup(mem1, f, v) == Lookup(mem, kernel, v))
      && (forall v: nat, store: bool :: v < FRAME_RANGE ==> !UserCan(mem1, f, v, store))
  {
    hide UserOwned, HighAligned, IsTable, Decode, SameMaps, Tables, Lookup, UserCan;
    SpaceFacts(mem, dirs, kernel, frames, kernel);
    FreeIsFresh(mem, dirs, frames);
    var f := LowestFree(frames.used, frames.total);
    DirIsTable2(mem, dirs, f);
    DirectoryAdded(mem, dirs, kernel, f);
  }

  lemma DirIsTable2(mem: seq<PageTables.Frame>, dirs: set<nat>, f: nat)
    requires Tables(mem, dirs) && Fresh(mem, dirs, f)
    ensures f !in dirs
  {
  }

  lemma SpaceFacts2(mem: seq<PageTables.Frame>, dirs: set<nat>, kernel: nat, frames: Frames)
    requires SpaceOk(mem, dirs, kernel, frames)
    ensures Tables(mem, dirs) && |mem| == FRAME_RANGE && frames.Sound() && forall x :: x in dirs ==> x < FRAME_RANGE
  {
  }

  /** Writing a frame that is no table touches no translation. */
  lemma DataWritten(mem: seq<PageTables.Frame>, dirs: set<nat>, kernel: nat, frames: Frames, f: nat, page: PageTables.Frame)
    requires SpaceOk(mem, dirs, kernel, frames) && f < FRAME_RANGE && !IsTable(mem, dirs, f)
    ensures var mem1 := mem[f := page];
      && SpaceOk(mem1, dirs, kernel, frames) && SameMaps(mem, mem1, dirs) && SameSlots(mem, mem1, dirs)
      && KeepsExclusive(mem, mem1, dirs)
      && (forall x: nat :: IsTable(mem1, dirs, x) == IsTable(mem, dirs, x))
  {
    hide Decode, UserOwned, HighAligned;
    SpaceFacts2(mem, dirs, kernel, frames);
    var mem1 := mem[f := page];
    SameSlotsKeep(mem, mem1, dirs, kernel);
    forall x: nat, y: nat | x in dirs && y < WINDOW_START ensures Lookup(mem1, x, y) == Lookup(mem, x, y) {
      var pde := EntryAt(mem, x, y / SLOTS);
      if pde.present {
        assert NamesTable(mem, dirs, x, y / SLOTS, pde.frame);
      }
    }
  }

  lemma SameMapsSelf(mem: seq<PageTables.Frame>, dirs: set<nat>, kernel: nat, frames: Frames)
    requires SpaceOk(mem, dirs, kernel, frames)
    ensures |mem| == FRAME_RANGE && (forall x :: x in dirs ==> x < FRAME_RANGE) && SameMaps(mem, mem, dirs)
  {
  }

  /** The lowest free frame taken, the tables as they were. */
  lemma SpaceTaken(mem: seq<PageTables.Frame>, dirs: set<nat>, kernel: nat, frames: Frames)
    requires SpaceOk(mem, dirs, kernel, frames) && HasRoom(frames)
    ensures SpaceOk(mem, dirs, kernel, frames.Taken(frames.total))
  {
    hide Tables, UserOwned, HighAligned, IsTable, Decode;
    SpaceFacts2(mem, dirs, kernel, frames);
  }

  lemma SpaceFresh(mem: seq<PageTables.Frame>, dirs: set<nat>, kernel: nat, frames: Frames)
    requires SpaceOk(mem, dirs, kernel, frames) && HasRoom(frames)
    ensures Tables(mem, dirs) && Fresh(mem, dirs, LowestFree(frames.used, frames.total))
    ensures 0 < LowestFree(frames.used, frames.total) < FRAME_RANGE
  {
    FreeIsFresh(mem, dirs, frames);
  }

  /** A new directory made through pages that show the frames of the same numbers. */
  lemma MadeThrough(mem: seq<PageTables.Frame>, mem1: seq<PageTables.Frame>, dirs: set<nat>, d: nat, kernel: nat, f: nat, c: Creation)
    requires Tables(mem, dirs) && d in dirs && kernel in dirs && Fresh(mem, dirs, f)
    requires |mem| == FRAME_RANGE && d < FRAME_RANGE && kernel < FRAME_RANGE
    requires Attempted(mem, mem1, d, kernel, f, c) && GoesThrough(mem, d, kernel, f)
    ensures c == Created(f * PAGE_SIZE) && mem1 == mem[f := NewDirectory(mem[kernel], f)]
  {
    hide Decode, NewDirectory, CanStore, Zeroed, Lookup;
    FreshIsAside(mem, dirs, d, f, f);
    FreshIsAside(mem, dirs, d, kernel, f);
    KernelIsNot(mem, dirs, kernel, f);
  }

  lemma KernelIsNot(mem: seq<PageTables.Frame>, dirs: set<nat>, kernel: nat, f: nat)
    requires Tables(mem, dirs) && kernel in dirs && Fresh(mem, dirs, f)
    ensures kernel != f
  {
  }

  /** Words written to a frame that is no table leave the tables sound. */
  lemma StraySettles(mem: seq<PageTables.Frame>, mem1: seq<PageTables.Frame>, dirs: set<nat>, kernel: nat, frames: Frames,
                     d: nat, f: nat, c: Creation)
    requires SpaceOk(mem, dirs, kernel, frames) && HasRoom(frames) && f < FRAME_RANGE
    requires |mem| == FRAME_RANGE && d < FRAME_RANGE && kernel < FRAME_RANGE && Tables(mem, dirs)
    requires Attempted(mem, mem1, d, kernel, f, c)
    ensures |mem1| == FRAME_RANGE && forall x :: x in dirs ==> x < FRAME_RANGE
    ensures !CanStore(mem, d, f) || !IsTable(mem, dirs, Lookup(mem, d, f).frame) ==>
      SpaceOk(mem1, dirs, kernel, frames.Taken(frames.total)) && SameMaps(mem, mem1, dirs)
  {
    hide Decode, NewDirectory, CanStore, Zeroed, Lookup, SpaceOk, IsTable, SameMaps, Source, Tables;
    SpaceFacts2(mem, dirs, kernel, frames);
    SpaceTaken(mem, dirs, kernel, frames);
    SameMapsSelf(mem, dirs, kernel, frames);
    var g := Lookup(mem, d, f).frame;
    if !CanStore(mem, d, f) {
      var n: nat :| Cleared(mem, mem1, d, f, n);
      ZeroedEnds(mem[g], mem[g]);
      assert mem1 == mem;
    } else if !IsTable(mem, dirs, g) {
      DataWritten(mem, dirs, kernel, frames.Taken(frames.total), g, mem1[g]);
      assert mem1 == mem[g := mem1[g]];
    }
  }

  /** Every directory's words are as before. */
  ghost predicate DirsSame(mem0: seq<PageTables.Frame>, mem1: seq<PageTables.Frame>, dirs: set<nat>) {
    |mem0| == |mem1| == FRAME_RANGE && forall x :: x in dirs ==> x < FRAME_RANGE && mem1[x] == mem0[x]
  }

  lemma TableNoDir(mem: seq<PageTables.Frame>, dirs: set<nat>, d: nat, i: nat, table: nat)
    requires Tables(mem, dirs) && d in dirs && i < RECURSIVE_SLOT && EntryAt(mem, d, i).present && EntryAt(mem, d, i).frame == table
    ensures table !in dirs
  {
  }

  lemma SpaceSlots(mem: seq<PageTables.Frame>, dirs: set<nat>, kernel: nat, frames: Frames, d: nat, i: nat)
    requires SpaceOk(mem, dirs, kernel, frames) && d in dirs && i < SLOTS
    ensures |mem| == FRAME_RANGE && d < FRAME_RANGE && (forall x :: x in dirs ==> x < FRAME_RANGE)
    ensures SlotsOpened(mem, mem, dirs, d, i, false)
  {
    hide Decode;
  }

  /** A page mapped for users is theirs, at both levels, and one that is not is out of their reach. */
  lemma MapOpened(mem0: seq<PageTables.Frame>, mem1: seq<PageTables.Frame>, mem2: seq<PageTables.Frame>, dirs: set<nat>, kernel: nat,
                  frames: Frames, d: nat, v: nat, table: nat, e: Entry, user: bool)
    requires Tables(mem0, dirs) && Tables(mem1, dirs) && d in dirs && v < WINDOW_START
    requires SlotsOpened(mem0, mem1, dirs, d, v / SLOTS, user)
    requires EntryAt(mem1, d, v / SLOTS).present && EntryAt(mem1, d, v / SLOTS).frame == table && table < FRAME_RANGE
    requires e.frame < FRAME_RANGE && e.present && e.user == user
    requires mem2 == SetWord(mem1, table, v % SLOTS, Encode(e)) && SpaceOk(mem2, dirs, kernel, frames) && Lookup(mem2, d, v) == e
    ensures SlotsOpened(mem0, mem2, dirs, d, v / SLOTS, user)
    ensures UserCan(mem2, d, v, false) <==> user
    ensures UserCan(mem2, d, v, true) <==> user && e.writable
  {
    hide Decode, Encode, UserOwned, HighAligned, Backed, UserCan, Lookup;
    TableNoDir(mem1, dirs, d, v / SLOTS, table);
    SlotsAfterEntry(mem0, mem1, dirs, d, v / SLOTS, user, table, v % SLOTS, Encode(e));
    UserReach(mem2, dirs, d, v, false);
    UserReach(mem2, dirs, d, v, true);
    assert mem2[d] == mem1[d];
  }

  /** After a change of flags user code reaches the page as far as the new flags and the slot's old
      mark allow: a page marked for users stays out of reach below a slot that is not. */
  lemma FlagsReach(mem0: seq<PageTables.Frame>, mem1: seq<PageTables.Frame>, frames: Frames, dirs: set<nat>, d: nat, v: nat,
                   e: Entry, on: Flags, off: Flags, store: bool)
    requires |mem0| == FRAME_RANGE && d < FRAME_RANGE && v < FRAME_RANGE && e == Lookup(mem0, d, v)
    requires ChangeDone(mem0, mem1, frames, dirs, d, v, true, Reflagged(e, on, off), true) && DirsSame(mem0, mem1, dirs)
    ensures UserCan(mem1, d, v, store) <==>
      && EntryAt(mem0, d, v / SLOTS).user && (e.user || on.user) && !off.user
      && (store ==> (e.writable || on.writable) && !off.writable)
    ensures Lookup(mem1, d, v).frame == e.frame && Lookup(mem1, d, v).present && (Lookup(mem1, d, v).cow <==> (e.cow || on.cow) && !off.cow)
  {
    hide Decode, IsTable, Exclusive, UserCan, Lookup, SameBut, SameMaps;
    UserReach(mem1, dirs, d, v, store);
    assert EntryAt(mem1, d, v / SLOTS) == EntryAt(mem0, d, v / SLOTS);
  }

  lemma FullStays(frames: Frames)
    requires frames.Sound() && !HasRoom(frames)
    ensures frames.Taken(frames.total) == frames
  {
  }

  class AddressSpaces {
    const pmm: FrameAllocator
    const ram: array<PageTables.Frame>
    const kernelPd: nat      // frame number
    var cr3: nat             // physical address
    var cachedPd: nat        // physical address, or 0 when not known
    ghost var dirs: set<nat>

    ghost predicate Inv()
      reads this, ram, pmm, pmm.bitmap, pmm.refcount
    {
      && pmm.Valid() && ram.Length == FRAME_RANGE
      && SpaceOk(ram[..], dirs, kernelPd, pmm.View())
      && cr3 % PAGE_SIZE == 0 && cr3 / PAGE_SIZE in dirs && (cachedPd == 0 || cachedPd == cr3)
    }

    constructor (pmm: FrameAllocator, ram: array<PageTables.Frame>, kernelPd: nat)
      requires pmm.Valid() && ram.Length == FRAME_RANGE && Tables(ram[..], {kernelPd})
      requires HighAligned(ram[..], {kernelPd}) && Backed(ram[..], {kernelPd}, pmm.View())
      ensures Inv() && this.pmm == pmm && this.ram == ram && this.kernelPd == kernelPd && dirs == {kernelPd} && Cur() == kernelPd
    {
      this.pmm, this.ram, this.kernelPd := pmm, ram, kernelPd;
      this.dirs := {kernelPd};
      cr3, cachedPd := kernelPd * PAGE_SIZE, kernelPd * PAGE_SIZE;
    }

    ghost function Cur(): nat reads this { cr3 / PAGE_SIZE }

    ghost function Mem(): (m: seq<PageTables.Frame>) reads ram { ram[..] }

    /** paging_current_directory_phys */
    method Current() returns (phys: nat)
      requires Inv()
      modifies this`cachedPd
      ensures Inv() && phys == cr3
    {
      if cachedPd == 0 {
        cachedPd := cr3;
      }
      return cachedPd;
    }

    /** paging_switch_directory */
    method Switch(phys: nat)
      requires Inv() && phys / PAGE_SIZE in dirs
      modifies this`cr3, this`cachedPd
      ensures Inv() && cr3 == phys / PAGE_SIZE * PAGE_SIZE && Cur() == phys / PAGE_SIZE
    {
      cr3 := phys / PAGE_SIZE * PAGE_SIZE;
      cachedPd := cr3;
    }

    /** A frame for a table or a directory: below 64 MiB if there is one, else any. */
    method AllocTableFrame() returns (phys: nat)
      requires Inv()
      modifies pmm`usedPages, pmm`firstFreeHint, pmm.bitmap, pmm.refcount
      ensures pmm.Valid()
      ensures var f := old(pmm.View());
        && pmm.View() == f.Taken(f.total)
        && phys == if HasRoom(f) then LowestFree(f.used, f.total) * PAGE_SIZE else 0
      ensures phys == 0 <==> !HasRoom(old(pmm.View()))
    {
      hide Tables, UserOwned, SpaceOk;
      ghost var f := pmm.View();
      SpaceFacts(Mem(), dirs, kernelPd, f, Cur());
      phys := pmm.AllocPageBelow(IDENTITY_LIMIT);
      if LowestFree(f.used, IDENTITY_LIMIT / PAGE_SIZE) < IDENTITY_LIMIT / PAGE_SIZE {
        TakenBelow(f, IDENTITY_LIMIT / PAGE_SIZE);
      }
      if phys == 0 {
        phys := pmm.AllocPage();
      }
    }

    /** The pair (directory, page) is in the user half of a directory other than the kernel's. */
    ghost predicate UserPage(d: nat, v: nat) { d != kernelPd && v < USER_SLOTS * SLOTS }

    /** Memories to compare directory slots in. */
    ghost predicate SlotsKnown(mem0: seq<PageTables.Frame>, mem1: seq<PageTables.Frame>)
      reads this
    {
      |mem0| == |mem1| == FRAME_RANGE && Cur() < FRAME_RANGE && forall x :: x in dirs ==> x < FRAME_RANGE
    }

    /** walk_get_pte for a page below the recursive window: the table that holds its entry. The C code
        reaches directory and tables through the recursive window (RecursiveWindow). */
    method Walk(v: nat, create: bool, user: bool) returns (ok: bool, table: nat)
      requires Inv() && v < WINDOW_START
      modifies ram, pmm`usedPages, pmm`firstFreeHint, pmm.bitmap, pmm.refcount
      ensures Inv() && Walked(old(Mem()), old(pmm.View()), Mem(), pmm.View(), dirs, Cur(), v, create, ok, table)
      ensures SlotsKnown(old(Mem()), Mem()) && SlotsOpened(old(Mem()), Mem(), dirs, Cur(), v / SLOTS, user)
    {
      hide SpaceOk, SlotsOpened, Walked, Decode, Encode, With, IsTable, Exclusive, LowestFree, BitsOf, CountUsed;
      ghost var mem, frames := Mem(), pmm.View();
      SpaceFacts(mem, dirs, kernelPd, frames, Cur());
      var d, i := cr3 / PAGE_SIZE, v / SLOTS;
      WalkedNowhere(mem, dirs, kernelPd, frames, d, v, create);
      var pde := Decode(ram[d][i]);
      if !pde.present {
        if !create {
          return false, pde.frame;
        }
        var phys := AllocTableFrame();
        if phys == 0 {
          FullStays(frames);
          return false, 0;
        }
        WalkedNew(mem, dirs, kernelPd, frames, d, v, user);
        table := phys / PAGE_SIZE;
        ram[d] := ram[d][i := Encode(Entry(table, true, true, user, false))];
        ram[table] := ZeroFrame();
        assert ram[..] == WithTable(mem, d, i, table, user);
        return true, table;
      }
      if user && !pde.user {
        WalkedUser(mem, dirs, kernelPd, frames, d, v, create);
        ram[d] := ram[d][i := With(ram[d][i], USER)];
        assert ram[..] == SetWord(mem, d, i, With(mem[d][i], USER));
      }
      return true, pde.frame;
    }

    /** map_page_current */
    method MapPage(vaddr: Word, paddr: Word, flags: Flags) returns (r: bool)
      requires Inv() && vaddr / PAGE_SIZE < WINDOW_START
      modifies ram, pmm`usedPages, pmm`firstFreeHint, pmm.bitmap, pmm.refcount
      ensures Inv()
      ensures MapDone(old(Mem()), old(pmm.View()), Mem(), pmm.View(), dirs, Cur(), vaddr / PAGE_SIZE, Wanted(vaddr, paddr, flags),
                      Entry(paddr / PAGE_SIZE, true, flags.writable, flags.user, flags.cow), r)
      ensures SlotsKnown(old(Mem()), Mem())
      ensures SlotsOpened(old(Mem()), Mem(), dirs, Cur(), vaddr / PAGE_SIZE / SLOTS, Wanted(vaddr, paddr, flags) && flags.user)
      ensures r ==> flags.present && !flags.nx && vaddr % 4096 == 0 && paddr % 4096 == 0
      ensures r ==> (UserCan(Mem(), Cur(), vaddr / PAGE_SIZE, false) <==> flags.user)
      ensures r ==> (UserCan(Mem(), Cur(), vaddr / PAGE_SIZE, true) <==> flags.user && flags.writable)
    {
      hide SpaceOk, SlotsOpened, UserCan, Walked, MapDone, Decode, Encode, IsTable, Exclusive, LowestFree, BitsOf, CountUsed;
      ghost var mem, frames := Mem(), pmm.View();
      SpaceFacts(mem, dirs, kernelPd, frames, Cur());
      var v := vaddr / PAGE_SIZE;
      ghost var e := Entry(paddr / PAGE_SIZE, true, flags.writable, flags.user, flags.cow);
      if flags.nx || vaddr % PAGE_SIZE != 0 || paddr % PAGE_SIZE != 0 || !flags.present || !Has(ram[cr3 / PAGE_SIZE][RECURSIVE_SLOT], PRESENT) {
        NotWanted(mem, dirs, kernelPd, frames, Cur(), v, e);
        SpaceSlots(mem, dirs, kernelPd, frames, Cur(), v / SLOTS);
        return false;
      }
      var ok, table := Walk(v, true, flags.user);
      ghost var mem1, frames1 := Mem(), pmm.View();
      LookupWalks(mem, frames, mem1, frames1, dirs, Cur(), v, table, true, ok);
      if !ok || Decode(ram[table][v % SLOTS]).present {
        MapStays(mem, frames, mem1, frames1, dirs, Cur(), v, table, ok, true, e);
        return false;
      }
      ram[table] := ram[table][v % SLOTS := Encode(Entry(paddr / PAGE_SIZE, true, flags.writable, flags.user, flags.cow))];
      assert ram[..] == SetWord(mem1, table, v % SLOTS, Encode(e));
      MapWritten(mem, frames, mem1, frames1, Mem(), dirs, kernelPd, Cur(), v, table, e);
      MapOpened(mem, mem1, Mem(), dirs, kernelPd, frames1, Cur(), v, table, e, flags.user);
      return true;
    }

    /** unmap_page_current */
    method UnmapPage(vaddr: Word) returns (r: bool)
      requires Inv() && vaddr / PAGE_SIZE < WINDOW_START
      modifies ram
      ensures Inv() && pmm.View() == old(pmm.View())
      ensures ChangeDone(old(Mem()), Mem(), pmm.View(), dirs, Cur(), vaddr / PAGE_SIZE, vaddr % PAGE_SIZE == 0, NO_ENTRY, r)
      ensures DirsSame(old(Mem()), Mem(), dirs)
    {
      r := ChangeEntry(vaddr, true, Flags(false, false, false, false, false), Flags(false, false, false, false, false));
    }

    /** paging_update_page_flags */
    method UpdateFlags(vaddr: Word, on: Flags, off: Flags) returns (r: bool)
      requires Inv() && vaddr / PAGE_SIZE < WINDOW_START
      modifies ram
      ensures Inv() && pmm.View() == old(pmm.View())
      ensures ChangeDone(old(Mem()), Mem(), pmm.View(), dirs, Cur(), vaddr / PAGE_SIZE, vaddr % PAGE_SIZE == 0,
                         Reflagged(Lookup(old(Mem()), Cur(), vaddr / PAGE_SIZE), on, off), r)
      ensures DirsSame(old(Mem()), Mem(), dirs)
    {
      r := ChangeEntry(vaddr, false, on, off);
    }

    /** The common shape of unmapping and reflagging: find the entry without creating a table, and
        clear it or change its bits. */
    method ChangeEntry(vaddr: Word, clear: bool, on: Flags, off: Flags) returns (r: bool)
      requires Inv() && vaddr / PAGE_SIZE < WINDOW_START
      modifies ram
      ensures Inv() && pmm.View() == old(pmm.View())
      ensures ChangeDone(old(Mem()), Mem(), pmm.View(), dirs, Cur(), vaddr / PAGE_SIZE, vaddr % PAGE_SIZE == 0,
                         if clear then NO_ENTRY else Reflagged(Lookup(old(Mem()), Cur(), vaddr / PAGE_SIZE), on, off), r)
      ensures DirsSame(old(Mem()), Mem(), dirs)
    {
      hide SpaceOk, ChangeDone, Decode, IsTable, Exclusive, LowestFree, BitsOf, CountUsed, Reword, Reflagged;
      ghost var mem, frames := Mem(), pmm.View();
      SpaceFacts(mem, dirs, kernelPd, frames, Cur());
      var v := vaddr / PAGE_SIZE;
      ghost var e := if clear then NO_ENTRY else Reflagged(Lookup(mem, Cur(), v), on, off);
      if vaddr % PAGE_SIZE != 0 || !Has(ram[cr3 / PAGE_SIZE][RECURSIVE_SLOT], PRESENT) {
        NotWanted(mem, dirs, kernelPd, frames, Cur(), v, e);
        return false;
      }
      var ok, table := FindTable(v);
      LookupWalks(mem, frames, mem, frames, dirs, Cur(), v, table, false, ok);
      if !ok || !Decode(ram[table][v % SLOTS]).present {
        ChangeStays(mem, frames, dirs, kernelPd, Cur(), v, table, ok, e);
        return false;
      }
      var word: Word := if clear then 0 else Reword(ram[table][v % SLOTS], on, off);
      ZeroFrameIsNone();
      RewordDecodes(ram[table][v % SLOTS], on, off);
      ReflaggedMapping(EntryAt(mem, table, v % SLOTS), on, off);
      ram[table] := ram[table][v % SLOTS := word];
      assert ram[..] == SetWord(mem, table, v % SLOTS, word);
      ChangeWritten(mem, frames, Mem(), dirs, kernelPd, Cur(), v, table, word, false);
      TableNoDir(mem, dirs, Cur(), v / SLOTS, table);
      return true;
    }

    /** walk_get_pte without creating: nothing changes. */
    method FindTable(v: nat) returns (ok: bool, table: nat)
      requires Inv() && v < WINDOW_START
      ensures Walked(Mem(), pmm.View(), Mem(), pmm.View(), dirs, Cur(), v, false, ok, table)
    {
      hide SpaceOk, Walked, Decode, IsTable, Exclusive, LowestFree, BitsOf, CountUsed;
      SpaceFacts(Mem(), dirs, kernelPd, pmm.View(), Cur());
      WalkedNowhere(Mem(), dirs, kernelPd, pmm.View(), Cur(), v, false);
      var pde := Decode(ram[cr3 / PAGE_SIZE][v / SLOTS]);
      return pde.present, pde.frame;
    }

    /** paging_get_mapping */
    method GetMapping(vaddr: Word) returns (r: bool, phys: nat, flags: Flags)
      requires Inv() && vaddr / PAGE_SIZE < WINDOW_START
      ensures var e := Lookup(Mem(), Cur(), vaddr / PAGE_SIZE);
        && r == e.present
        && (r ==> phys == e.frame * PAGE_SIZE + vaddr % PAGE_SIZE && flags == Flags(true, e.writable, e.user, false, e.cow))
    {
      hide SpaceOk, Walked, Decode, IsTable, Exclusive, LowestFree, BitsOf, CountUsed, Lookup;
      SpaceFacts(Mem(), dirs, kernelPd, pmm.View(), Cur());
      var v := vaddr / PAGE_SIZE;
      r, phys, flags := false, 0, Flags(false, false, false, false, false);
      var ok, table := FindTable(v);
      LookupWalks(Mem(), pmm.View(), Mem(), pmm.View(), dirs, Cur(), v, table, false, ok);
      if !Has(ram[cr3 / PAGE_SIZE][RECURSIVE_SLOT], PRESENT) || !ok {
        return;
      }
      var e := Decode(ram[table][v % SLOTS]);
      if !e.present {
        return;
      }
      return true, e.frame * PAGE_SIZE + vaddr % PAGE_SIZE, Flags(true, e.writable, e.user, false, e.cow);
    }

    /** paging_map_page_in_directory */
    method MapPageIn(pd: nat, vaddr: Word, paddr: Word, flags: Flags) returns (r: bool)
      requires Inv() && pd / PAGE_SIZE in dirs && vaddr / PAGE_SIZE < WINDOW_START
      modifies ram, pmm`usedPages, pmm`firstFreeHint, pmm.bitmap, pmm.refcount, this`cr3, this`cachedPd
      ensures Inv() && cr3 == old(cr3)
      ensures MapDone(old(Mem()), old(pmm.View()), Mem(), pmm.View(), dirs, pd / PAGE_SIZE, vaddr / PAGE_SIZE, Wanted(vaddr, paddr, flags),
                      Entry(paddr / PAGE_SIZE, true, flags.writable, flags.user, flags.cow), r)
      ensures UserPage(pd / PAGE_SIZE, vaddr / PAGE_SIZE) && r ==>
        SameBut(old(Mem()), Mem(), dirs, pd / PAGE_SIZE, vaddr / PAGE_SIZE)
      ensures SlotsKnown(old(Mem()), Mem()) && pd / PAGE_SIZE < FRAME_RANGE
      ensures SlotsOpened(old(Mem()), Mem(), dirs, pd / PAGE_SIZE, vaddr / PAGE_SIZE / SLOTS, Wanted(vaddr, paddr, flags) && flags.user)
      ensures r ==> flags.present && !flags.nx && vaddr % 4096 == 0 && paddr % 4096 == 0
      ensures r ==> (UserCan(Mem(), pd / PAGE_SIZE, vaddr / PAGE_SIZE, false) <==> flags.user)
      ensures r ==> (UserCan(Mem(), pd / PAGE_SIZE, vaddr / PAGE_SIZE, true) <==> flags.user && flags.writable)
    {
      hide SpaceOk, SlotsOpened, UserCan, Exclusive, IsTable, LowestFree, BitsOf, CountUsed, SameBut, SameMaps, Steady;
      ghost var mem, frames := Mem(), pmm.View();
      SpaceFacts(mem, dirs, kernelPd, frames, Cur());
      SpaceFacts(mem, dirs, kernelPd, frames, pd / PAGE_SIZE);
      var saved := Current();
      Switch(pd);
      r := MapPage(vaddr, paddr, flags);
      Switch(saved);
      if UserPage(pd / PAGE_SIZE, vaddr / PAGE_SIZE) {
        UserIsExclusive(mem, dirs, kernelPd, frames, pd / PAGE_SIZE, vaddr / PAGE_SIZE);
      }
    }

    /** paging_unmap_page_in_directory */
    method UnmapPageIn(pd: nat, vaddr: Word) returns (r: bool)
      requires Inv() && pd / PAGE_SIZE in dirs && vaddr / PAGE_SIZE < WINDOW_START
      modifies ram, this`cr3, this`cachedPd
      ensures Inv() && cr3 == old(cr3) && pmm.View() == old(pmm.View())
      ensures ChangeDone(old(Mem()), Mem(), pmm.View(), dirs, pd / PAGE_SIZE, vaddr / PAGE_SIZE, vaddr % PAGE_SIZE == 0, NO_ENTRY, r)
      ensures UserPage(pd / PAGE_SIZE, vaddr / PAGE_SIZE) && r ==>
        SameBut(old(Mem()), Mem(), dirs, pd / PAGE_SIZE, vaddr / PAGE_SIZE)
      ensures DirsSame(old(Mem()), Mem(), dirs)
    {
      hide SpaceOk, Exclusive, IsTable, LowestFree, BitsOf, CountUsed, SameBut, SameMaps, Steady;
      ghost var mem, frames := Mem(), pmm.View();
      SpaceFacts(mem, dirs, kernelPd, frames, Cur());
      var saved := Current();
      Switch(pd);
      r := UnmapPage(vaddr);
      Switch(saved);
      if UserPage(pd / PAGE_SIZE, vaddr / PAGE_SIZE) {
        UserIsExclusive(mem, dirs, kernelPd, frames, pd / PAGE_SIZE, vaddr / PAGE_SIZE);
      }
    }

    /** paging_update_page_flags_in_directory */
    method UpdateFlagsIn(pd: nat, vaddr: Word, on: Flags, off: Flags) returns (r: bool)
      requires Inv() && pd / PAGE_SIZE in dirs && vaddr / PAGE_SIZE < WINDOW_START
      modifies ram, this`cr3, this`cachedPd
      ensures Inv() && cr3 == old(cr3) && pmm.View() == old(pmm.View()) && pd / PAGE_SIZE < FRAME_RANGE
      ensures ChangeDone(old(Mem()), Mem(), pmm.View(), dirs, pd / PAGE_SIZE, vaddr / PAGE_SIZE, vaddr % PAGE_SIZE == 0,
                         Reflagged(Lookup(old(Mem()), pd / PAGE_SIZE, vaddr / PAGE_SIZE), on, off), r)
      ensures UserPage(pd / PAGE_SIZE, vaddr / PAGE_SIZE) && r ==>
        SameBut(old(Mem()), Mem(), dirs, pd / PAGE_SIZE, vaddr / PAGE_SIZE)
      ensures DirsSame(old(Mem()), Mem(), dirs)
    {
      hide SpaceOk, Exclusive, IsTable, LowestFree, BitsOf, CountUsed, SameBut, SameMaps, Steady;
      ghost var mem, frames := Mem(), pmm.View();
      SpaceFacts(mem, dirs, kernelPd, frames, pd / PAGE_SIZE);
      var saved := Current();
      Switch(pd);
      r := UpdateFlags(vaddr, on, off);
      Switch(saved);
      if UserPage(pd / PAGE_SIZE, vaddr / PAGE_SIZE) {
        UserIsExclusive(mem, dirs, kernelPd, frames, pd / PAGE_SIZE, vaddr / PAGE_SIZE);
      }
    }

    /** paging_get_mapping_in_directory */
    method GetMappingIn(pd: nat, vaddr: Word) returns (r: bool, phys: nat, flags: Flags)
      requires Inv() && pd / PAGE_SIZE in dirs && vaddr / PAGE_SIZE < WINDOW_START
      modifies this`cr3, this`cachedPd
      ensures Inv() && cr3 == old(cr3) && pd / PAGE_SIZE < FRAME_RANGE
      ensures var e := Lookup(Mem(), pd / PAGE_SIZE, vaddr / PAGE_SIZE);
        && r == e.present
        && (r ==> phys == e.frame * PAGE_SIZE + vaddr % PAGE_SIZE && flags == Flags(true, e.writable, e.user, false, e.cow))
    {
      hide SpaceOk, Lookup;
      SpaceFacts(Mem(), dirs, kernelPd, pmm.View(), pd / PAGE_SIZE);
      var saved := Current();
      Switch(pd);
      r, phys, flags := GetMapping(vaddr);
      Switch(saved);
    }

    /** A kernel read of word `j` of page `v`: none when the page is not mapped. */
    method Load(v: nat, j: nat) returns (ok: bool, w: Word)
      requires ram.Length == FRAME_RANGE && Cur() < FRAME_RANGE && v < FRAME_RANGE && j < SLOTS
      ensures ok == Lookup(Mem(), Cur(), v).present
      ensures ok ==> w == Mem()[Lookup(Mem(), Cur(), v).frame][j]
    {
      hide Decode;
      w := 0;
      var pde := Decode(ram[cr3 / PAGE_SIZE][v / SLOTS]);
      if !pde.present {
        return false, w;
      }
      var pte := Decode(ram[pde.frame][v % SLOTS]);
      if !pte.present {
        return false, w;
      }
      return true, ram[pte.frame][j];
    }

    /** A kernel write of word `j` of page `v`. */
    method Store(v: nat, j: nat, w: Word) returns (ok: bool)
      requires ram.Length == FRAME_RANGE && Cur() < FRAME_RANGE && v < FRAME_RANGE && j < SLOTS
      modifies ram
      ensures ok == CanStore(old(Mem()), Cur(), v)
      ensures |old(Mem())| == FRAME_RANGE && Lookup(old(Mem()), Cur(), v).frame < FRAME_RANGE
      ensures Mem() == if ok then SetWord(old(Mem()), Lookup(old(Mem()), Cur(), v).frame, j, w) else old(Mem())
    {
      hide Decode;
      var pde := Decode(ram[cr3 / PAGE_SIZE][v / SLOTS]);
      if !pde.present || !pde.writable {
        return false;
      }
      var pte := Decode(ram[pde.frame][v % SLOTS]);
      if !pte.present || !pte.writable {
        return false;
      }
      ram[pte.frame] := ram[pte.frame][j := w];
      return true;
    }

    /** The clearing of paging_create_user_directory_phys, through page `f`. */
    method ClearPage(f: nat) returns (ok: bool, ghost n: nat)
      requires ram.Length == FRAME_RANGE && Cur() < FRAME_RANGE && f < FRAME_RANGE
      modifies ram
      ensures |old(Mem())| == FRAME_RANGE && Lookup(old(Mem()), Cur(), f).frame < FRAME_RANGE
      ensures ok ==> CanStore(old(Mem()), Cur(), f)
      ensures Aside(old(Mem()), Cur(), f, Lookup(old(Mem()), Cur(), f).frame) ==> ok == CanStore(old(Mem()), Cur(), f)
      ensures Cleared(old(Mem()), Mem(), Cur(), f, n) && (ok ==> n == SLOTS)
    {
      hide Lookup, CanStore, Zeroed, Aside;
      ghost var mem, d := Mem(), Cur();
      TargetInRange(mem, d, f);
      ghost var g := Lookup(mem, d, f).frame;
      ZeroedEnds(mem[g], mem[g]);
      for j := 0 to SLOTS
        invariant Mem() == mem[g := Zeroed(mem[g], j)]
        invariant j > 0 ==> CanStore(mem, d, f)
      {
        ZeroedLookup(mem, d, f, g, j);
        ZeroedMore(mem, g, j);
        if Aside(mem, d, f, g) {
          AsideStays(mem, d, f, g, Zeroed(mem[g], j));
        }
        TargetInRange(Mem(), d, f);
        ok := Store(f, j, 0);
        if !ok {
          return false, j;
        }
      }
      return true, SLOTS;
    }

    /** The copying of paging_create_user_directory_phys, from page `kernelPd` to page `f`. */
    method CopyKernelHalf(f: nat, ghost mem: seq<PageTables.Frame>) returns (ok: bool)
      requires ram.Length == FRAME_RANGE && Cur() < FRAME_RANGE && f < FRAME_RANGE && kernelPd < FRAME_RANGE && |mem| == FRAME_RANGE
      requires CanStore(mem, Cur(), f) && Lookup(mem, Cur(), f).frame < FRAME_RANGE
      requires Mem() == mem[Lookup(mem, Cur(), f).frame := ZeroFrame()]
      modifies ram
      ensures ok <==> Possible(mem, Cur(), kernelPd, f)
      ensures Lookup(mem, Cur(), kernelPd).frame < FRAME_RANGE
      ensures !ok ==> Mem() == old(Mem())
      ensures var g, k := Lookup(mem, Cur(), f).frame, Lookup(mem, Cur(), kernelPd).frame;
        ok ==> Mem() == mem[g := NewDirectory(Source(mem, k, g), f)]
    {
      hide Lookup, CanStore, Zeroed, Aside, Without, Half, Source, NewDirectory, Encode;
      ghost var d := Cur();
      TargetInRange(mem, d, kernelPd);
      ghost var g, k := Lookup(mem, d, f).frame, Lookup(mem, d, kernelPd).frame;
      ghost var src := Source(mem, k, g);
      ZeroedEnds(mem[g], src);
      ZeroedLookup(mem, d, f, g, SLOTS);
      ZeroedLookup(mem, d, kernelPd, g, SLOTS);
      for i := USER_SLOTS to RECURSIVE_SLOT
        invariant Mem() == mem[g := Half(src, i)]
        invariant i > USER_SLOTS ==> Possible(mem, d, kernelPd, f)
      {
        if Aside(mem, d, f, g) {
          AsideStays(mem, d, f, g, Half(src, i));
        }
        if Aside(mem, d, kernelPd, g) {
          AsideStays(mem, d, kernelPd, g, Half(src, i));
        }
        HalfMore(mem, k, g, i);
        var w;
        ok, w := Load(kernelPd, i);
        if !ok {
          return;
        }
        ok := Store(f, i, Without(w, USER));
        if !ok {
          return;
        }
      }
      AsideStays(mem, d, f, g, Half(src, RECURSIVE_SLOT));
      HalfEnds(src, f);
      ok := Store(f, RECURSIVE_SLOT, Encode(Entry(f, true, true, false, false)));
    }

    /** paging_create_user_directory_phys: the frame is filled through the pages of the current
        directory that have the physical addresses of the frame and of the kernel's directory. A page
        fault ends the call. */
    method CreateUserDirectory() returns (c: Creation)
      requires Inv()
      modifies ram, pmm`usedPages, pmm`firstFreeHint, pmm.bitmap, pmm.refcount, this`dirs
      ensures pmm.Valid() && cr3 == old(cr3) && pmm.View() == old(pmm.View()).Taken(old(pmm.View()).total)
      ensures |old(Mem())| == FRAME_RANGE && Cur() < FRAME_RANGE && kernelPd < FRAME_RANGE
      ensures c == NoFrame <==> !HasRoom(old(pmm.View()))
      ensures c == NoFrame ==> Inv() && dirs == old(dirs) && Mem() == old(Mem())
      ensures HasRoom(old(pmm.View())) ==>
        var f := LowestFree(old(pmm.View()).used, old(pmm.View()).total);
        && Attempted(old(Mem()), Mem(), Cur(), kernelPd, f, c)
        && Tables(old(Mem()), old(dirs)) && Fresh(old(Mem()), old(dirs), f)
        && (forall d :: d in old(dirs) ==> d < FRAME_RANGE)
        && (GoesThrough(old(Mem()), Cur(), kernelPd, f) ==>
              && Inv() && c == Created(f * PAGE_SIZE) && dirs == old(dirs) + {f} && f !in old(dirs)
              && SameMaps(old(Mem()), Mem(), old(dirs))
              && (forall v: nat :: v < USER_SLOTS * SLOTS ==> Lookup(Mem(), f, v) == NO_ENTRY)
              && (forall v: nat :: USER_SLOTS * SLOTS <= v < WINDOW_START ==>
                    Lookup(Mem(), f, v) == Lookup(old(Mem()), kernelPd, v))
              && (forall v: nat, store: bool :: v < FRAME_RANGE ==> !UserCan(Mem(), f, v, store)))
        && (!GoesThrough(old(Mem()), Cur(), kernelPd, f) ==>
              && dirs == old(dirs)
              && (!CanStore(old(Mem()), Cur(), f) || !IsTable(old(Mem()), dirs, Lookup(old(Mem()), Cur(), f).frame) ==>
                    Inv() && SameMaps(old(Mem()), Mem(), dirs)))
    {
      hide SpaceOk, Decode, Encode, IsTable, Exclusive, LowestFree, BitsOf, CountUsed, SameMaps, Lookup, Without,
           CanStore, Aside, Zeroed, NewDirectory, Attempted, Fresh, GoesThrough, Tables;
      ghost var mem, frames := Mem(), pmm.View();
      SpaceFacts(mem, dirs, kernelPd, frames, Cur());
      SpaceFacts(mem, dirs, kernelPd, frames, kernelPd);
      var phys := AllocTableFrame();
      if phys == 0 {
        FullStays(frames);
        return NoFrame;
      }
      var f := phys / PAGE_SIZE;
      SpaceFresh(mem, dirs, kernelPd, frames);
      var ok;
      ghost var n;
      ok, n := ClearPage(f);
      ghost var mem1 := Mem();
      ClearedAll(mem, mem1, Cur(), f, n);
      c := Fault;
      if ok {
        ok := CopyKernelHalf(f, mem);
        if ok {
          c := Created(phys);
        }
      }
      TargetInRange(mem, Cur(), kernelPd);
      AttemptEnds(mem, mem1, Mem(), Cur(), kernelPd, f, n, c);
      if GoesThrough(mem, Cur(), kernelPd, f) {
        DirectoryMade(mem, dirs, kernelPd, frames);
        MadeThrough(mem, Mem(), dirs, Cur(), kernelPd, f, c);
        dirs := dirs + {f};
      } else {
        StraySettles(mem, Mem(), dirs, kernelPd, frames, Cur(), f, c);
      }
    }

    /** paging_temp_map: the scratch page at 0xFFBFF000 pointed at a frame, whatever it held before. */
    method TempMap(phys: Word) returns (ok: bool)
      requires Inv()
      modifies ram, pmm`usedPages, pmm`firstFreeHint, pmm.bitmap, pmm.refcount
      ensures Inv()
      ensures TempDone(old(Mem()), old(pmm.View()), Mem(), pmm.View(), dirs, Cur(), phys, ok)
      ensures SlotsKnown(old(Mem()), Mem()) && SlotsOpened(old(Mem()), Mem(), dirs, Cur(), SCRATCH_PAGE / SLOTS, false)
    {
      hide SpaceOk, SlotsOpened, Walked, TempDone, Decode, Encode, IsTable, Exclusive, LowestFree, BitsOf, CountUsed;
      ghost var mem, frames := Mem(), pmm.View();
      SpaceFacts(mem, dirs, kernelPd, frames, Cur());
      if phys % PAGE_SIZE != 0 || !Has(ram[cr3 / PAGE_SIZE][RECURSIVE_SLOT], PRESENT) {
        TempUnaligned(mem, dirs, kernelPd, frames, Cur(), phys);
        SpaceSlots(mem, dirs, kernelPd, frames, Cur(), SCRATCH_PAGE / SLOTS);
        return false;
      }
      var table;
      ok, table := Walk(SCRATCH_PAGE, true, false);
      ghost var mem1, frames1 := Mem(), pmm.View();
      LookupWalks(mem, frames, mem1, frames1, dirs, Cur(), SCRATCH_PAGE, table, true, ok);
      if !ok {
        TempFull(mem, frames, mem1, frames1, dirs, Cur(), phys, table);
        return;
      }
      ram[table] := ram[table][SCRATCH_PAGE % SLOTS := Encode(Entry(phys / PAGE_SIZE, true, true, false, false))];
      assert ram[..] == SetWord(mem1, table, SCRATCH_PAGE % SLOTS, Encode(Entry(phys / PAGE_SIZE, true, true, false, false)));
      TempWritten(mem, frames, mem1, frames1, Mem(), dirs, kernelPd, Cur(), table, phys);
      TableNoDir(mem1, dirs, Cur(), SCRATCH_PAGE / SLOTS, table);
      SlotsAfterEntry(mem, mem1, dirs, Cur(), SCRATCH_PAGE / SLOTS, false, table, SCRATCH_PAGE % SLOTS,
                      Encode(Entry(phys / PAGE_SIZE, true, true, false, false)));
    }
  }

  const BOOT_TABLES: nat := 16
  const BOOT_PAGES: nat := 0x4000   // 64 MiB

  /** Table `i` of the boot identity map. */
  function IdentityTable(i: nat): (t: PageTables.Frame)
    requires i < BOOT_TABLES
  {
    IdentityWords(i * SLOTS, SLOTS)
  }

  function IdentityWords(base: nat, n: nat): (r: seq<Word>)
    requires base + n <= FRAME_RANGE
    ensures |r| == n && forall p :: 0 <= p < n ==> r[p] == IdentityWord(base + p)
  {
    if n == 0 then [] else IdentityWords(base, n - 1) + [IdentityWord(base + n - 1)]
  }

  function IdentityWord(v: nat): Word
    requires v < FRAME_RANGE
  {
    Encode(Entry(v, true, true, false, false))
  }

  /** The kernel directory after `n` rounds of the loop of paging_init, with tables `pts`. */
  function BootSlot(pts: seq<nat>, j: nat): Word
    requires |pts| <= BOOT_TABLES && forall k :: 0 <= k < |pts| ==> pts[k] < FRAME_RANGE
  {
    if j < |pts| then Encode(Entry(pts[j], true, true, false, false))
    else if USER_SLOTS <= j < USER_SLOTS + |pts| then Encode(Entry(pts[j - USER_SLOTS], true, true, false, false))
    else 0
  }

  /** What the loop of paging_init has laid out so far. */
  ghost predicate Booted(mem: seq<PageTables.Frame>, used: seq<bool>, pd: nat, pts: seq<nat>) {
    && |mem| == |used| == FRAME_RANGE && pd < FRAME_RANGE && used[pd] && |pts| <= BOOT_TABLES
    && (forall k :: 0 <= k < |pts| ==> pts[k] < FRAME_RANGE && used[pts[k]] && pts[k] != pd && mem[pts[k]] == IdentityTable(k))
    && (forall j :: 0 <= j < SLOTS ==> mem[pd][j] == BootSlot(pts, j))
  }

  /** One more boot table, in a frame that was free. */
  lemma BootedMore(mem0: seq<PageTables.Frame>, mem1: seq<PageTables.Frame>, used0: seq<bool>, used1: seq<bool>, pd: nat,
                   pts: seq<nat>, f: nat)
    requires Booted(mem0, used0, pd, pts) && |pts| < BOOT_TABLES && f < FRAME_RANGE && !used0[f] && used1 == used0[f := true]
    requires var w := Encode(Entry(f, true, true, false, false));
      mem1 == mem0[f := IdentityTable(|pts|)][pd := mem0[pd][|pts| := w][USER_SLOTS + |pts| := w]]
    ensures Booted(mem1, used1, pd, pts + [f])
  {
    hide IdentityTable, Encode;
  }

  /** The kernel directory with its last slot in place. */
  function Closed(mem: seq<PageTables.Frame>, pd: nat): (r: seq<PageTables.Frame>)
    requires |mem| == FRAME_RANGE && pd < FRAME_RANGE
    ensures |r| == FRAME_RANGE
  {
    SetWord(mem, pd, RECURSIVE_SLOT, Encode(Entry(pd, true, true, false, false)))
  }

  /** What slot `j` of the finished boot directory holds. */
  function BootEntry(pts: seq<nat>, pd: nat, j: nat): Entry
    requires |pts| == BOOT_TABLES
  {
    if j < BOOT_TABLES then Entry(pts[j], true, true, false, false)
    else if USER_SLOTS <= j < USER_SLOTS + BOOT_TABLES then Entry(pts[j - USER_SLOTS], true, true, false, false)
    else if j == RECURSIVE_SLOT then Entry(pd, true, true, false, false)
    else NO_ENTRY
  }

  lemma BootEntries(mem: seq<PageTables.Frame>, used: seq<bool>, pd: nat, pts: seq<nat>)
    requires Booted(mem, used, pd, pts) && |pts| == BOOT_TABLES
    ensures forall j :: 0 <= j < SLOTS ==> EntryAt(Closed(mem, pd), pd, j) == BootEntry(pts, pd, j)
  {
    hide IdentityTable, Encode, Decode;
    DecodeEncode(Entry(pd, true, true, false, false));
    forall j | 0 <= j < SLOTS ensures EntryAt(Closed(mem, pd), pd, j) == BootEntry(pts, pd, j) {
      if j != RECURSIVE_SLOT {
        BootSlotDecodes(pts, j);
        assert Closed(mem, pd)[pd][j] == mem[pd][j] == BootSlot(pts, j);
      }
    }
  }

  /** The finished boot directory: recursive, its tables in frames in use, the same table in slots i
      and 768 + i. */
  lemma BootTables(mem: seq<PageTables.Frame>, used: seq<bool>, pd: nat, pts: seq<nat>)
    requires Booted(mem, used, pd, pts) && |pts| == BOOT_TABLES
    ensures Tables(Closed(mem, pd), {pd})
    ensures forall f: nat :: IsTable(Closed(mem, pd), {pd}, f) ==> f < FRAME_RANGE && used[f]
    ensures forall i: nat :: i < BOOT_TABLES ==> !Exclusive(Closed(mem, pd), {pd}, pd, i)
    ensures HighAligned(Closed(mem, pd), {pd})
  {
    hide IdentityTable, Encode, Decode, Closed;
    var mem1 := Closed(mem, pd);
    BootEntries(mem, used, pd, pts);
    assert Tables(mem1, {pd});
    forall i: nat | i < BOOT_TABLES ensures !Exclusive(mem1, {pd}, pd, i) {
      assert NamesTable(mem1, {pd}, pd, USER_SLOTS + i, EntryAt(mem1, pd, i).frame);
    }
  }

  /** The mapping of page `v` in the boot directory: the first 64 MiB at 0 and again at 0xC0000000. */
  function BootLookup(v: nat): Entry {
    if v < BOOT_PAGES then Entry(v, true, true, false, false)
    else if USER_SLOTS * SLOTS <= v < USER_SLOTS * SLOTS + BOOT_PAGES then Entry(v - USER_SLOTS * SLOTS, true, true, false, false)
    else NO_ENTRY
  }

  /** Below the recursive window, directory `pd` maps what the boot directory maps and nothing else. */
  ghost predicate BootMap(mem: seq<PageTables.Frame>, pd: nat)
    requires |mem| == FRAME_RANGE && pd < FRAME_RANGE
  {
    forall v: nat :: v < WINDOW_START ==> Lookup(mem, pd, v) == BootLookup(v)
  }

  lemma BootMaps(mem: seq<PageTables.Frame>, used: seq<bool>, pd: nat, pts: seq<nat>, v: nat)
    requires Booted(mem, used, pd, pts) && |pts| == BOOT_TABLES && v < WINDOW_START
    ensures Lookup(Closed(mem, pd), pd, v) == BootLookup(v)
  {
    hide IdentityTable, Encode, Decode;
    BootEntries(mem, used, pd, pts);
    var i, p := v / SLOTS, v % SLOTS;
    var t := if i < BOOT_TABLES then i else i - USER_SLOTS;
    if 0 <= t < BOOT_TABLES {
      IdentityDecodes(t, p);
      assert Closed(mem, pd)[pts[t]] == mem[pts[t]] == IdentityTable(t);
    }
  }

  /** In the boot directory the creation of a user directory goes through exactly for frames below
      64 MiB. */
  lemma BootCreates(mem: seq<PageTables.Frame>, dirs: set<nat>, pd: nat, f: nat)
    requires Tables(mem, dirs) && pd in dirs && pd < BOOT_PAGES && BootMap(mem, pd) && Fresh(mem, dirs, f)
    ensures GoesThrough(mem, pd, pd, f) <==> f < BOOT_PAGES
  {
    hide Decode, Lookup, CanStore;
    StoresWhereWritable(mem, dirs, pd, f);
    if WINDOW_START <= f {
      WindowShowsTables(mem, dirs, pd, f);
    }
  }

  /** Pages of the recursive window show tables and directories, never a fresh frame. */
  lemma WindowShowsTables(mem: seq<PageTables.Frame>, dirs: set<nat>, d: nat, f: nat)
    requires Tables(mem, dirs) && d in dirs && Fresh(mem, dirs, f) && WINDOW_START <= f
    ensures !(Lookup(mem, d, f).present && Lookup(mem, d, f).frame == f)
  {
    hide Decode;
    var i := f - WINDOW_START;
    assert f / SLOTS == RECURSIVE_SLOT && f % SLOTS == i;
    if EntryAt(mem, d, i).present && i < RECURSIVE_SLOT {
      assert NamesTable(mem, dirs, d, i, EntryAt(mem, d, i).frame);
    }
  }

  /** With every frame below 64 MiB in use, the frame at 64 MiB is taken instead, and creation from the
      boot directory faults: that frame has no page there. */
  lemma LowMemoryExhausted(mem: seq<PageTables.Frame>, mem1: seq<PageTables.Frame>, pd: nat, c: Creation)
    requires |mem| == FRAME_RANGE && pd < BOOT_PAGES && BootMap(mem, pd)
    requires Attempted(mem, mem1, pd, pd, BOOT_PAGES, c)
    ensures c == Fault && mem1 == mem
  {
    hide Decode, Lookup, CanStore, Attempted;
    UnmappedFaults(mem, mem1, pd, pd, BOOT_PAGES, c);
  }

  lemma BootSlotDecodes(pts: seq<nat>, j: nat)
    requires |pts| == BOOT_TABLES && (forall k :: 0 <= k < |pts| ==> pts[k] < FRAME_RANGE) && j < SLOTS
    ensures Decode(BootSlot(pts, j)) ==
      if j < BOOT_TABLES then Entry(pts[j], true, true, false, false)
      else if USER_SLOTS <= j < USER_SLOTS + BOOT_TABLES then Entry(pts[j - USER_SLOTS], true, true, false, false)
      else NO_ENTRY
  {
    hide Encode, Decode;
    ZeroFrameIsNone();
    if j < BOOT_TABLES {
      DecodeEncode(Entry(pts[j], true, true, false, false));
    } else if USER_SLOTS <= j < USER_SLOTS + BOOT_TABLES {
      DecodeEncode(Entry(pts[j - USER_SLOTS], true, true, false, false));
    }
  }

  lemma ZeroFrameIsNone()
    ensures Decode(0) == NO_ENTRY
  {
  }

  lemma IdentityDecodes(i: nat, p: nat)
    requires i < BOOT_TABLES && p < SLOTS
    ensures Decode(IdentityTable(i)[p]) == Entry(i * SLOTS + p, true, true, false, false)
  {
    DecodeEncode(Entry(i * SLOTS + p, true, true, false, false));
  }

  /** The page-filling loop of paging_init. */
  method FillIdentity(ram: array<PageTables.Frame>, f: nat, i: nat)
    requires f < ram.Length && i < BOOT_TABLES
    modifies ram
    ensures ram[..] == old(ram[..])[f := IdentityTable(i)]
  {
    hide Encode;
    for p := 0 to SLOTS
      invariant forall g :: 0 <= g < ram.Length && g != f ==> ram[g] == old(ram[g])
      invariant forall q :: 0 <= q < p ==> ram[f][q] == IdentityTable(i)[q]
    {
      ram[f] := ram[f][p := IdentityWord(i * SLOTS + p)];
    }
    assert ram[f] == IdentityTable(i);
  }

  /** paging_init up to the switch to the new directory: none when a table cannot be allocated below
      64 MiB (the kernel halts there). */
  method Boot(pmm: FrameAllocator, ram: array<PageTables.Frame>) returns (a: AddressSpaces?)
    requires pmm.Valid() && ram.Length == FRAME_RANGE
    requires 0 < pmm.totalPages && pmm.Used()[0] && pmm.refcount[0] == 0
    modifies pmm`usedPages, pmm`firstFreeHint, pmm.bitmap, pmm.refcount, ram
    ensures pmm.Valid()
    ensures a != null ==>
      && fresh(a) && a.Inv() && a.pmm == pmm && a.ram == ram && a.dirs == {a.kernelPd} && a.Cur() == a.kernelPd
      && a.kernelPd < BOOT_PAGES && BootMap(ram[..], a.kernelPd)
  {
    hide Tables, Lookup, IdentityTable, Encode, BootSlot, LowestFree, BitsOf, Booted, Exclusive, IsTable,
         CountUsed, HighAligned;
    a := null;
    var pdPhys := pmm.AllocPageBelow(IDENTITY_LIMIT);
    if pdPhys == 0 {
      return;
    }
    var pd := pdPhys / PAGE_SIZE;
    ram[pd] := ZeroFrame();
    ghost var pts: seq<nat> := [];
    BootStart(ram[..], pmm.Used(), pd);
    for i := 0 to BOOT_TABLES
      invariant pmm.Valid() && Booted(ram[..], pmm.Used(), pd, pts) && |pts| == i
      invariant 0 < pmm.totalPages && pmm.Used()[0] && pmm.refcount[0] == 0
    {
      ghost var mem0, used0 := ram[..], pmm.Used();
      var ptPhys := pmm.AllocPageBelow(IDENTITY_LIMIT);
      if ptPhys == 0 {
        return;
      }
      var f := ptPhys / PAGE_SIZE;
      BootedFacts(mem0, used0, pd, pts);
      assert f != pd;
      FillIdentity(ram, f, i);
      ram[pd] := ram[pd][i := Encode(Entry(f, true, true, false, false))];
      ram[pd] := ram[pd][USER_SLOTS + i := Encode(Entry(f, true, true, false, false))];
      BootedMore(mem0, ram[..], used0, pmm.Used(), pd, pts, f);
      pts := pts + [f];
    }
    ghost var mem := ram[..];
    BootedFacts(mem, pmm.Used(), pd, pts);
    BootTables(mem, pmm.Used(), pd, pts);
    forall v: nat | v < WINDOW_START ensures Lookup(Closed(mem, pd), pd, v) == BootLookup(v) {
      BootMaps(mem, pmm.Used(), pd, pts, v);
    }
    ram[pd] := ram[pd][RECURSIVE_SLOT := Encode(Entry(pd, true, true, false, false))];
    assert ram[..] == Closed(mem, pd);
    a := new AddressSpaces(pmm, ram, pd);
  }

  lemma BootedFacts(mem: seq<PageTables.Frame>, used: seq<bool>, pd: nat, pts: seq<nat>)
    requires Booted(mem, used, pd, pts)
    ensures |used| == FRAME_RANGE && pd < FRAME_RANGE && used[pd] && |pts| <= BOOT_TABLES
  {
  }

  lemma BootStart(mem: seq<PageTables.Frame>, used: seq<bool>, pd: nat)
    requires |mem| == |used| == FRAME_RANGE && pd < FRAME_RANGE && used[pd] && mem[pd] == ZeroFrame()
    ensures Booted(mem, used, pd, [])
  {
  }
}