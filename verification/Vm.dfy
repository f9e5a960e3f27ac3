/** mm/vm.c: the copy-on-write fault and the lazily backed kernel heap. */
module Vm {
  import opened PageEntry
  import opened PageTables
  import opened Pmm
  import opened Paging

  type Memory = seq<PageTables.Frame>

  /** A frame in use that is no table. */
  ghost predicate DataFrame(mem: Memory, dirs: set<nat>, frames: Frames, f: nat) {
    Tables(mem, dirs) && frames.Sound() && f < FRAME_RANGE && frames.used[f] && !IsTable(mem, dirs, f)
  }

  lemma FramesTaken(mem: Memory, dirs: set<nat>, kernel: nat, frames: Frames)
    requires SpaceOk(mem, dirs, kernel, frames) && HasRoom(frames)
    ensures var copy := LowestFree(frames.used, frames.total);
      SpaceOk(mem, dirs, kernel, frames.Taken(frames.total)) && DataFrame(mem, dirs, frames.Taken(frames.total), copy) && !frames.used[copy]
  {
    hide Tables, UserOwned, HighAligned, IsTable, Decode;
    SpaceFacts2(mem, dirs, kernel, frames);
    FreeIsFresh(mem, dirs, frames);
  }

  lemma DataDropped(mem: Memory, dirs: set<nat>, kernel: nat, frames: Frames, f: nat)
    requires SpaceOk(mem, dirs, kernel, frames) && !IsTable(mem, dirs, f)
    ensures SpaceOk(mem, dirs, kernel, frames.Dropped(f))
  {
    hide Tables, UserOwned, HighAligned, IsTable, Decode;
    SpaceFacts2(mem, dirs, kernel, frames);
  }

  /** Away from the scratch page, no translation of any directory differs but that of page `v` in `d`. */
  ghost predicate SameElsewhere(mem0: Memory, mem1: Memory, dirs: set<nat>, d: nat, v: nat)
    requires |mem0| == |mem1| == FRAME_RANGE && forall x :: x in dirs ==> x < FRAME_RANGE
  {
    forall x: nat, y: nat :: x in dirs && y < WINDOW_START && y != SCRATCH_PAGE && !(x == d && y == v) ==>
      Lookup(mem1, x, y) == Lookup(mem0, x, y)
  }

  /** The frames after the page and, if need be, the scratch table were allocated. */
  ghost function CowFrames(mem: Memory, frames: Frames, d: nat): (r: Frames)
    requires |mem| == FRAME_RANGE && d < FRAME_RANGE && frames.Sound()
    ensures r.Sound() && r.total == frames.total
  {
    var one := frames.Taken(frames.total);
    if EntryAt(mem, d, SCRATCH_PAGE / SLOTS).present then one else one.Taken(one.total)
  }

  /** What a copy-on-write fault does to the frames: the copy is taken, with one reference, and a table
      for the scratch page if it had none; the old frame loses one reference, and is free if that was its
      last; every other frame is as before, and the number in use moves accordingly. */
  lemma CowBalance(mem: Memory, frames: Frames, d: nat, shared: nat)
    requires |mem| == FRAME_RANGE && d < FRAME_RANGE && frames.Sound() && CowRoom(mem, frames, d)
    requires shared < frames.total && frames.used[shared] && frames.refs[shared] > 0
    ensures var copy, r := LowestFree(frames.used, frames.total), CowFrames(mem, frames, d).Dropped(shared);
      var table := if EntryAt(mem, d, SCRATCH_PAGE / SLOTS).present then copy else LowestFree(frames.used[copy := true], frames.total);
      && copy < frames.total && copy != shared && table < frames.total && table != shared && !frames.used[table]
      && r.used[copy] && r.refs[copy] == 1 && r.used[table] && r.refs[table] == 1
      && r.refs[shared] == frames.refs[shared] - 1 && (r.used[shared] <==> frames.refs[shared] > 1)
      && (forall f :: 0 <= f < FRAME_RANGE && f != copy && f != table && f != shared ==>
            r.used[f] == frames.used[f] && r.refs[f] == frames.refs[f])
      && CountUsed(r.used, r.total) == CountUsed(frames.used, frames.total)
         + (if table == copy then 1 else 2) - (if frames.refs[shared] == 1 then 1 else 0)
  {
    hide CountUsed, LowestFree, Decode;
    var copy := LowestFree(frames.used, frames.total);
    var table := LowestFree(frames.used[copy := true], frames.total);
    var one := frames.used[copy := true];
    CountAfter(frames.used, frames.total, copy, true);
    var two := if EntryAt(mem, d, SCRATCH_PAGE / SLOTS).present then one else one[table := true];
    if !EntryAt(mem, d, SCRATCH_PAGE / SLOTS).present {
      CountAfter(one, frames.total, table, true);
    }
    CountAfter(two, frames.total, shared, false);
  }

  /** Whether a copy-on-write fault finds the frames it needs. */
  ghost predicate CowRoom(mem: Memory, frames: Frames, d: nat)
    requires |mem| == FRAME_RANGE && d < FRAME_RANGE && frames.Sound()
  {
    HasRoom(frames) && (EntryAt(mem, d, SCRATCH_PAGE / SLOTS).present || HasRoom(frames.Taken(frames.total)))
  }

  /** What a copy-on-write fault on page `v` of directory `d` comes to. */
  ghost predicate CowDone(mem0: Memory, frames0: Frames, mem1: Memory, frames1: Frames, dirs: set<nat>, d: nat, v: nat, r: bool)
    requires Tables(mem0, dirs) && |mem1| == FRAME_RANGE && frames0.Sound() && d in dirs && v < WINDOW_START
  {
    var e, copy := Lookup(mem0, d, v), LowestFree(frames0.used, frames0.total);
    && r == (e.present && e.cow && CowRoom(mem0, frames0, d))
    && (r ==>
          && copy < FRAME_RANGE && copy != e.frame && !frames0.used[copy]
          && Lookup(mem1, d, v) == Entry(copy, true, true, e.user, false)
          && mem1[copy] == mem0[e.frame]
          && frames1 == CowFrames(mem0, frames0, d).Dropped(e.frame)
          && (Exclusive(mem0, dirs, d, v / SLOTS) ==> SameElsewhere(mem0, mem1, dirs, d, v)))
    && (!r ==> frames1 == frames0 && SameMaps(mem0, mem1, dirs))
  }

  /** The copy made, the page itself still mapped to the old frame. */
  ghost predicate Copied(mem0: Memory, frames0: Frames, mem1: Memory, frames1: Frames, dirs: set<nat>, d: nat, v: nat,
                         shared: nat, copy: nat)
    requires Tables(mem0, dirs) && |mem1| == FRAME_RANGE && frames0.Sound() && d in dirs && v < WINDOW_START
  {
    && Tables(mem1, dirs) && SameButPage(mem0, mem1, dirs, SCRATCH_PAGE)
    && CowRoom(mem0, frames0, d) && frames1 == CowFrames(mem0, frames0, d)
    && copy == LowestFree(frames0.used, frames0.total) && !frames0.used[copy] && shared < FRAME_RANGE && copy != shared
    && mem1[copy] == mem0[shared]
    && DataFrame(mem1, dirs, frames1, copy) && DataFrame(mem1, dirs, frames1, shared)
    && EntryAt(mem1, d, v / SLOTS).present
    && (Exclusive(mem0, dirs, d, v / SLOTS) ==> Exclusive(mem1, dirs, d, v / SLOTS))
  }

  /** A page mapped to frame `shared`, which is a counted data frame. */
  ghost predicate MappedData(mem: Memory, frames: Frames, dirs: set<nat>, d: nat, v: nat, shared: nat) {
    && DataFrame(mem, dirs, frames, shared) && d in dirs && v < WINDOW_START && v != SCRATCH_PAGE
    && Lookup(mem, d, v).present && Lookup(mem, d, v).frame == shared
  }

  lemma CopyMade(mem0: Memory, frames0: Frames, mem1: Memory, frames1: Frames, mem2: Memory, dirs: set<nat>, kernel: nat,
                 d: nat, v: nat, shared: nat, copy: nat)
    requires SpaceOk(mem0, dirs, kernel, frames0) && MappedData(mem0, frames0, dirs, d, v, shared)
    requires HasRoom(frames0) && copy == LowestFree(frames0.used, frames0.total)
    requires TempDone(mem0, frames0.Taken(frames0.total), mem1, frames1, dirs, d, copy * PAGE_SIZE, true)
    requires SpaceOk(mem1, dirs, kernel, frames1) && |mem1| == FRAME_RANGE && mem2 == mem1[copy := mem1[shared]]
    ensures SpaceOk(mem2, dirs, kernel, frames1)
    ensures |mem0| == FRAME_RANGE && frames0.Sound() && d < FRAME_RANGE && CowRoom(mem0, frames0, d)
    ensures Copied(mem0, frames0, mem2, frames1, dirs, d, v, shared, copy)
  {
    hide SpaceOk, UserOwned, HighAligned, IsTable, Decode, Exclusive, SameMaps;
    FramesTaken(mem0, dirs, kernel, frames0);
    SpaceFacts2(mem0, dirs, kernel, frames0);
    SpaceFacts2(mem1, dirs, kernel, frames1);
    assert (copy * PAGE_SIZE) / PAGE_SIZE == copy && (copy * PAGE_SIZE) % PAGE_SIZE == 0;
    DataWritten(mem1, dirs, kernel, frames1, copy, mem1[shared]);
    PageThenSame(mem0, mem1, mem2, dirs, SCRATCH_PAGE);
  }

  lemma PageThenSame(mem0: Memory, mem1: Memory, mem2: Memory, dirs: set<nat>, v: nat)
    requires |mem0| == |mem1| == |mem2| == FRAME_RANGE && forall x :: x in dirs ==> x < FRAME_RANGE
    requires SameButPage(mem0, mem1, dirs, v) && SameMaps(mem1, mem2, dirs)
    ensures SameButPage(mem0, mem2, dirs, v)
  {
  }

  /** A failed scratch mapping, with the frame given back, leaves everything as it was. */
  lemma CopyFailed(mem0: Memory, frames0: Frames, mem1: Memory, frames1: Frames, dirs: set<nat>, kernel: nat, d: nat, copy: nat)
    requires SpaceOk(mem0, dirs, kernel, frames0) && HasRoom(frames0) && copy == LowestFree(frames0.used, frames0.total)
    requires d in dirs && d < FRAME_RANGE
    requires TempDone(mem0, frames0.Taken(frames0.total), mem1, frames1, dirs, d, copy * PAGE_SIZE, false)
    ensures frames1.Sound() && frames1.Dropped(copy) == frames0 && |mem0| == |mem1| == FRAME_RANGE
    ensures (forall x :: x in dirs ==> x < FRAME_RANGE) && SameMaps(mem0, mem1, dirs)
    ensures |mem0| == FRAME_RANGE && frames0.Sound() && !CowRoom(mem0, frames0, d)
  {
    hide UserOwned, HighAligned, IsTable, Decode, Exclusive, SameMaps;
    SpaceFacts2(mem0, dirs, kernel, frames0);
    assert (copy * PAGE_SIZE) / PAGE_SIZE == copy && (copy * PAGE_SIZE) % PAGE_SIZE == 0;
    TakeThenDrop(frames0, frames0.total);
    FullStays(frames0.Taken(frames0.total));
  }

  /** Unmapping, dropping the old reference and mapping the copy: none of it can fail. */
  lemma Swapped(mem0: Memory, frames0: Frames, mem1: Memory, frames1: Frames, mem2: Memory, mem3: Memory, frames3: Frames,
                dirs: set<nat>, d: nat, v: nat, shared: nat, copy: nat, unmapped: bool, mapped: bool)
    requires MappedData(mem0, frames0, dirs, d, v, shared) && Lookup(mem0, d, v).cow && |mem1| == FRAME_RANGE
    requires Copied(mem0, frames0, mem1, frames1, dirs, d, v, shared, copy)
    requires ChangeDone(mem1, mem2, frames1, dirs, d, v, true, NO_ENTRY, unmapped)
    requires MapDone(mem2, frames1.Dropped(shared), mem3, frames3, dirs, d, v, true, Entry(copy, true, true, Lookup(mem0, d, v).user, false), mapped)
    ensures |mem3| == FRAME_RANGE && mapped && CowDone(mem0, frames0, mem3, frames3, dirs, d, v, true)
    ensures frames1.Sound() && frames3 == frames1.Dropped(shared)
  {
    hide IsTable, Decode, Exclusive, Tables, NamesTable;
    TablesBound(mem0, dirs);
    TablesBound(mem1, dirs);
    SwappedFrames(mem1, frames1, mem2, mem3, frames3, dirs, d, v, shared, copy, unmapped, mapped,
                  Entry(copy, true, true, Lookup(mem0, d, v).user, false));
    if Exclusive(mem0, dirs, d, v / SLOTS) {
      SwappedElsewhere(mem0, mem1, mem2, mem3, dirs, d, v);
    }
  }

  lemma TablesBound(mem: Memory, dirs: set<nat>)
    requires Tables(mem, dirs)
    ensures |mem| == FRAME_RANGE && forall x :: x in dirs ==> x < FRAME_RANGE
  {
  }

  lemma SwappedElsewhere(mem0: Memory, mem1: Memory, mem2: Memory, mem3: Memory, dirs: set<nat>, d: nat, v: nat)
    requires |mem0| == |mem1| == |mem2| == |mem3| == FRAME_RANGE && forall x :: x in dirs ==> x < FRAME_RANGE
    requires SameButPage(mem0, mem1, dirs, SCRATCH_PAGE) && SameBut(mem1, mem2, dirs, d, v) && SameBut(mem2, mem3, dirs, d, v)
    ensures SameElsewhere(mem0, mem3, dirs, d, v)
  {
    hide Lookup;
  }

  lemma SwappedFrames(mem1: Memory, frames1: Frames, mem2: Memory, mem3: Memory, frames3: Frames,
                      dirs: set<nat>, d: nat, v: nat, shared: nat, copy: nat, unmapped: bool, mapped: bool, e: Entry)
    requires DataFrame(mem1, dirs, frames1, copy) && DataFrame(mem1, dirs, frames1, shared) && copy != shared
    requires d in dirs && d < FRAME_RANGE && v < WINDOW_START && Lookup(mem1, d, v).present
    requires ChangeDone(mem1, mem2, frames1, dirs, d, v, true, NO_ENTRY, unmapped)
    requires MapDone(mem2, frames1.Dropped(shared), mem3, frames3, dirs, d, v, true, e, mapped)
    ensures unmapped && mapped && Lookup(mem3, d, v) == e && |mem2| == |mem3| == FRAME_RANGE
    ensures mem3[copy] == mem1[copy] && frames3 == frames1.Dropped(shared)
    ensures Exclusive(mem1, dirs, d, v / SLOTS) ==> SameBut(mem1, mem2, dirs, d, v) && SameBut(mem2, mem3, dirs, d, v)
  {
    hide IsTable, Decode, Exclusive;
  }

  class FaultHandler {
    const spaces: AddressSpaces

    constructor (spaces: AddressSpaces)
      ensures this.spaces == spaces
    {
      this.spaces := spaces;
    }

    /** The copying loop of vm_handle_cow_fault, word by word, through the scratch page. */
    method CopyPage(to: nat, from: nat)
      requires to < spaces.ram.Length && from < spaces.ram.Length && to != from
      modifies spaces.ram
      ensures spaces.ram[..] == old(spaces.ram[..])[to := old(spaces.ram[from])]
    {
      for i := 0 to SLOTS
        invariant forall g :: 0 <= g < spaces.ram.Length && g != to ==> spaces.ram[g] == old(spaces.ram[g])
        invariant forall j :: 0 <= j < i ==> spaces.ram[to][j] == old(spaces.ram[from])[j]
      {
        spaces.ram[to] := spaces.ram[to][i := spaces.ram[from][i]];
      }
      assert spaces.ram[to] == old(spaces.ram[from]);
    }

    /** The first half of vm_handle_cow_fault: a new frame with the page's bytes. */
    method MakeCopy(shared: nat, ghost v: nat) returns (ok: bool, phys: nat)
      requires spaces.Inv() && MappedData(spaces.Mem(), spaces.pmm.View(), spaces.dirs, spaces.Cur(), v, shared)
      modifies spaces.ram, spaces.pmm`usedPages, spaces.pmm`firstFreeHint, spaces.pmm.bitmap, spaces.pmm.refcount
      ensures spaces.Inv() && Tables(old(spaces.Mem()), spaces.dirs) && |old(spaces.Mem())| == FRAME_RANGE && spaces.Cur() in spaces.dirs
      ensures ok == CowRoom(old(spaces.Mem()), old(spaces.pmm.View()), spaces.Cur())
      ensures ok ==> phys < FRAME_RANGE * PAGE_SIZE && phys % PAGE_SIZE == 0
      ensures ok ==>
        Copied(old(spaces.Mem()), old(spaces.pmm.View()), spaces.Mem(), spaces.pmm.View(), spaces.dirs, spaces.Cur(), v, shared, phys / PAGE_SIZE)
      ensures !ok ==> spaces.pmm.View() == old(spaces.pmm.View()) && SameMaps(old(spaces.Mem()), spaces.Mem(), spaces.dirs)
      ensures DataStays(old(spaces.Mem()), old(spaces.pmm.View()), spaces.Mem(), spaces.pmm.View(), spaces.dirs)
    {
      hide SpaceOk, UserOwned, HighAligned, IsTable, Decode, Exclusive, SameMaps, Tables, LowestFree, BitsOf,
           CountUsed, Copied, TempDone, DataFrame, DataStays;
      ghost var mem, frames := spaces.Mem(), spaces.pmm.View();
      ghost var dirs, kernel, d := spaces.dirs, spaces.kernelPd, spaces.Cur();
      SpaceFacts(mem, dirs, kernel, frames, d);
      phys := spaces.pmm.AllocPage();
      if phys == 0 {
        FullStays(frames);
        SameMapsSelf(mem, dirs, kernel, frames);
        DataStaysSelf(mem, frames, dirs);
        return false, 0;
      }
      FramesTaken(mem, dirs, kernel, frames);
      ok := spaces.TempMap(phys);
      ghost var mem1, frames1 := spaces.Mem(), spaces.pmm.View();
      TempKeeps(mem, frames, mem1, frames1, dirs, d, phys, ok);
      if !ok {
        CopyFailed(mem, frames, mem1, frames1, dirs, kernel, d, phys / PAGE_SIZE);
        FreshNoTable(mem, dirs, kernel, frames, mem1, frames1, d, phys / PAGE_SIZE);
        DataDropped(mem1, dirs, kernel, frames1, phys / PAGE_SIZE);
        spaces.pmm.RefDec(phys);
        DataStaysBack(mem, frames, mem1, frames1, dirs);
        return;
      }
      SharedInRange(mem, frames, dirs, d, v, shared, phys / PAGE_SIZE);
      CopyPage(phys / PAGE_SIZE, shared);
      CopyKeeps(mem, frames, mem1, frames1, spaces.Mem(), dirs, kernel, d, phys, phys / PAGE_SIZE);
      CopyMade(mem, frames, mem1, frames1, spaces.Mem(), dirs, kernel, d, v, shared, phys / PAGE_SIZE);
    }

    /** vm_handle_cow_fault. The mapped frame must be in use, or beyond the
        memory that is counted, and no table; the branch that gives the
        copy back after a failing remap is not there, because the remap cannot fail. */
    method CowFault(faultAddr: Word) returns (r: bool)
      requires spaces.Inv() && faultAddr / PAGE_SIZE < WINDOW_START && faultAddr / PAGE_SIZE != SCRATCH_PAGE
      requires var e := Lookup(spaces.Mem(), spaces.Cur(), faultAddr / PAGE_SIZE);
        e.present && e.cow ==> DataFrame(spaces.Mem(), spaces.dirs, spaces.pmm.View(), e.frame)
      modifies spaces.ram, spaces.pmm`usedPages, spaces.pmm`firstFreeHint, spaces.pmm.bitmap, spaces.pmm.refcount
      ensures spaces.Inv() && Tables(old(spaces.Mem()), spaces.dirs) && spaces.Cur() in spaces.dirs
      ensures CowDone(old(spaces.Mem()), old(spaces.pmm.View()), spaces.Mem(), spaces.pmm.View(), spaces.dirs, spaces.Cur(), faultAddr / PAGE_SIZE, r)
      ensures DataKept(old(spaces.Mem()), old(spaces.pmm.View()), spaces.Mem(), spaces.pmm.View(), spaces.dirs)
      ensures |old(spaces.Mem())| == FRAME_RANGE && spaces.Cur() < FRAME_RANGE
      ensures r ==> forall store: bool ::
        UserCan(spaces.Mem(), spaces.Cur(), faultAddr / PAGE_SIZE, store) <==>
        Lookup(old(spaces.Mem()), spaces.Cur(), faultAddr / PAGE_SIZE).user
    {
      hide SpaceOk, UserOwned, HighAligned, IsTable, Decode, Exclusive, SameMaps, LowestFree, BitsOf, CountUsed,
           DataFrame, Tables, Lookup, CowDone, Copied, MapDone, ChangeDone, DataStays, DataKept, UserCan, SlotsOpened;
      ghost var mem, frames := spaces.Mem(), spaces.pmm.View();
      ghost var dirs, kernel, d := spaces.dirs, spaces.kernelPd, spaces.Cur();
      SpaceFacts(mem, dirs, kernel, frames, d);
      var page, v := faultAddr / PAGE_SIZE * PAGE_SIZE, faultAddr / PAGE_SIZE;
      assert page / PAGE_SIZE == v && page % PAGE_SIZE == 0;
      var mapped, phys, flags := spaces.GetMapping(page);
      if !mapped || !flags.cow {
        CowRefused(mem, frames, dirs, kernel, d, v);
        DataStaysSelf(mem, frames, dirs);
        StaysIsKept(mem, frames, mem, frames, dirs);
        return false;
      }
      var shared := phys / PAGE_SIZE;
      LookupFrame(mem, d, v);
      assert shared == Lookup(mem, d, v).frame;
      IsMappedData(mem, frames, dirs, d, v);
      var ok, copyPhys := MakeCopy(shared, v);
      ghost var mem1, frames1 := spaces.Mem(), spaces.pmm.View();
      if !ok {
        CowNoRoom(mem, frames, mem1, dirs, kernel, d, v);
        StaysIsKept(mem, frames, mem1, frames1, dirs);
        return false;
      }
      CopiedFacts(mem, frames, mem1, frames1, dirs, d, v, shared, copyPhys / PAGE_SIZE);
      var unmapped := spaces.UnmapPage(page);
      ghost var mem2 := spaces.Mem();
      StillData(mem1, frames1, mem2, dirs, d, v, shared, unmapped);
      DataDropped(mem2, dirs, kernel, frames1, shared);
      spaces.pmm.RefDec(shared * PAGE_SIZE);
      mapped := spaces.MapPage(page, copyPhys, Flags(true, true, flags.user, false, false));
      Swapped(mem, frames, mem1, frames1, mem2, spaces.Mem(), spaces.pmm.View(), dirs, d, v, shared, copyPhys / PAGE_SIZE, unmapped, mapped);
      assert mapped;
      SwapKeeps(mem, frames, mem1, frames1, mem2, spaces.Mem(), spaces.pmm.View(), dirs, d, v, shared,
                Entry(copyPhys / PAGE_SIZE, true, true, flags.user, false), unmapped, mapped);
      return true;
    }
  }

  lemma DataStaysSelf(mem: Memory, frames: Frames, dirs: set<nat>)
    requires Tables(mem, dirs) && frames.Sound()
    ensures DataStays(mem, frames, mem, frames, dirs)
  {
  }

  lemma StaysIsKept(mem0: Memory, frames0: Frames, mem1: Memory, frames1: Frames, dirs: set<nat>)
    requires DataStays(mem0, frames0, mem1, frames1, dirs)
    ensures DataKept(mem0, frames0, mem1, frames1, dirs)
  {
    hide IsTable, Recursive, EntryAt;
  }

  lemma DataStaysBack(mem0: Memory, frames0: Frames, mem1: Memory, frames1: Frames, dirs: set<nat>)
    requires DataStays(mem0, frames0, mem1, frames1, dirs)
    ensures DataStays(mem0, frames0, mem1, frames0, dirs)
  {
    hide Tables, IsTable;
  }

  /** Taking a frame and mapping the scratch page keeps the data of all others. */
  lemma TempKeeps(mem0: Memory, frames0: Frames, mem1: Memory, frames1: Frames, dirs: set<nat>, d: nat, phys: Word, ok: bool)
    requires frames0.Sound() && TempDone(mem0, frames0.Taken(frames0.total), mem1, frames1, dirs, d, phys, ok)
    ensures DataStays(mem0, frames0, mem1, frames1, dirs)
  {
    hide Tables, IsTable, KeepsExclusive, Exclusive, Decode;
  }

  lemma CopyKeeps(mem0: Memory, frames0: Frames, mem1: Memory, frames1: Frames, mem2: Memory, dirs: set<nat>, kernel: nat, d: nat,
                  phys: Word, copy: nat)
    requires DataStays(mem0, frames0, mem1, frames1, dirs) && SpaceOk(mem1, dirs, kernel, frames1)
    requires frames0.Sound() && DataFrame(mem0, dirs, frames0.Taken(frames0.total), copy) && !frames0.used[copy]
    requires TempDone(mem0, frames0.Taken(frames0.total), mem1, frames1, dirs, d, phys, true)
    requires |mem1| == |mem2| == FRAME_RANGE && mem2 == mem1[copy := mem2[copy]]
    ensures DataStays(mem0, frames0, mem2, frames1, dirs)
  {
    hide Tables, IsTable, UserOwned, HighAligned, Exclusive, Decode, KeepsExclusive;
    DataWritten(mem1, dirs, kernel, frames1, copy, mem2[copy]);
    SpaceFacts2(mem2, dirs, kernel, frames1);
  }

  /** The rest of the fault writes tables only; the old frame keeps its words while it stays in use. */
  lemma SwapKeeps(mem0: Memory, frames0: Frames, mem1: Memory, frames1: Frames, mem2: Memory, mem3: Memory, frames3: Frames,
                  dirs: set<nat>, d: nat, v: nat, shared: nat, e: Entry, unmapped: bool, mapped: bool)
    requires DataStays(mem0, frames0, mem1, frames1, dirs) && frames1.Sound()
    requires ChangeDone(mem1, mem2, frames1, dirs, d, v, true, NO_ENTRY, unmapped)
    requires MapDone(mem2, frames1.Dropped(shared), mem3, frames3, dirs, d, v, true, e, mapped)
    requires frames3 == frames1.Dropped(shared)
    ensures DataKept(mem0, frames0, mem3, frames3, dirs)
  {
    hide IsTable, Exclusive, Decode, KeepsExclusive, Recursive, Lookup, SameBut, SameButPage, SameMaps;
  }

  lemma FreshNoTable(mem0: Memory, dirs: set<nat>, kernel: nat, frames0: Frames, mem1: Memory, frames1: Frames, d: nat, copy: nat)
    requires SpaceOk(mem0, dirs, kernel, frames0) && HasRoom(frames0) && copy == LowestFree(frames0.used, frames0.total)
    requires TempDone(mem0, frames0.Taken(frames0.total), mem1, frames1, dirs, d, copy * PAGE_SIZE, false)
    ensures Tables(mem1, dirs) && !IsTable(mem1, dirs, copy)
  {
    hide UserOwned, HighAligned, IsTable, Decode, Exclusive;
    FramesTaken(mem0, dirs, kernel, frames0);
  }

  lemma SharedInRange(mem: Memory, frames: Frames, dirs: set<nat>, d: nat, v: nat, shared: nat, copy: nat)
    requires MappedData(mem, frames, dirs, d, v, shared) && HasRoom(frames) && copy == LowestFree(frames.used, frames.total)
    ensures shared < FRAME_RANGE && copy != shared
  {
  }

  lemma CowRefused(mem: Memory, frames: Frames, dirs: set<nat>, kernel: nat, d: nat, v: nat)
    requires SpaceOk(mem, dirs, kernel, frames) && d in dirs && v < WINDOW_START
    requires |mem| == FRAME_RANGE && d < FRAME_RANGE && !(Lookup(mem, d, v).present && Lookup(mem, d, v).cow)
    ensures Tables(mem, dirs) && CowDone(mem, frames, mem, frames, dirs, d, v, false)
  {
    hide UserOwned, HighAligned, IsTable, Decode, Exclusive, Lookup;
  }

  lemma CowNoRoom(mem: Memory, frames: Frames, mem1: Memory, dirs: set<nat>, kernel: nat, d: nat, v: nat)
    requires SpaceOk(mem, dirs, kernel, frames) && d in dirs && v < WINDOW_START
    requires |mem| == |mem1| == FRAME_RANGE && d < FRAME_RANGE && frames.Sound() && !CowRoom(mem, frames, d)
    requires (forall x :: x in dirs ==> x < FRAME_RANGE) && SameMaps(mem, mem1, dirs)
    ensures Tables(mem, dirs) && CowDone(mem, frames, mem1, frames, dirs, d, v, false)
  {
    hide UserOwned, HighAligned, IsTable, Decode, Exclusive, Lookup;
  }

  lemma LookupFrame(mem: Memory, d: nat, v: nat)
    requires |mem| == FRAME_RANGE && d < FRAME_RANGE && v < FRAME_RANGE
    ensures Lookup(mem, d, v).frame < FRAME_RANGE
    ensures (Lookup(mem, d, v).frame * PAGE_SIZE) / PAGE_SIZE == Lookup(mem, d, v).frame
  {
  }

  lemma IsMappedData(mem: Memory, frames: Frames, dirs: set<nat>, d: nat, v: nat)
    requires |mem| == FRAME_RANGE && d < FRAME_RANGE && d in dirs && v < WINDOW_START && v != SCRATCH_PAGE && Lookup(mem, d, v).present
    requires DataFrame(mem, dirs, frames, Lookup(mem, d, v).frame)
    ensures MappedData(mem, frames, dirs, d, v, Lookup(mem, d, v).frame)
  {
  }

  lemma CopiedFacts(mem0: Memory, frames0: Frames, mem1: Memory, frames1: Frames, dirs: set<nat>, d: nat, v: nat, shared: nat, copy: nat)
    requires Tables(mem0, dirs) && |mem1| == FRAME_RANGE && frames0.Sound() && d in dirs && v < WINDOW_START
    requires Copied(mem0, frames0, mem1, frames1, dirs, d, v, shared, copy)
    ensures DataFrame(mem1, dirs, frames1, shared)
  {
  }

  lemma StillData(mem1: Memory, frames: Frames, mem2: Memory, dirs: set<nat>, d: nat, v: nat, f: nat, r: bool)
    requires DataFrame(mem1, dirs, frames, f) && ChangeDone(mem1, mem2, frames, dirs, d, v, true, NO_ENTRY, r)
    ensures Tables(mem2, dirs) && !IsTable(mem2, dirs, f)
  {
    hide IsTable, Exclusive, Decode;
  }
}
