/** The lazily backed kernel heap of mm/vm.c: address ranges are handed out at once, frames only when
    a page is first touched. */
module Heap {
  import opened PageEntry
  import opened PageTables
  import opened Pmm
  import opened Paging
  import opened Vm

  const HEAP_BASE: nat := 0xD100_0000
  const HEAP_PAGES: nat := 0x4000        // 64 MiB
  const HEAP_FIRST: nat := 0xD_1000      // page number of HEAP_BASE

  datatype PageState = FREE | RESERVED | LAZY

  /** The `count` pages from `s` are all free. */
  predicate IsRun(st: seq<PageState>, s: nat, count: nat) {
    s + count <= |st| && forall i :: s <= i < s + count ==> st[i] == FREE
  }

  /** The states after the pages from `s` to `e` were set to `to`. */
  function Paint(st: seq<PageState>, s: nat, e: nat, to: PageState): (r: seq<PageState>)
    ensures |r| == |st|
    ensures forall i :: 0 <= i < |st| ==> r[i] == if s <= i < e then to else st[i]
  {
    seq(|st|, i requires 0 <= i < |st| => if s <= i < e then to else st[i])
  }

  /** Every frame in use is a table, or backs one heap page, or is in use for another reason. */
  ghost predicate HeapOk(st: seq<PageState>, mem: Memory, dirs: set<nat>, d: nat, frames: Frames, others: set<nat>) {
    && |st| == HEAP_PAGES && Tables(mem, dirs) && frames.Sound() && d in dirs
    && (forall i: nat :: i < HEAP_PAGES ==> (st[i] == RESERVED <==> Backs(mem, d, i).present))
    && (forall i: nat :: i < HEAP_PAGES && st[i] == RESERVED ==> Owned(mem, dirs, frames, others, Backs(mem, d, i).frame))
    && (forall i: nat :: i < HEAP_PAGES && st[i] == RESERVED ==> !Backs(mem, d, i).user)
    && (forall i: nat, j: nat :: i < j < HEAP_PAGES && st[i] == RESERVED && st[j] == RESERVED ==>
          Backs(mem, d, i).frame != Backs(mem, d, j).frame)
    && (forall f: nat :: f < FRAME_RANGE && frames.used[f] ==> f in others || IsTable(mem, dirs, f) || Held(st, mem, d, f))
    && (forall f: nat :: f in others && f < FRAME_RANGE ==> frames.used[f])
  }

  /** The mapping of heap page `i`. */
  ghost function Backs(mem: Memory, d: nat, i: nat): Entry
    requires |mem| == FRAME_RANGE && d < FRAME_RANGE && i < HEAP_PAGES
  {
    Lookup(mem, d, HEAP_FIRST + i)
  }

  /** A frame that belongs to the heap alone, with one reference. */
  ghost predicate Owned(mem: Memory, dirs: set<nat>, frames: Frames, others: set<nat>, f: nat) {
    DataFrame(mem, dirs, frames, f) && f < frames.total && frames.refs[f] == 1 && f !in others
  }

  /** Some reserved page is backed by frame `f`. */
  ghost predicate Held(st: seq<PageState>, mem: Memory, d: nat, f: nat)
    requires |st| == HEAP_PAGES && |mem| == FRAME_RANGE && d < FRAME_RANGE
  {
    exists i: nat :: i < HEAP_PAGES && st[i] == RESERVED && Backs(mem, d, i).frame == f
  }

  /** User code reaches no heap page, neither in the current directory nor in another one that shows
      the page through the same table, whatever marks their directory entries carry. */
  lemma OutOfUsersReach(st: seq<PageState>, mem: Memory, dirs: set<nat>, d: nat, frames: Frames, others: set<nat>,
                        x: nat, i: nat, store: bool)
    requires HeapOk(st, mem, dirs, d, frames, others) && i < HEAP_PAGES && x in dirs
    requires |mem| == FRAME_RANGE && x < FRAME_RANGE && d < FRAME_RANGE
    requires var mine, its := EntryAt(mem, d, (HEAP_FIRST + i) / SLOTS), EntryAt(mem, x, (HEAP_FIRST + i) / SLOTS);
      its.present ==> mine.present && its.frame == mine.frame
    ensures !UserCan(mem, x, HEAP_FIRST + i, store)
  {
    hide Decode, IsTable, UserCan, Held, Owned;
    HighPage(i);
    UserReach(mem, dirs, x, HEAP_FIRST + i, store);
    assert st[i] == RESERVED <==> Backs(mem, d, i).present;
  }

  /** With no page reserved, the frames in use are the tables and the frames of others. */
  lemma NothingHeld(st: seq<PageState>, mem: Memory, dirs: set<nat>, d: nat, frames: Frames, others: set<nat>, f: nat)
    requires HeapOk(st, mem, dirs, d, frames, others) && f < FRAME_RANGE
    requires forall i :: 0 <= i < HEAP_PAGES ==> st[i] != RESERVED
    ensures frames.used[f] ==> f in others || IsTable(mem, dirs, f)
  {
    hide IsTable, Backs;
  }

  /** Between two states with no page reserved, however many allocations, faults and frees lie in
      between, the heap has kept no frame: every frame gained is a table. */
  lemma HeapFramesReturn(st0: seq<PageState>, mem0: Memory, dirs0: set<nat>, frames0: Frames,
                         st1: seq<PageState>, mem1: Memory, dirs1: set<nat>, frames1: Frames, d: nat, others: set<nat>, f: nat)
    requires HeapOk(st0, mem0, dirs0, d, frames0, others) && HeapOk(st1, mem1, dirs1, d, frames1, others)
    requires forall i :: 0 <= i < HEAP_PAGES ==> st0[i] != RESERVED && st1[i] != RESERVED
    requires f < FRAME_RANGE && frames1.used[f] && !frames0.used[f]
    ensures IsTable(mem1, dirs1, f)
  {
    hide IsTable, Backs;
    NothingHeld(st1, mem1, dirs1, d, frames1, others, f);
  }

  /** Frames in use stay in use with their references. */
  ghost predicate Grew(frames0: Frames, frames1: Frames) {
    && frames0.Sound() && frames1.Sound() && frames1.total == frames0.total
    && forall f :: 0 <= f < FRAME_RANGE && frames0.used[f] ==> frames1.used[f] && frames1.refs[f] == frames0.refs[f]
  }

  lemma TakenGrew(frames: Frames)
    requires frames.Sound()
    ensures Grew(frames, frames.Taken(frames.total))
    ensures var p := LowestFree(frames.used, frames.total);
      p < frames.total ==> frames.Taken(frames.total).refs[p] == 1
  {
  }

  /** Whether a first touch finds the frames it needs. */
  ghost predicate TouchRoom(mem: Memory, frames: Frames, d: nat, i: nat)
    requires |mem| == FRAME_RANGE && d < FRAME_RANGE && frames.Sound() && i < HEAP_PAGES
  {
    HasRoom(frames) && (EntryAt(mem, d, (HEAP_FIRST + i) / SLOTS).present || HasRoom(frames.Taken(frames.total)))
  }

  lemma HighPage(i: nat)
    requires i < HEAP_PAGES
    ensures HIGH_SLOTS <= (HEAP_FIRST + i) / SLOTS < RECURSIVE_SLOT && HEAP_FIRST + i < WINDOW_START
  {
  }

  /** A lazy page that was touched: it has a zeroed frame of its own. */
  lemma PageReserved(st: seq<PageState>, mem0: Memory, frames0: Frames, mem1: Memory, frames1: Frames, mem2: Memory, dirs: set<nat>,
                     kernel: nat, d: nat, others: set<nat>, i: nat, fr: nat)
    requires HeapOk(st, mem0, dirs, d, frames0, others) && i < HEAP_PAGES && st[i] == LAZY
    requires SpaceOk(mem0, dirs, kernel, frames0) && HasRoom(frames0) && fr == LowestFree(frames0.used, frames0.total)
    requires MapDone(mem0, frames0.Taken(frames0.total), mem1, frames1, dirs, d, HEAP_FIRST + i, true, Entry(fr, true, true, false, false), true)
    requires SpaceOk(mem1, dirs, kernel, frames1) && mem2 == mem1[fr := ZeroFrame()]
    ensures SpaceOk(mem2, dirs, kernel, frames1) && |mem2| == FRAME_RANGE && |mem0| == FRAME_RANGE
    ensures (forall x :: x in dirs ==> x < FRAME_RANGE) && SameButPage(mem0, mem2, dirs, HEAP_FIRST + i)
    ensures Lookup(mem2, d, HEAP_FIRST + i) == Entry(fr, true, true, false, false) && mem2[fr] == ZeroFrame()
    ensures HeapOk(st[i := RESERVED], mem2, dirs, d, frames1, others)
  {
    hide SpaceOk, IsTable, Exclusive, Decode, Tables, Lookup, SameMaps, KeepsExclusive;
    HighPage(i);
    FramesTaken(mem0, dirs, kernel, frames0);
    SpaceFacts2(mem0, dirs, kernel, frames0);
    SpaceFacts2(mem1, dirs, kernel, frames1);
    TakenGrew(frames0);
    TakenGrew(frames0.Taken(frames0.total));
    DataWritten(mem1, dirs, kernel, frames1, fr, ZeroFrame());
    SpaceFacts2(mem2, dirs, kernel, frames1);
    SameAt(mem1, mem2, dirs, d, HEAP_FIRST + i);
    PageThenSame(mem0, mem1, mem2, dirs, HEAP_FIRST + i);
    ReservedOk(st, mem0, frames0, mem2, frames1, dirs, d, others, i, fr);
  }

  lemma SameAt(mem0: Memory, mem1: Memory, dirs: set<nat>, d: nat, v: nat)
    requires |mem0| == |mem1| == FRAME_RANGE && (forall x :: x in dirs ==> x < FRAME_RANGE) && SameMaps(mem0, mem1, dirs)
    requires d in dirs && v < WINDOW_START
    ensures Lookup(mem1, d, v) == Lookup(mem0, d, v)
  {
  }

  /** How frames moved when page `i` got the frame `fr`: everything else newly in use is a table. */
  lemma ReservedOk(st: seq<PageState>, mem0: Memory, frames0: Frames, mem2: Memory, frames2: Frames, dirs: set<nat>, d: nat,
                   others: set<nat>, i: nat, fr: nat)
    requires HeapOk(st, mem0, dirs, d, frames0, others) && i < HEAP_PAGES && st[i] == LAZY
    requires Tables(mem2, dirs) && Grew(frames0, frames2) && |mem2| == FRAME_RANGE && SameButPage(mem0, mem2, dirs, HEAP_FIRST + i)
    requires Lookup(mem2, d, HEAP_FIRST + i) == Entry(fr, true, true, false, false)
    requires !frames0.used[fr] && fr < frames0.total && frames2.used[fr] && frames2.refs[fr] == 1 && !IsTable(mem2, dirs, fr)
    requires forall f: nat :: f < FRAME_RANGE && f != fr ==>
      (IsTable(mem2, dirs, f) <==> IsTable(mem0, dirs, f) || (frames2.used[f] && !frames0.used[f]))
    ensures HeapOk(st[i := RESERVED], mem2, dirs, d, frames2, others)
  {
    hide IsTable, Decode, Tables, Lookup;
    var st2 := st[i := RESERVED];
    HighPage(i);
    TablesBound(mem0, dirs);
    forall j: nat | j < HEAP_PAGES && j != i ensures Backs(mem2, d, j) == Backs(mem0, d, j) {
      HighPage(j);
    }
    assert Backs(mem2, d, i) == Entry(fr, true, true, false, false);
    forall j: nat | j < HEAP_PAGES && j != i && st[j] == RESERVED ensures Owned(mem2, dirs, frames2, others, Backs(mem2, d, j).frame) {
      assert Owned(mem0, dirs, frames0, others, Backs(mem0, d, j).frame);
    }
    forall f: nat | f < FRAME_RANGE && frames2.used[f] ensures f in others || IsTable(mem2, dirs, f) || Held(st2, mem2, d, f) {
      if f == fr {
        assert st2[i] == RESERVED && Backs(mem2, d, i).frame == f;
      } else if frames0.used[f] && Held(st, mem0, d, f) {
        var j: nat :| j < HEAP_PAGES && st[j] == RESERVED && Backs(mem0, d, j).frame == f;
        assert st2[j] == RESERVED && Backs(mem2, d, j).frame == f;
      }
    }
  }

  /** A reserved page given back: unmapped, its frame free again. */
  lemma PageReleased(st: seq<PageState>, mem0: Memory, frames0: Frames, mem1: Memory, dirs: set<nat>, d: nat,
                     others: set<nat>, i: nat, fr: nat)
    requires HeapOk(st, mem0, dirs, d, frames0, others) && i < HEAP_PAGES && st[i] == RESERVED
    requires |mem0| == FRAME_RANGE && d < FRAME_RANGE && fr == Lookup(mem0, d, HEAP_FIRST + i).frame
    requires ChangeDone(mem0, mem1, frames0, dirs, d, HEAP_FIRST + i, true, NO_ENTRY, true)
    ensures HeapOk(st[i := FREE], mem1, dirs, d, frames0.Dropped(fr), others)
    ensures fr < FRAME_RANGE && !frames0.Dropped(fr).used[fr] && !IsTable(mem1, dirs, fr)
  {
    hide IsTable, Decode, Tables, Lookup, Exclusive, KeepsExclusive;
    var st1, frames1 := st[i := FREE], frames0.Dropped(fr);
    HighPage(i);
    TablesBound(mem0, dirs);
    TablesBound(mem1, dirs);
    assert Owned(mem0, dirs, frames0, others, Backs(mem0, d, i).frame);
    forall j: nat | j < HEAP_PAGES && j != i ensures Backs(mem1, d, j) == Backs(mem0, d, j) {
      HighPage(j);
    }
    forall j: nat | j < HEAP_PAGES && st1[j] == RESERVED ensures Owned(mem1, dirs, frames1, others, Backs(mem1, d, j).frame) {
      assert Owned(mem0, dirs, frames0, others, Backs(mem0, d, j).frame);
      OtherFrame(st, mem0, dirs, d, frames0, others, i, j);
    }
    forall f: nat | f < FRAME_RANGE && frames1.used[f] ensures f in others || IsTable(mem1, dirs, f) || Held(st1, mem1, d, f) {
      if Held(st, mem0, d, f) {
        var j: nat :| j < HEAP_PAGES && st[j] == RESERVED && Backs(mem0, d, j).frame == f;
        assert st1[j] == RESERVED && Backs(mem1, d, j).frame == f;
      }
    }
  }

  lemma OtherFrame(st: seq<PageState>, mem: Memory, dirs: set<nat>, d: nat, frames: Frames, others: set<nat>, i: nat, j: nat)
    requires HeapOk(st, mem, dirs, d, frames, others) && i < HEAP_PAGES && j < HEAP_PAGES && i != j
    requires st[i] == RESERVED && st[j] == RESERVED
    ensures Backs(mem, d, i).frame != Backs(mem, d, j).frame
  {
    hide IsTable, Decode, Tables, Lookup;
    TablesBound(mem, dirs);
    if j < i {
      assert Backs(mem, d, j).frame != Backs(mem, d, i).frame;
    }
  }

  /** Pages that are not reserved may be handed out or taken back without further ado. */
  lemma StatesOnly(st: seq<PageState>, st1: seq<PageState>, mem: Memory, dirs: set<nat>, d: nat, frames: Frames, others: set<nat>)
    requires HeapOk(st, mem, dirs, d, frames, others) && |st1| == HEAP_PAGES
    requires forall i :: 0 <= i < HEAP_PAGES ==> (st1[i] == RESERVED <==> st[i] == RESERVED)
    ensures HeapOk(st1, mem, dirs, d, frames, others)
  {
    hide IsTable, Decode, Tables, Lookup;
    TablesBound(mem, dirs);
    forall f: nat | f < FRAME_RANGE && Held(st, mem, d, f) ensures Held(st1, mem, d, f) {
      var j: nat :| j < HEAP_PAGES && st[j] == RESERVED && Backs(mem, d, j).frame == f;
      assert st1[j] == RESERVED;
    }
  }

  ghost predicate Unmapped(mem: Memory, d: nat) {
    && |mem| == FRAME_RANGE && d < FRAME_RANGE
    && forall i: nat :: i < HEAP_PAGES ==> !Backs(mem, d, i).present
  }

  /** The boot directory maps no heap page. */
  lemma BootUnmapped(mem: Memory, d: nat)
    requires |mem| == FRAME_RANGE && d < FRAME_RANGE && BootMap(mem, d)
    ensures Unmapped(mem, d)
  {
    hide Lookup;
    forall i: nat | i < HEAP_PAGES ensures !Backs(mem, d, i).present {
      assert HEAP_FIRST + i < WINDOW_START;
    }
  }

  ghost function InUse(frames: Frames): set<nat> { set f: nat | f < |frames.used| && frames.used[f] }

  lemma FreshHeap(st: seq<PageState>, mem: Memory, dirs: set<nat>, kernel: nat, d: nat, frames: Frames)
    requires SpaceOk(mem, dirs, kernel, frames) && d in dirs && Unmapped(mem, d)
    requires |st| == HEAP_PAGES && forall i :: 0 <= i < HEAP_PAGES ==> st[i] == FREE
    ensures HeapOk(st, mem, dirs, d, frames, InUse(frames))
  {
    hide IsTable, Decode, Lookup, Held, UserOwned, HighAligned;
  }

  /** The range lies in the heap and is page-aligned. */
  predicate InHeap(addr: Word, count: nat) {
    count > 0 && addr % PAGE_SIZE == 0 && HEAP_BASE <= addr && addr + count * PAGE_SIZE <= HEAP_BASE + HEAP_PAGES * PAGE_SIZE
  }

  /** The range passes the checks of free_virtual_pages, whose end is computed in 32 bits. */
  predicate Passes(addr: Word, count: Word) {
    var end := (addr + count * PAGE_SIZE) % WORD_RANGE;
    count > 0 && addr % PAGE_SIZE == 0 && HEAP_BASE <= addr && end <= HEAP_BASE + HEAP_PAGES * PAGE_SIZE && addr <= end
  }

  /** A range passes exactly when it lies in the heap or its size wraps around to one that does. */
  lemma PassesExactly(addr: Word, count: Word)
    ensures count * PAGE_SIZE < WORD_RANGE ==> (Passes(addr, count) <==> InHeap(addr, count))
    ensures count * PAGE_SIZE >= WORD_RANGE ==>
      (Passes(addr, count) <==>
         addr % PAGE_SIZE == 0 && HEAP_BASE <= addr && addr + count * PAGE_SIZE % WORD_RANGE <= HEAP_BASE + HEAP_PAGES * PAGE_SIZE)
  {
    var n, k := count * PAGE_SIZE % WORD_RANGE, count * PAGE_SIZE / WORD_RANGE;
    assert (addr + count * PAGE_SIZE) % WORD_RANGE == (addr + n) % WORD_RANGE;
  }

  /** A count of 2^20 pages passes for every heap page: its size wraps to nothing. */
  lemma WrappedCountPasses(addr: Word)
    requires addr % PAGE_SIZE == 0 && HEAP_BASE <= addr < HEAP_BASE + HEAP_PAGES * PAGE_SIZE
    ensures Passes(addr, 0x10_0000) && !InHeap(addr, 0x10_0000)
  {
    PassesExactly(addr, 0x10_0000);
  }

  /** No translation of any directory differs but those of the pages lo..hi-1. */
  ghost predicate SameOutside(mem0: Memory, mem1: Memory, dirs: set<nat>, lo: nat, hi: nat)
    requires |mem0| == |mem1| == FRAME_RANGE && forall x :: x in dirs ==> x < FRAME_RANGE
  {
    forall x: nat, y: nat :: x in dirs && y < WINDOW_START && !(lo <= y < hi) ==> Lookup(mem1, x, y) == Lookup(mem0, x, y)
  }

  lemma OutsideSelf(mem: Memory, dirs: set<nat>, lo: nat)
    requires |mem| == FRAME_RANGE && forall x :: x in dirs ==> x < FRAME_RANGE
    ensures SameOutside(mem, mem, dirs, lo, lo)
  {
  }

  lemma OutsideMore(mem0: Memory, mem1: Memory, mem2: Memory, dirs: set<nat>, lo: nat, hi: nat)
    requires |mem0| == |mem1| == |mem2| == FRAME_RANGE && forall x :: x in dirs ==> x < FRAME_RANGE
    requires lo <= hi && SameOutside(mem0, mem1, dirs, lo, hi) && SameButPage(mem1, mem2, dirs, hi)
    ensures SameOutside(mem0, mem2, dirs, lo, hi + 1)
  {
  }

  /** What touching heap page `i` comes to. */
  ghost predicate Touched(st0: seq<PageState>, mem0: Memory, frames0: Frames, st1: seq<PageState>, mem1: Memory, frames1: Frames,
                          dirs: set<nat>, d: nat, i: nat, r: bool) {
    && i < HEAP_PAGES == |st0| && |mem0| == |mem1| == FRAME_RANGE && frames0.Sound() && d in dirs && (forall x :: x in dirs ==> x < FRAME_RANGE)
    && var fr := LowestFree(frames0.used, frames0.total);
       && r == (st0[i] == LAZY && TouchRoom(mem0, frames0, d, i))
       && (r ==>
             && st1 == st0[i := RESERVED] && fr < frames0.total <= FRAME_RANGE
             && Lookup(mem1, d, HEAP_FIRST + i) == Entry(fr, true, true, false, false) && mem1[fr] == ZeroFrame()
             && SameButPage(mem0, mem1, dirs, HEAP_FIRST + i))
       && (!r ==> st1 == st0 && frames1 == frames0 && SameMaps(mem0, mem1, dirs))
  }

  lemma UntouchedState(st: seq<PageState>, mem: Memory, frames: Frames, dirs: set<nat>, kernel: nat, d: nat, i: nat)
    requires SpaceOk(mem, dirs, kernel, frames) && d in dirs && i < HEAP_PAGES == |st| && st[i] != LAZY
    ensures Touched(st, mem, frames, st, mem, frames, dirs, d, i, false)
  {
    hide UserOwned, HighAligned, IsTable, Decode, Lookup;
  }

  lemma UntouchedFull(st: seq<PageState>, mem: Memory, frames: Frames, mem1: Memory, dirs: set<nat>, kernel: nat, d: nat, i: nat)
    requires SpaceOk(mem, dirs, kernel, frames) && d in dirs && i < HEAP_PAGES == |st| && d < FRAME_RANGE
    requires |mem| == |mem1| == FRAME_RANGE && frames.Sound() && !TouchRoom(mem, frames, d, i)
    requires (forall x :: x in dirs ==> x < FRAME_RANGE) && SameMaps(mem, mem1, dirs)
    ensures Touched(st, mem, frames, st, mem1, frames, dirs, d, i, false)
  {
    hide UserOwned, HighAligned, IsTable, Decode, Lookup;
  }

  lemma LazyAbsent(st: seq<PageState>, mem: Memory, dirs: set<nat>, d: nat, frames: Frames, others: set<nat>, i: nat)
    requires HeapOk(st, mem, dirs, d, frames, others) && i < HEAP_PAGES && st[i] != RESERVED
    ensures |mem| == FRAME_RANGE && d < FRAME_RANGE && !Lookup(mem, d, HEAP_FIRST + i).present
  {
    hide IsTable, Decode, Tables, Held;
    TablesBound(mem, dirs);
    assert !Backs(mem, d, i).present;
  }

  lemma ReservedMapped(st: seq<PageState>, mem: Memory, dirs: set<nat>, d: nat, frames: Frames, others: set<nat>, i: nat)
    requires HeapOk(st, mem, dirs, d, frames, others) && i < HEAP_PAGES
    ensures |mem| == FRAME_RANGE && d < FRAME_RANGE && (st[i] == RESERVED <==> Lookup(mem, d, HEAP_FIRST + i).present)
    ensures |st| == HEAP_PAGES
  {
    hide IsTable, Decode, Tables, Held;
    TablesBound(mem, dirs);
    assert st[i] == RESERVED <==> Backs(mem, d, i).present;
  }

  /** A mapping that fails for want of a table gives the frame back. */
  lemma MapFailed(st: seq<PageState>, mem: Memory, frames: Frames, mem1: Memory, frames1: Frames, dirs: set<nat>, kernel: nat, d: nat,
                  others: set<nat>, i: nat, fr: nat, e: Entry)
    requires HeapOk(st, mem, dirs, d, frames, others) && i < HEAP_PAGES && st[i] == LAZY
    requires SpaceOk(mem, dirs, kernel, frames) && HasRoom(frames) && fr == LowestFree(frames.used, frames.total)
    requires MapDone(mem, frames.Taken(frames.total), mem1, frames1, dirs, d, HEAP_FIRST + i, true, e, false)
    requires |mem| == FRAME_RANGE && d < FRAME_RANGE && !Lookup(mem, d, HEAP_FIRST + i).present
    ensures Tables(mem1, dirs) && !IsTable(mem1, dirs, fr) && frames1.Sound() && frames1.Dropped(fr) == frames
    ensures HeapOk(st, mem1, dirs, d, frames, others)
    ensures Touched(st, mem, frames, st, mem1, frames, dirs, d, i, false)
  {
    hide IsTable, Decode, Tables, Lookup, SpaceOk, KeepsExclusive, Exclusive, HeapOk;
    HighPage(i);
    FramesTaken(mem, dirs, kernel, frames);
    TablesBound(mem, dirs);
    TablesBound(mem1, dirs);
    SpaceFacts2(mem, dirs, kernel, frames);
    ReservedMapped(st, mem, dirs, d, frames, others, i);
    FullStays(frames.Taken(frames.total));
    TakeThenDrop(frames, frames.total);
    SameMapsHeap(st, mem, mem1, dirs, d, frames, others, frames.Taken(frames.total));
  }

  /** A heap seen through unchanged maps and tables. */
  lemma SameMapsHeap(st: seq<PageState>, mem: Memory, mem1: Memory, dirs: set<nat>, d: nat, frames: Frames, others: set<nat>,
                     frames1: Frames)
    requires HeapOk(st, mem, dirs, d, frames, others) && Steady(mem, frames1, mem1, frames1, dirs)
    requires (forall x :: x in dirs ==> x < FRAME_RANGE) && |mem| == |mem1| == FRAME_RANGE && SameMaps(mem, mem1, dirs)
    ensures HeapOk(st, mem1, dirs, d, frames, others)
  {
    hide IsTable, Decode, Tables, Lookup, KeepsExclusive;
    forall j: nat | j < HEAP_PAGES ensures Backs(mem1, d, j) == Backs(mem, d, j) {
      HighPage(j);
    }
    forall j: nat | j < HEAP_PAGES && st[j] == RESERVED ensures Owned(mem1, dirs, frames, others, Backs(mem1, d, j).frame) {
      assert Owned(mem, dirs, frames, others, Backs(mem, d, j).frame);
    }
    forall f: nat | f < FRAME_RANGE && Held(st, mem, d, f) ensures Held(st, mem1, d, f) {
      var j: nat :| j < HEAP_PAGES && st[j] == RESERVED && Backs(mem, d, j).frame == f;
      assert Backs(mem1, d, j).frame == f;
    }
  }

  lemma NowTouched(st: seq<PageState>, mem: Memory, frames: Frames, mem1: Memory, mem2: Memory, frames1: Frames,
                   dirs: set<nat>, d: nat, i: nat, fr: nat)
    requires i < HEAP_PAGES == |st| && st[i] == LAZY && |mem| == |mem2| == FRAME_RANGE && d < FRAME_RANGE
    requires frames.Sound() && HasRoom(frames) && fr == LowestFree(frames.used, frames.total)
    requires MapDone(mem, frames.Taken(frames.total), mem1, frames1, dirs, d, HEAP_FIRST + i, true, Entry(fr, true, true, false, false), true)
    requires (forall x :: x in dirs ==> x < FRAME_RANGE) && SameButPage(mem, mem2, dirs, HEAP_FIRST + i)
    requires Lookup(mem2, d, HEAP_FIRST + i) == Entry(fr, true, true, false, false) && mem2[fr] == ZeroFrame()
    ensures Touched(st, mem, frames, st[i := RESERVED], mem2, frames1, dirs, d, i, true)
  {
    hide IsTable, Decode, Tables, Lookup, KeepsExclusive, Exclusive, SameButPage;
  }

  lemma ReleasedChange(mem: Memory, mem1: Memory, frames: Frames, dirs: set<nat>, d: nat, v: nat, r: bool)
    requires ChangeDone(mem, mem1, frames, dirs, d, v, true, NO_ENTRY, r) && HIGH_SLOTS <= v / SLOTS
    requires |mem| == FRAME_RANGE && d < FRAME_RANGE && v < FRAME_RANGE && Lookup(mem, d, v).present
    ensures r && |mem1| == FRAME_RANGE && (forall x :: x in dirs ==> x < FRAME_RANGE) && SameButPage(mem, mem1, dirs, v)
  {
    hide IsTable, Decode, Lookup, KeepsExclusive, Exclusive;
  }

  /** Mapping a page keeps the data of all frames that were in use. */
  lemma MapKeeps(mem0: Memory, frames0: Frames, mem1: Memory, frames1: Frames, dirs: set<nat>, d: nat, v: nat, e: Entry, r: bool)
    requires frames0.Sound() && MapDone(mem0, frames0.Taken(frames0.total), mem1, frames1, dirs, d, v, true, e, r)
    ensures DataStays(mem0, frames0, mem1, frames1, dirs)
  {
    hide Tables, IsTable, KeepsExclusive, Exclusive, Decode, Lookup, SameBut, SameButPage, SameMaps;
  }

  lemma ZeroKeeps(mem0: Memory, frames0: Frames, mem1: Memory, frames1: Frames, mem2: Memory, dirs: set<nat>, kernel: nat, d: nat,
                  v: nat, e: Entry, fr: nat)
    requires DataStays(mem0, frames0, mem1, frames1, dirs) && SpaceOk(mem1, dirs, kernel, frames1)
    requires frames0.Sound() && DataFrame(mem0, dirs, frames0.Taken(frames0.total), fr) && !frames0.used[fr]
    requires MapDone(mem0, frames0.Taken(frames0.total), mem1, frames1, dirs, d, v, true, e, true)
    requires |mem1| == |mem2| == FRAME_RANGE && mem2 == mem1[fr := ZeroFrame()]
    ensures DataStays(mem0, frames0, mem2, frames1, dirs)
  {
    hide Tables, IsTable, UserOwned, HighAligned, Exclusive, Decode, KeepsExclusive, Lookup, SameBut, SameButPage, SameMaps;
    DataWritten(mem1, dirs, kernel, frames1, fr, ZeroFrame());
    SpaceFacts2(mem2, dirs, kernel, frames1);
  }

  /** Frames were given back, none was taken, and those still in use that are no tables keep their words. */
  ghost predicate OnlyReleased(mem0: Memory, frames0: Frames, mem1: Memory, frames1: Frames, dirs: set<nat>) {
    && Tables(mem0, dirs) && Tables(mem1, dirs) && |frames0.used| == |frames1.used| == FRAME_RANGE
    && forall f: nat :: f < FRAME_RANGE ==>
         && (frames1.used[f] ==> frames0.used[f])
         && (IsTable(mem1, dirs, f) <==> IsTable(mem0, dirs, f))
         && (frames1.used[f] && !IsTable(mem0, dirs, f) ==> mem1[f] == mem0[f])
  }

  lemma NothingReleased(mem: Memory, frames: Frames, dirs: set<nat>)
    requires Tables(mem, dirs) && frames.Sound()
    ensures OnlyReleased(mem, frames, mem, frames, dirs)
  {
  }

  lemma ReleasedTransitive(m0: Memory, f0: Frames, m1: Memory, f1: Frames, m2: Memory, f2: Frames, dirs: set<nat>)
    requires OnlyReleased(m0, f0, m1, f1, dirs) && OnlyReleased(m1, f1, m2, f2, dirs)
    ensures OnlyReleased(m0, f0, m2, f2, dirs)
  {
    hide IsTable, Recursive, EntryAt;
  }

  lemma ReleaseKeeps(mem0: Memory, mem1: Memory, frames: Frames, dirs: set<nat>, d: nat, v: nat, unmapped: bool, fr: nat)
    requires ChangeDone(mem0, mem1, frames, dirs, d, v, true, NO_ENTRY, unmapped) && frames.Sound()
    ensures OnlyReleased(mem0, frames, mem1, frames.Dropped(fr), dirs)
  {
    hide IsTable, Exclusive, Decode, KeepsExclusive, Recursive, EntryAt, Lookup, SameBut, SameButPage, SameMaps;
  }

  class KernelHeap {
    const spaces: AddressSpaces
    const state: array<PageState>
    ghost var others: set<nat>

    ghost predicate Inv()
      reads this, state, spaces, spaces.ram, spaces.pmm, spaces.pmm.bitmap, spaces.pmm.refcount
    {
      && spaces.Inv() && state.Length == HEAP_PAGES
      && HeapOk(state[..], spaces.Mem(), spaces.dirs, spaces.Cur(), spaces.pmm.View(), others)
    }

    /** vm_init, in a directory that maps no heap page. */
    constructor (spaces: AddressSpaces)
      requires spaces.Inv()
      requires Unmapped(spaces.Mem(), spaces.Cur())
      ensures Inv() && this.spaces == spaces && fresh(state)
      ensures forall i :: 0 <= i < HEAP_PAGES ==> state[i] == FREE
    {
      hide IsTable, Decode, Lookup, Held, SpaceOk, HeapOk, Unmapped;
      this.spaces := spaces;
      state := new PageState[HEAP_PAGES](_ => FREE);
      others := InUse(spaces.pmm.View());
      new;
      FreshHeap(state[..], spaces.Mem(), spaces.dirs, spaces.kernelPd, spaces.Cur(), spaces.pmm.View());
    }

    /** allocate_virtual_pages: the lowest run of `count` free pages, or 0 when there is none. */
    method AllocatePages(count: nat) returns (addr: nat)
      requires Inv()
      modifies state
      ensures Inv()
      ensures addr == 0 <==> count == 0 || forall s: nat :: !IsRun(old(state[..]), s, count)
      ensures addr == 0 ==> state[..] == old(state[..])
      ensures addr != 0 ==> exists s: nat ::
        && addr == HEAP_BASE + s * PAGE_SIZE && IsRun(old(state[..]), s, count)
        && (forall t: nat :: t < s ==> !IsRun(old(state[..]), t, count))
        && state[..] == Paint(old(state[..]), s, s + count, LAZY)
    {
      hide HeapOk, SpaceOk, BitsOf, CountUsed, Tables, IsTable, LowestFree, Paint;
      ghost var st := state[..];
      if count == 0 || count > HEAP_PAGES {
        return 0;
      }
      var run, runStart := 0, 0;
      for i := 0 to HEAP_PAGES
        invariant state[..] == st && run < count && run <= i
        invariant run > 0 ==> runStart == i - run
        invariant forall j :: i - run <= j < i ==> st[j] == FREE
        invariant i - run > 0 ==> st[i - run - 1] != FREE
        invariant forall s: nat :: s + count <= i ==> !IsRun(st, s, count)
      {
        if state[i] == FREE {
          if run == 0 {
            runStart := i;
          }
          run := run + 1;
          if run == count {
            assert IsRun(st, runStart, count);
            forall t: nat | t < runStart ensures !IsRun(st, t, count) {
              NoEarlierRun(st, t, count, runStart, i);
            }
            MarkLazy(runStart, runStart + count);
            LazyOk(st, state[..], spaces.Mem(), spaces.dirs, spaces.Cur(), spaces.pmm.View(), others, runStart, count);
            return HEAP_BASE + runStart * PAGE_SIZE;
          }
        } else {
          forall s: nat | s + count <= i + 1 ensures !IsRun(st, s, count) {
            if s + count == i + 1 {
              assert st[i] != FREE;
            }
          }
          run := 0;
        }
        forall s: nat | s + count == i + 1 && run > 0 ensures !IsRun(st, s, count) {
          NoRunThrough(st, s, count, i + 1 - run, i + 1);
        }
      }
      forall s: nat ensures !IsRun(st, s, count) {
      }
      return 0;
    }

    method MarkLazy(from: nat, to: nat)
      requires from <= to <= state.Length
      modifies state
      ensures state[..] == Paint(old(state[..]), from, to, LAZY)
    {
      for j := from to to
        invariant forall k :: 0 <= k < state.Length ==> state[k] == if from <= k < j then LAZY else old(state[k])
      {
        state[j] := LAZY;
      }
    }

    /** vm_handle_lazy_fault */
    method LazyFault(faultAddr: Word) returns (r: bool)
      requires Inv()
      modifies state, spaces.ram, spaces.pmm`usedPages, spaces.pmm`firstFreeHint, spaces.pmm.bitmap, spaces.pmm.refcount
      ensures Inv()
      ensures faultAddr < HEAP_BASE || faultAddr >= HEAP_BASE + HEAP_PAGES * PAGE_SIZE ==>
        !r && state[..] == old(state[..]) && spaces.Mem() == old(spaces.Mem()) && spaces.pmm.View() == old(spaces.pmm.View())
      ensures HEAP_BASE <= faultAddr < HEAP_BASE + HEAP_PAGES * PAGE_SIZE ==>
        Touched(old(state[..]), old(spaces.Mem()), old(spaces.pmm.View()), state[..], spaces.Mem(), spaces.pmm.View(), spaces.dirs, spaces.Cur(),
                (faultAddr - HEAP_BASE) / PAGE_SIZE, r)
      ensures DataStays(old(spaces.Mem()), old(spaces.pmm.View()), spaces.Mem(), spaces.pmm.View(), spaces.dirs)
    {
      hide HeapOk, SpaceOk, IsTable, Decode, Exclusive, Tables, Lookup, SameMaps, LowestFree, BitsOf, CountUsed,
           MapDone, Touched, DataFrame, DataStays;
      ghost var mem, frames, st := spaces.Mem(), spaces.pmm.View(), state[..];
      ghost var dirs, kernel, d := spaces.dirs, spaces.kernelPd, spaces.Cur();
      SpaceFacts(mem, dirs, kernel, frames, d);
      DataStaysSelf(mem, frames, dirs);
      var page := faultAddr / PAGE_SIZE * PAGE_SIZE;
      if page < HEAP_BASE || page >= HEAP_BASE + HEAP_PAGES * PAGE_SIZE {
        return false;
      }
      var idx := (page - HEAP_BASE) / PAGE_SIZE;
      HighPage(idx);
      assert page / PAGE_SIZE == HEAP_FIRST + idx && page % PAGE_SIZE == 0 && idx == (faultAddr - HEAP_BASE) / PAGE_SIZE;
      SameMapsSelf(mem, dirs, kernel, frames);
      if state[idx] != LAZY {
        UntouchedState(st, mem, frames, dirs, kernel, d, idx);
        return false;
      }
      var frame := spaces.pmm.AllocPage();
      if frame == 0 {
        FullStays(frames);
        UntouchedFull(st, mem, frames, mem, dirs, kernel, d, idx);
        return false;
      }
      FramesTaken(mem, dirs, kernel, frames);
      LazyAbsent(st, mem, dirs, d, frames, others, idx);
      var mapped := spaces.MapPage(page, frame, Paging.Flags(true, true, false, false, false));
      ghost var mem1, frames1 := spaces.Mem(), spaces.pmm.View();
      ghost var e := Entry(frame / PAGE_SIZE, true, true, false, false);
      MapKeeps(mem, frames, mem1, frames1, dirs, d, HEAP_FIRST + idx, e, mapped);
      if !mapped {
        MapFailed(st, mem, frames, mem1, frames1, dirs, kernel, d, others, idx, frame / PAGE_SIZE, e);
        DataDropped(mem1, dirs, kernel, frames1, frame / PAGE_SIZE);
        spaces.pmm.RefDec(frame);
        DataStaysBack(mem, frames, mem1, frames1, dirs);
        return false;
      }
      ZeroPage(frame / PAGE_SIZE);
      ZeroKeeps(mem, frames, mem1, frames1, spaces.Mem(), dirs, kernel, d, HEAP_FIRST + idx, e, frame / PAGE_SIZE);
      PageReserved(st, mem, frames, mem1, frames1, spaces.Mem(), dirs, kernel, d, others, idx, frame / PAGE_SIZE);
      state[idx] := RESERVED;
      assert state[..] == st[idx := RESERVED];
      NowTouched(st, mem, frames, mem1, spaces.Mem(), frames1, dirs, d, idx, frame / PAGE_SIZE);
      return true;
    }

    /** The zeroing loop of vm_handle_lazy_fault, word by word. */
    method ZeroPage(f: nat)
      requires f < spaces.ram.Length
      modifies spaces.ram
      ensures spaces.ram[..] == old(spaces.ram[..])[f := ZeroFrame()]
    {
      for i := 0 to SLOTS
        invariant forall g :: 0 <= g < spaces.ram.Length && g != f ==> spaces.ram[g] == old(spaces.ram[g])
        invariant forall j :: 0 <= j < i ==> spaces.ram[f][j] == 0
      {
        spaces.ram[f] := spaces.ram[f][i := 0];
      }
      assert spaces.ram[f] == ZeroFrame();
    }

    /** One turn of the loop of free_virtual_pages on a page that is not free. */
    method ReleasePage(i: nat)
      requires Inv() && i < HEAP_PAGES && state[i] != FREE
      modifies state, spaces.ram, spaces.pmm`usedPages, spaces.pmm`firstFreeHint, spaces.pmm.bitmap, spaces.pmm.refcount
      ensures Inv() && state[..] == old(state[..])[i := FREE]
      ensures |old(spaces.Mem())| == FRAME_RANGE && (forall x :: x in spaces.dirs ==> x < FRAME_RANGE)
      ensures SameButPage(old(spaces.Mem()), spaces.Mem(), spaces.dirs, HEAP_FIRST + i)
      ensures OnlyReleased(old(spaces.Mem()), old(spaces.pmm.View()), spaces.Mem(), spaces.pmm.View(), spaces.dirs)
    {
      hide HeapOk, SpaceOk, IsTable, Decode, Exclusive, Tables, Lookup, LowestFree, BitsOf, CountUsed,
           ChangeDone, DataFrame, OnlyReleased;
      ghost var mem, frames, st := spaces.Mem(), spaces.pmm.View(), state[..];
      ghost var dirs, kernel, d := spaces.dirs, spaces.kernelPd, spaces.Cur();
      SpaceFacts(mem, dirs, kernel, frames, d);
      SameMapsSelf(mem, dirs, kernel, frames);
      HighPage(i);
      var vaddr := HEAP_BASE + i * PAGE_SIZE;
      assert vaddr / PAGE_SIZE == HEAP_FIRST + i && vaddr % PAGE_SIZE == 0;
      LookupFrame(mem, d, HEAP_FIRST + i);
      ReservedMapped(st, mem, dirs, d, frames, others, i);
      var mapped, phys, flags := spaces.GetMapping(vaddr);
      if mapped {
        var unmapped := spaces.UnmapPage(vaddr);
        ReleasedChange(mem, spaces.Mem(), frames, dirs, d, HEAP_FIRST + i, unmapped);
        PageReleased(st, mem, frames, spaces.Mem(), dirs, d, others, i, phys / PAGE_SIZE);
        DataDropped(spaces.Mem(), dirs, kernel, frames, phys / PAGE_SIZE);
        spaces.pmm.RefDec(phys / PAGE_SIZE * PAGE_SIZE);
        ReleaseKeeps(mem, spaces.Mem(), frames, dirs, d, HEAP_FIRST + i, unmapped, phys / PAGE_SIZE);
      } else {
        NothingReleased(mem, frames, dirs);
        StatesOnly(st, st[i := FREE], mem, dirs, d, frames, others);
      }
      state[i] := FREE;
      assert state[..] == st[i := FREE];
    }

    /** free_virtual_pages. It stops half way at the first page that is free already; the pages before
        it have then been freed. A range that passes although it is larger than the heap must meet such
        a page: without one the C code would run beyond its table. */
    method FreePages(addr: Word, count: Word) returns (r: bool, ghost stop: nat)
      requires Inv()
      requires Passes(addr, count) && !InHeap(addr, count) ==> exists i :: (addr - HEAP_BASE) / PAGE_SIZE <= i < HEAP_PAGES && state[i] == FREE
      modifies state, spaces.ram, spaces.pmm`usedPages, spaces.pmm`firstFreeHint, spaces.pmm.bitmap, spaces.pmm.refcount
      ensures Inv()
      ensures !Passes(addr, count) ==>
        r == (count == 0) && state[..] == old(state[..]) && spaces.Mem() == old(spaces.Mem()) && spaces.pmm.View() == old(spaces.pmm.View())
      ensures Passes(addr, count) ==>
        var first := (addr - HEAP_BASE) / PAGE_SIZE;
        && first <= stop <= first + count && stop <= HEAP_PAGES
        && (forall i :: first <= i < stop ==> old(state[..])[i] != FREE)
        && (stop < first + count ==> stop < HEAP_PAGES && old(state[..])[stop] == FREE)
        && r == (stop == first + count)
        && state[..] == Paint(old(state[..]), first, stop, FREE)
        && |old(spaces.Mem())| == FRAME_RANGE && (forall x :: x in spaces.dirs ==> x < FRAME_RANGE)
        && SameOutside(old(spaces.Mem()), spaces.Mem(), spaces.dirs, HEAP_FIRST + first, HEAP_FIRST + stop)
      ensures OnlyReleased(old(spaces.Mem()), old(spaces.pmm.View()), spaces.Mem(), spaces.pmm.View(), spaces.dirs)
    {
      hide HeapOk, SpaceOk, IsTable, Decode, Exclusive, Tables, Lookup, LowestFree, BitsOf, CountUsed,
           DataFrame, SameOutside, SameButPage, OnlyReleased;
      stop := 0;
      ghost var frames := spaces.pmm.View();
      SpaceFacts(spaces.Mem(), spaces.dirs, spaces.kernelPd, frames, spaces.Cur());
      NothingReleased(spaces.Mem(), frames, spaces.dirs);
      ghost var mem, st := spaces.Mem(), state[..];
      SameMapsSelf(mem, spaces.dirs, spaces.kernelPd, spaces.pmm.View());
      if count == 0 {
        return true, stop;
      }
      if addr % PAGE_SIZE != 0 {
        return false, stop;
      }
      var end := (addr + count * PAGE_SIZE) % WORD_RANGE;
      if addr < HEAP_BASE || end > HEAP_BASE + HEAP_PAGES * PAGE_SIZE || end < addr {
        return false, stop;
      }
      var first := (addr - HEAP_BASE) / PAGE_SIZE;
      PassesExactly(addr, count);
      stop := first;
      OutsideSelf(mem, spaces.dirs, HEAP_FIRST + first);
      for i := first to first + count
        invariant Inv() && stop == i <= HEAP_PAGES
        invariant spaces.dirs == old(spaces.dirs)
        invariant forall j :: first <= j < i ==> st[j] != FREE
        invariant state[..] == Paint(st, first, i, FREE)
        invariant OnlyReleased(mem, frames, spaces.Mem(), spaces.pmm.View(), spaces.dirs)
        invariant |spaces.Mem()| == FRAME_RANGE && SameOutside(mem, spaces.Mem(), spaces.dirs, HEAP_FIRST + first, HEAP_FIRST + i)
      {
        assert i < HEAP_PAGES;
        if state[i] == FREE {
          return false, stop;
        }
        ghost var mem1, frames1 := spaces.Mem(), spaces.pmm.View();
        ReleasePage(i);
        ReleasedTransitive(mem, frames, mem1, frames1, spaces.Mem(), spaces.pmm.View(), spaces.dirs);
        OutsideMore(mem, mem1, spaces.Mem(), spaces.dirs, HEAP_FIRST + first, HEAP_FIRST + i);
        stop := i + 1;
      }
      return true, stop;
    }
  }

  lemma NoEarlierRun(st: seq<PageState>, t: nat, count: nat, start: nat, i: nat)
    requires t < start && start + count == i + 1 && i < |st| && count > 0
    requires start > 0 ==> st[start - 1] != FREE
    requires forall s: nat :: s + count <= i ==> !IsRun(st, s, count)
    ensures !IsRun(st, t, count)
  {
  }

  /** A run that ends at `e` cannot begin before the free stretch that ends there. */
  lemma NoRunThrough(st: seq<PageState>, s: nat, count: nat, start: nat, e: nat)
    requires s + count == e <= |st| && start <= e && e - start < count
    ensures start > 0 && st[start - 1] != FREE ==> !IsRun(st, s, count)
  {
  }

  lemma LazyOk(st: seq<PageState>, st1: seq<PageState>, mem: Memory, dirs: set<nat>, d: nat, frames: Frames,
               others: set<nat>, s: nat, count: nat)
    requires HeapOk(st, mem, dirs, d, frames, others) && IsRun(st, s, count) && st1 == Paint(st, s, s + count, LAZY)
    ensures HeapOk(st1, mem, dirs, d, frames, others)
  {
    hide IsTable, Decode, Tables, Lookup, Held;
    StatesOnly(st, st1, mem, dirs, d, frames, others);
  }

  /** paging_init and vm_init one after the other, on a machine whose frame 0 is reserved: a heap with
      every page free, or none when a frame below 64 MiB is missing. */
  method StartHeap(pmm: FrameAllocator, ram: array<PageTables.Frame>) returns (h: KernelHeap?)
    requires pmm.Valid() && ram.Length == FRAME_RANGE
    requires 0 < pmm.totalPages && pmm.Used()[0] && pmm.refcount[0] == 0
    modifies pmm`usedPages, pmm`firstFreeHint, pmm.bitmap, pmm.refcount, ram
    ensures h != null ==>
      && fresh(h) && h.Inv() && h.spaces.pmm == pmm && h.spaces.ram == ram
      && (forall i :: 0 <= i < HEAP_PAGES ==> h.state[i] == FREE)
      && h.spaces.kernelPd < BOOT_PAGES && h.spaces.Cur() == h.spaces.kernelPd && BootMap(ram[..], h.spaces.kernelPd)
  {
    hide Lookup, SpaceOk, HeapOk, LowestFree, BitsOf, CountUsed, Tables, IsTable, Decode, Unmapped;
    h := null;
    var spaces := Boot(pmm, ram);
    if spaces != null {
      BootUnmapped(ram[..], spaces.kernelPd);
      h := new KernelHeap(spaces);
    }
  }
}
