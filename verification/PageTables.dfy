/** Two-level page tables in physical memory: what an entry write, a new table and a new directory do
    to the translations of every directory. */
module PageTables {
  import opened PageEntry

  const SLOTS: nat := 1024
  const USER_SLOTS: nat := 768        // slots below KERNEL_VIRT_BASE
  const RECURSIVE_SLOT: nat := 1023
  const WINDOW_START: nat := 0xF_FC00 // first page of the recursive window

  type Frame = s: seq<Word> | |s| == SLOTS witness seq(SLOTS, _ => 0)

  function ZeroFrame(): Frame { seq(SLOTS, _ => 0) }

  function EntryAt(mem: seq<Frame>, f: nat, j: nat): Entry
    requires f < |mem| && j < SLOTS
  {
    Decode(mem[f][j])
  }

  function SetWord(mem: seq<Frame>, f: nat, j: nat, w: Word): (r: seq<Frame>)
    requires f < |mem| && j < SLOTS
    ensures |r| == |mem|
  {
    mem[f := mem[f][j := w]]
  }

  /** The mapping of page `v` in directory `d`: its table entry, if both levels are present. */
  function Lookup(mem: seq<Frame>, d: nat, v: nat): (e: Entry)
    requires |mem| == FRAME_RANGE && d < FRAME_RANGE && v < FRAME_RANGE
  {
    var pde := EntryAt(mem, d, v / SLOTS);
    if pde.present then Mapping(EntryAt(mem, pde.frame, v % SLOTS)) else NO_ENTRY
  }

  /** User code can read page `v`, or write it (section 4.6 of the Intel SDM Volume 3A): both levels are
      present and marked for users, and writable for a store. */
  predicate UserCan(mem: seq<Frame>, d: nat, v: nat, store: bool)
    requires |mem| == FRAME_RANGE && d < FRAME_RANGE && v < FRAME_RANGE
  {
    var pde := EntryAt(mem, d, v / SLOTS);
    && pde.present && pde.user && (store ==> pde.writable)
    && var pte := EntryAt(mem, pde.frame, v % SLOTS);
       pte.present && pte.user && (store ==> pte.writable)
  }

  /** The directory words are as before, but for slot (d, i), which may have come up, and which is
      marked for users exactly if it was or `user` says so. */
  ghost predicate SlotsOpened(mem0: seq<Frame>, mem1: seq<Frame>, dirs: set<nat>, d: nat, i: nat, user: bool)
    requires |mem0| == |mem1| == FRAME_RANGE && i < SLOTS && d < FRAME_RANGE && forall x :: x in dirs ==> x < FRAME_RANGE
  {
    && (forall x, y :: x in dirs && 0 <= y < SLOTS && !(x == d && y == i) ==> mem1[x][y] == mem0[x][y])
    && var e0, e1 := EntryAt(mem0, d, i), EntryAt(mem1, d, i);
       && (e0.present ==> e1.present && e1.frame == e0.frame && e1.writable == e0.writable)
       && (e1.present ==> (e1.user <==> user || (e0.present && e0.user)))
  }

  function Mapping(e: Entry): Entry { if e.present then e else NO_ENTRY }

  /** The physical word that the processor reaches for `vaddr`, as (frame, index). */
  function Reach(mem: seq<Frame>, d: nat, vaddr: nat): (r: (nat, nat))
    requires |mem| == FRAME_RANGE && d < FRAME_RANGE && vaddr < WORD_RANGE
    requires EntryAt(mem, d, vaddr / 4096 / SLOTS).present
  {
    var table := EntryAt(mem, d, vaddr / 4096 / SLOTS).frame;
    (EntryAt(mem, table, vaddr / 4096 % SLOTS).frame, vaddr % 4096 / 4)
  }

  /** The last slot of a directory names the directory itself. */
  predicate Recursive(mem: seq<Frame>, d: nat)
    requires d < |mem|
  {
    var e := EntryAt(mem, d, RECURSIVE_SLOT);
    e.present && e.writable && e.frame == d
  }

  /** With a recursive last slot, the current directory shows at 0xFFFFF000 and its i-th table at
      0xFFC00000 + i * 4096. */
  lemma RecursiveWindow(mem: seq<Frame>, d: nat, i: nat, j: nat)
    requires |mem| == FRAME_RANGE && d < FRAME_RANGE && Recursive(mem, d) && i < SLOTS && j < SLOTS
    ensures Reach(mem, d, 0xFFFF_F000 + 4 * i) == (d, i)
    ensures Reach(mem, d, 0xFFC0_0000 + 4096 * i + 4 * j) == (EntryAt(mem, d, i).frame, j)
  {
    var a, b := 0xFFFF_F000 + 4 * i, 0xFFC0_0000 + 4096 * i + 4 * j;
    assert a / 4096 == 0xF_FFFF && a % 4096 == 4 * i;
    assert b / 4096 == 0xF_FC00 + i && b % 4096 == 4 * j;
    assert (0xF_FC00 + i) / SLOTS == RECURSIVE_SLOT && (0xF_FC00 + i) % SLOTS == i;
  }

  /** A set of directories, each recursive, none of which serves as a table; what their slots name
      may be written through them. */
  ghost predicate Tables(mem: seq<Frame>, dirs: set<nat>) {
    && |mem| == FRAME_RANGE
    && (forall d :: d in dirs ==> d < FRAME_RANGE && Recursive(mem, d))
    && (forall d, i :: d in dirs && 0 <= i < RECURSIVE_SLOT && EntryAt(mem, d, i).present ==>
          EntryAt(mem, d, i).frame !in dirs && EntryAt(mem, d, i).writable)
  }

  /** Slot (d, i) names table `f`. */
  ghost predicate NamesTable(mem: seq<Frame>, dirs: set<nat>, d: nat, i: nat, f: nat)
    requires Tables(mem, dirs)
  {
    d in dirs && i < RECURSIVE_SLOT && EntryAt(mem, d, i).present && EntryAt(mem, d, i).frame == f
  }

  ghost predicate IsTable(mem: seq<Frame>, dirs: set<nat>, f: nat)
    requires Tables(mem, dirs)
  {
    f in dirs || exists d: nat, i: nat :: NamesTable(mem, dirs, d, i, f)
  }

  /** No slot but (d, i) names the table that (d, i) names. */
  ghost predicate Exclusive(mem: seq<Frame>, dirs: set<nat>, d: nat, i: nat)
    requires Tables(mem, dirs) && d in dirs && i < RECURSIVE_SLOT
  {
    EntryAt(mem, d, i).present ==>
      forall d': nat, i': nat :: NamesTable(mem, dirs, d', i', EntryAt(mem, d, i).frame) ==> d' == d && i' == i
  }

  /** Tables for the user half of a directory other than the kernel's have one owner. */
  ghost predicate UserOwned(mem: seq<Frame>, dirs: set<nat>, kernel: nat)
    requires Tables(mem, dirs)
  {
    forall d: nat, i: nat :: d in dirs && d != kernel && i < USER_SLOTS ==> Exclusive(mem, dirs, d, i)
  }

  const HIGH_SLOTS: nat := 784   // slots past the kernel's copy of the boot identity map

  /** No slot but the i-th of some directory names the table that (d, i) names. */
  ghost predicate SameIndexOnly(mem: seq<Frame>, dirs: set<nat>, d: nat, i: nat)
    requires Tables(mem, dirs) && d in dirs && i < RECURSIVE_SLOT
  {
    EntryAt(mem, d, i).present ==>
      forall d': nat, i': nat :: NamesTable(mem, dirs, d', i', EntryAt(mem, d, i).frame) ==> i' == i
  }

  /** Tables for high kernel slots are shared between directories at one index only. */
  ghost predicate HighAligned(mem: seq<Frame>, dirs: set<nat>)
    requires Tables(mem, dirs)
  {
    forall d: nat, i: nat :: d in dirs && HIGH_SLOTS <= i < RECURSIVE_SLOT ==> SameIndexOnly(mem, dirs, d, i)
  }

  /** No translation of any directory differs but those of page `v`. */
  ghost predicate SameButPage(mem0: seq<Frame>, mem1: seq<Frame>, dirs: set<nat>, v: nat)
    requires |mem0| == |mem1| == FRAME_RANGE && forall x :: x in dirs ==> x < FRAME_RANGE
  {
    forall x: nat, y: nat :: x in dirs && y < WINDOW_START && y != v ==> Lookup(mem1, x, y) == Lookup(mem0, x, y)
  }

  /** Below the recursive window, no translation of any directory differs but that of page `v` in `d`. */
  ghost predicate SameBut(mem0: seq<Frame>, mem1: seq<Frame>, dirs: set<nat>, d: nat, v: nat)
    requires |mem0| == |mem1| == FRAME_RANGE && forall x :: x in dirs ==> x < FRAME_RANGE
  {
    forall x: nat, y: nat :: x in dirs && y < WINDOW_START && !(x == d && y == v) ==> Lookup(mem1, x, y) == Lookup(mem0, x, y)
  }

  ghost predicate SameMaps(mem0: seq<Frame>, mem1: seq<Frame>, dirs: set<nat>)
    requires |mem0| == |mem1| == FRAME_RANGE && forall x :: x in dirs ==> x < FRAME_RANGE
  {
    forall x: nat, y: nat :: x in dirs && y < WINDOW_START ==> Lookup(mem1, x, y) == Lookup(mem0, x, y)
  }

  /** Every slot of every directory names the frame it named before. */
  ghost predicate SameSlots(mem0: seq<Frame>, mem1: seq<Frame>, dirs: set<nat>)
    requires |mem0| == |mem1| == FRAME_RANGE && forall x :: x in dirs ==> x < FRAME_RANGE
  {
    forall d, i :: d in dirs && 0 <= i < SLOTS ==>
      var e0, e1 := EntryAt(mem0, d, i), EntryAt(mem1, d, i);
      e1.present == e0.present && e1.writable == e0.writable && e1.frame == e0.frame
  }

  /** Present slots stay present, and exclusive ones stay exclusive. */
  ghost predicate KeepsExclusive(mem0: seq<Frame>, mem1: seq<Frame>, dirs: set<nat>)
    requires Tables(mem0, dirs) && Tables(mem1, dirs)
  {
    forall d: nat, i: nat :: d in dirs && i < RECURSIVE_SLOT ==>
      && (Exclusive(mem0, dirs, d, i) ==> Exclusive(mem1, dirs, d, i))
      && (EntryAt(mem0, d, i).present ==> EntryAt(mem1, d, i).present)
  }

  lemma SameSlotsKeep(mem0: seq<Frame>, mem1: seq<Frame>, dirs: set<nat>, kernel: nat)
    requires Tables(mem0, dirs) && |mem1| == FRAME_RANGE && SameSlots(mem0, mem1, dirs)
    ensures Tables(mem1, dirs)
    ensures forall d: nat, i: nat, f: nat :: NamesTable(mem1, dirs, d, i, f) == NamesTable(mem0, dirs, d, i, f)
    ensures UserOwned(mem0, dirs, kernel) ==> UserOwned(mem1, dirs, kernel)
    ensures HighAligned(mem0, dirs) ==> HighAligned(mem1, dirs)
    ensures KeepsExclusive(mem0, mem1, dirs)
    ensures forall f: nat :: IsTable(mem1, dirs, f) == IsTable(mem0, dirs, f)
  {
    hide Decode;
    forall f: nat ensures IsTable(mem1, dirs, f) == IsTable(mem0, dirs, f) {
      assert forall d: nat, i: nat :: NamesTable(mem1, dirs, d, i, f) == NamesTable(mem0, dirs, d, i, f);
    }
    if HighAligned(mem0, dirs) {
      forall d: nat, i: nat | d in dirs && HIGH_SLOTS <= i < RECURSIVE_SLOT ensures SameIndexOnly(mem1, dirs, d, i) {
        assert SameIndexOnly(mem0, dirs, d, i);
        var f := EntryAt(mem0, d, i).frame;
        assert forall x: nat, y: nat :: NamesTable(mem1, dirs, x, y, f) == NamesTable(mem0, dirs, x, y, f);
      }
    }
    forall d: nat, i: nat | d in dirs && i < RECURSIVE_SLOT && Exclusive(mem0, dirs, d, i) ensures Exclusive(mem1, dirs, d, i) {
      var f := EntryAt(mem0, d, i).frame;
      assert forall x: nat, y: nat :: NamesTable(mem1, dirs, x, y, f) == NamesTable(mem0, dirs, x, y, f);
    }
  }

  /** Writing entry `j` of the table that slot (d, i) names changes one translation of `d`, and no
      other translation if the table is exclusive. */
  lemma EntryWritten(mem: seq<Frame>, dirs: set<nat>, d: nat, i: nat, j: nat, w: Word)
    requires Tables(mem, dirs) && d in dirs && i < RECURSIVE_SLOT && j < SLOTS && EntryAt(mem, d, i).present
    ensures var mem1 := SetWord(mem, EntryAt(mem, d, i).frame, j, w);
      && SameSlots(mem, mem1, dirs) && Tables(mem1, dirs)
      && Lookup(mem1, d, i * SLOTS + j) == Mapping(Decode(w))
      && (Exclusive(mem, dirs, d, i) ==> SameBut(mem, mem1, dirs, d, i * SLOTS + j))
      && (SameIndexOnly(mem, dirs, d, i) ==> SameButPage(mem, mem1, dirs, i * SLOTS + j))
  {
    hide Decode;
    var f := EntryAt(mem, d, i).frame;
    var mem1 := SetWord(mem, f, j, w);
    SameSlotsKeep(mem, mem1, dirs, 0);
    PageSplit(i, j);
    if SameIndexOnly(mem, dirs, d, i) {
      forall x: nat, y: nat | x in dirs && y < WINDOW_START && y != i * SLOTS + j
        ensures Lookup(mem1, x, y) == Lookup(mem, x, y)
      {
        var pde := EntryAt(mem, x, y / SLOTS);
        if pde.present && pde.frame == f {
          assert NamesTable(mem, dirs, x, y / SLOTS, f);
        }
      }
    }
    if Exclusive(mem, dirs, d, i) {
      forall x: nat, y: nat | x in dirs && y < WINDOW_START && !(x == d && y == i * SLOTS + j)
        ensures Lookup(mem1, x, y) == Lookup(mem, x, y)
      {
        var pde := EntryAt(mem, x, y / SLOTS);
        if pde.present && pde.frame == f {
          assert NamesTable(mem, dirs, x, y / SLOTS, f);
        }
      }
    }
  }

  lemma PageSplit(i: nat, j: nat)
    requires j < SLOTS
    ensures (i * SLOTS + j) / SLOTS == i && (i * SLOTS + j) % SLOTS == j
  {
  }

  /** A table that another slot names too leaks the write to that slot's pages. */
  lemma SharedTableLeaks(mem: seq<Frame>, dirs: set<nat>, d: nat, i: nat, j: nat, w: Word, d': nat, i': nat)
    requires Tables(mem, dirs) && d in dirs && i < RECURSIVE_SLOT && j < SLOTS && EntryAt(mem, d, i).present
    requires NamesTable(mem, dirs, d', i', EntryAt(mem, d, i).frame)
    ensures var mem1 := SetWord(mem, EntryAt(mem, d, i).frame, j, w);
      Lookup(mem1, d', i' * SLOTS + j) == Mapping(Decode(w))
  {
    hide Decode;
    PageSplit(i', j);
  }

  /** A write that changes a translation stays inside its directory exactly when the table is
      exclusive to the slot it was reached by. */
  lemma IsolatedIffExclusive(mem: seq<Frame>, dirs: set<nat>, d: nat, i: nat, j: nat, w: Word)
    requires Tables(mem, dirs) && d in dirs && i < RECURSIVE_SLOT && j < SLOTS && EntryAt(mem, d, i).present
    requires Mapping(Decode(w)) != Lookup(mem, d, i * SLOTS + j)
    ensures SameBut(mem, SetWord(mem, EntryAt(mem, d, i).frame, j, w), dirs, d, i * SLOTS + j) <==> Exclusive(mem, dirs, d, i)
  {
    hide Decode;
    EntryWritten(mem, dirs, d, i, j, w);
    var f := EntryAt(mem, d, i).frame;
    var mem1 := SetWord(mem, f, j, w);
    if !Exclusive(mem, dirs, d, i) {
      var d': nat, i': nat :| NamesTable(mem, dirs, d', i', f) && !(d' == d && i' == i);
      SharedTableLeaks(mem, dirs, d, i, j, w, d', i');
      PageSplit(i, j);
      PageSplit(i', j);
      assert Lookup(mem, d', i' * SLOTS + j) == Lookup(mem, d, i * SLOTS + j);
      var y := i' * SLOTS + j;
      assert d' in dirs && y < WINDOW_START && !(d' == d && y == i * SLOTS + j);
      assert Lookup(mem1, d', y) != Lookup(mem, d', y);
    }
  }

  /** A fresh frame: no directory, and no slot names it. */
  ghost predicate Fresh(mem: seq<Frame>, dirs: set<nat>, f: nat)
    requires Tables(mem, dirs)
  {
    f < FRAME_RANGE && !IsTable(mem, dirs, f)
  }

  /** The memory after an absent slot was pointed at a zeroed fresh frame. */
  function WithTable(mem: seq<Frame>, d: nat, i: nat, f: nat, user: bool): (r: seq<Frame>)
    requires |mem| == FRAME_RANGE && d < FRAME_RANGE && i < SLOTS && f < FRAME_RANGE
    ensures |r| == FRAME_RANGE
  {
    SetWord(mem, d, i, Encode(Entry(f, true, true, user, false)))[f := ZeroFrame()]
  }

  lemma ZeroFrameIsEmpty(j: nat)
    requires j < SLOTS
    ensures Mapping(Decode(ZeroFrame()[j])) == NO_ENTRY
  {
  }

  /** A new empty table changes no translation and has one owner. */
  lemma TableAdded(mem: seq<Frame>, dirs: set<nat>, kernel: nat, d: nat, i: nat, f: nat, user: bool)
    requires Tables(mem, dirs) && d in dirs && i < RECURSIVE_SLOT && !EntryAt(mem, d, i).present && Fresh(mem, dirs, f)
    ensures var mem1 := WithTable(mem, d, i, f, user);
      && Tables(mem1, dirs) && SameMaps(mem, mem1, dirs)
      && EntryAt(mem1, d, i) == Entry(f, true, true, user, false)
      && Exclusive(mem1, dirs, d, i)
      && (UserOwned(mem, dirs, kernel) ==> UserOwned(mem1, dirs, kernel))
      && (HighAligned(mem, dirs) ==> HighAligned(mem1, dirs))
      && KeepsExclusive(mem, mem1, dirs)
      && SlotsOpened(mem, mem1, dirs, d, i, user)
      && (forall x: nat :: IsTable(mem1, dirs, x) <==> x == f || IsTable(mem, dirs, x))
  {
    hide Decode, Encode;
    DecodeEncode(Entry(f, true, true, user, false));
    var mem1 := WithTable(mem, d, i, f, user);
    assert f !in dirs;
    assert forall x, y :: x in dirs && 0 <= y < SLOTS && !(x == d && y == i) ==> EntryAt(mem1, x, y) == EntryAt(mem, x, y);
    assert EntryAt(mem1, d, i) == Entry(f, true, true, user, false);
    AddedNames(mem, mem1, dirs, d, i, f);
    AddedOwners(mem, mem1, dirs, kernel, d, i, f);
    forall x: nat, y: nat | x in dirs && y < WINDOW_START ensures Lookup(mem1, x, y) == Lookup(mem, x, y) {
      ZeroFrameIsEmpty(y % SLOTS);
      var pde := EntryAt(mem, x, y / SLOTS);
      if pde.present {
        assert NamesTable(mem, dirs, x, y / SLOTS, pde.frame);
        assert pde.frame != f && pde.frame != d;
      }
    }
  }

  /** Slots after (d, i) was pointed at a fresh frame. */
  ghost predicate OneSlotMore(mem: seq<Frame>, mem1: seq<Frame>, dirs: set<nat>, d: nat, i: nat, f: nat)
    requires Tables(mem, dirs) && |mem1| == FRAME_RANGE
  {
    && d in dirs && i < RECURSIVE_SLOT && !EntryAt(mem, d, i).present && Fresh(mem, dirs, f)
    && EntryAt(mem1, d, i).present && EntryAt(mem1, d, i).writable && EntryAt(mem1, d, i).frame == f
    && forall x, y :: x in dirs && 0 <= y < SLOTS && !(x == d && y == i) ==> EntryAt(mem1, x, y) == EntryAt(mem, x, y)
  }

  lemma AddedNames(mem: seq<Frame>, mem1: seq<Frame>, dirs: set<nat>, d: nat, i: nat, f: nat)
    requires Tables(mem, dirs) && |mem1| == FRAME_RANGE && OneSlotMore(mem, mem1, dirs, d, i, f)
    ensures Tables(mem1, dirs)
    ensures forall x: nat, y: nat, t: nat :: NamesTable(mem1, dirs, x, y, t) <==>
      NamesTable(mem, dirs, x, y, t) || (x == d && y == i && t == f)
    ensures forall x: nat :: IsTable(mem1, dirs, x) <==> x == f || IsTable(mem, dirs, x)
  {
    hide Decode;
    assert NamesTable(mem1, dirs, d, i, f);
    forall x: nat ensures IsTable(mem1, dirs, x) <==> x == f || IsTable(mem, dirs, x) {
      if IsTable(mem, dirs, x) && x !in dirs {
        var y: nat, z: nat :| NamesTable(mem, dirs, y, z, x);
        assert NamesTable(mem1, dirs, y, z, x);
      }
      if IsTable(mem1, dirs, x) && x !in dirs && x != f {
        var y: nat, z: nat :| NamesTable(mem1, dirs, y, z, x);
        assert NamesTable(mem, dirs, y, z, x);
      }
    }
  }

  lemma AddedOwners(mem: seq<Frame>, mem1: seq<Frame>, dirs: set<nat>, kernel: nat, d: nat, i: nat, f: nat)
    requires Tables(mem, dirs) && |mem1| == FRAME_RANGE && OneSlotMore(mem, mem1, dirs, d, i, f)
    ensures Tables(mem1, dirs) && Exclusive(mem1, dirs, d, i)
    ensures UserOwned(mem, dirs, kernel) ==> UserOwned(mem1, dirs, kernel)
    ensures HighAligned(mem, dirs) ==> HighAligned(mem1, dirs)
    ensures KeepsExclusive(mem, mem1, dirs)
  {
    hide Decode;
    AddedNames(mem, mem1, dirs, d, i, f);
    forall x: nat, y: nat | NamesTable(mem1, dirs, x, y, f) ensures x == d && y == i {
      assert !NamesTable(mem, dirs, x, y, f);
    }
    if HighAligned(mem, dirs) {
      forall x: nat, y: nat | x in dirs && HIGH_SLOTS <= y < RECURSIVE_SLOT ensures SameIndexOnly(mem1, dirs, x, y) {
        assert SameIndexOnly(mem, dirs, x, y);
        if EntryAt(mem1, x, y).present && !(x == d && y == i) {
          var t := EntryAt(mem1, x, y).frame;
          assert NamesTable(mem, dirs, x, y, t) && t != f;
        }
      }
    }
    forall x: nat, y: nat | x in dirs && y < RECURSIVE_SLOT && Exclusive(mem, dirs, x, y) ensures Exclusive(mem1, dirs, x, y) {
      if EntryAt(mem1, x, y).present && !(x == d && y == i) {
        var t := EntryAt(mem1, x, y).frame;
        assert NamesTable(mem, dirs, x, y, t) && t != f;
      }
    }
  }

  /** A directory as paging_create_user_directory_phys fills it. */
  function NewDirectory(kernelDir: Frame, f: nat): (r: Frame)
    requires f < FRAME_RANGE
  {
    seq(SLOTS, i requires 0 <= i < SLOTS =>
      if i == RECURSIVE_SLOT then Encode(Entry(f, true, true, false, false))
      else if i >= USER_SLOTS then Without(kernelDir[i], USER)
      else 0)
  }

  /** A new directory maps nothing in its user half, shares the kernel's tables in the other, and
      changes no translation of any other directory. */
  lemma DirectoryAdded(mem: seq<Frame>, dirs: set<nat>, kernel: nat, f: nat)
    requires Tables(mem, dirs) && kernel in dirs && Fresh(mem, dirs, f)
    ensures var mem1 := mem[f := NewDirectory(mem[kernel], f)];
      && Tables(mem1, dirs + {f}) && SameMaps(mem, mem1, dirs)
      && (forall v: nat :: v < USER_SLOTS * SLOTS ==> Lookup(mem1, f, v) == NO_ENTRY)
      && (forall v: nat :: USER_SLOTS * SLOTS <= v < WINDOW_START ==> Lookup(mem1, f, v) == Lookup(mem, kernel, v))
      && (UserOwned(mem, dirs, kernel) ==> UserOwned(mem1, dirs + {f}, kernel))
      && (HighAligned(mem, dirs) ==> HighAligned(mem1, dirs + {f}))
      && (forall v: nat, store: bool :: v < FRAME_RANGE ==> !UserCan(mem1, f, v, store))
      && (forall x: nat :: IsTable(mem1, dirs + {f}, x) <==> x == f || IsTable(mem, dirs, x))
  {
    hide Decode, Encode, Without;
    var mem1 := mem[f := NewDirectory(mem[kernel], f)];
    NewSlots(mem[kernel], f);
    NewDirectoryNames(mem, mem1, dirs, kernel, f);
    forall x: nat, y: nat | x in dirs && y < WINDOW_START ensures Lookup(mem1, x, y) == Lookup(mem, x, y) {
      var pde := EntryAt(mem, x, y / SLOTS);
      if pde.present {
        assert NamesTable(mem, dirs, x, y / SLOTS, pde.frame);
      }
    }
    forall v: nat | USER_SLOTS * SLOTS <= v < WINDOW_START ensures Lookup(mem1, f, v) == Lookup(mem, kernel, v) {
      var pde := EntryAt(mem, kernel, v / SLOTS);
      if pde.present {
        assert NamesTable(mem, dirs, kernel, v / SLOTS, pde.frame);
      }
    }
    if UserOwned(mem, dirs, kernel) {
      NewDirectoryOwners(mem, mem1, dirs, kernel, f);
    }
    if HighAligned(mem, dirs) {
      NewDirectoryAligned(mem, mem1, dirs, kernel, f);
    }
  }

  lemma NewSlots(kernelDir: Frame, f: nat)
    requires f < FRAME_RANGE
    ensures forall i :: 0 <= i < USER_SLOTS ==> Decode(NewDirectory(kernelDir, f)[i]) == NO_ENTRY
    ensures forall i :: USER_SLOTS <= i < RECURSIVE_SLOT ==>
      Decode(NewDirectory(kernelDir, f)[i]) == Decode(kernelDir[i]).(user := false)
    ensures Decode(NewDirectory(kernelDir, f)[RECURSIVE_SLOT]) == Entry(f, true, true, false, false)
  {
    hide Encode, Without;
    DecodeEncode(Entry(f, true, true, false, false));
    forall i | USER_SLOTS <= i < RECURSIVE_SLOT
      ensures Decode(NewDirectory(kernelDir, f)[i]) == Decode(kernelDir[i]).(user := false)
    {
      DecodeWith(kernelDir[i], USER);
    }
  }

  /** What slots name once the directory `f` is there. */
  ghost predicate LikeKernel(mem: seq<Frame>, mem1: seq<Frame>, dirs: set<nat>, kernel: nat, f: nat)
    requires Tables(mem, dirs) && |mem1| == FRAME_RANGE
  {
    && kernel in dirs && Fresh(mem, dirs, f) && Recursive(mem1, f)
    && (forall x, y :: x in dirs && 0 <= y < SLOTS ==> EntryAt(mem1, x, y) == EntryAt(mem, x, y))
    && (forall y :: 0 <= y < USER_SLOTS ==> !EntryAt(mem1, f, y).present)
    && (forall y :: USER_SLOTS <= y < RECURSIVE_SLOT ==>
          && EntryAt(mem1, f, y).present == EntryAt(mem, kernel, y).present
          && EntryAt(mem1, f, y).writable == EntryAt(mem, kernel, y).writable
          && EntryAt(mem1, f, y).frame == EntryAt(mem, kernel, y).frame)
  }

  lemma NewDirectoryNames(mem: seq<Frame>, mem1: seq<Frame>, dirs: set<nat>, kernel: nat, f: nat)
    requires Tables(mem, dirs) && |mem1| == FRAME_RANGE && LikeKernel(mem, mem1, dirs, kernel, f)
    ensures Tables(mem1, dirs + {f})
    ensures forall x: nat, y: nat, t: nat :: NamesTable(mem1, dirs + {f}, x, y, t) <==>
      NamesTable(mem, dirs, x, y, t) || (x == f && USER_SLOTS <= y && NamesTable(mem, dirs, kernel, y, t))
    ensures forall x: nat :: IsTable(mem1, dirs + {f}, x) <==> x == f || IsTable(mem, dirs, x)
  {
    hide Decode;
    forall x, y | x in dirs + {f} && 0 <= y < RECURSIVE_SLOT && EntryAt(mem1, x, y).present
      ensures EntryAt(mem1, x, y).frame !in dirs + {f}
    {
      assert NamesTable(mem, dirs, if x == f then kernel else x, y, EntryAt(mem1, x, y).frame);
    }
    forall x: nat ensures IsTable(mem1, dirs + {f}, x) <==> x == f || IsTable(mem, dirs, x) {
      if IsTable(mem, dirs, x) && x !in dirs {
        var y: nat, z: nat :| NamesTable(mem, dirs, y, z, x);
        assert NamesTable(mem1, dirs + {f}, y, z, x);
      }
      if IsTable(mem1, dirs + {f}, x) && x !in dirs && x != f {
        var y: nat, z: nat :| NamesTable(mem1, dirs + {f}, y, z, x);
        assert NamesTable(mem, dirs, if y == f then kernel else y, z, x);
      }
    }
  }

  lemma NewDirectoryOwners(mem: seq<Frame>, mem1: seq<Frame>, dirs: set<nat>, kernel: nat, f: nat)
    requires Tables(mem, dirs) && |mem1| == FRAME_RANGE && LikeKernel(mem, mem1, dirs, kernel, f)
    requires Tables(mem1, dirs + {f}) && UserOwned(mem, dirs, kernel)
    ensures UserOwned(mem1, dirs + {f}, kernel)
  {
    hide Decode;
    NewDirectoryNames(mem, mem1, dirs, kernel, f);
    forall x: nat, y: nat | x in dirs + {f} && x != kernel && y < USER_SLOTS ensures Exclusive(mem1, dirs + {f}, x, y) {
      if x != f && EntryAt(mem1, x, y).present {
        assert Exclusive(mem, dirs, x, y);
        var t := EntryAt(mem, x, y).frame;
        assert forall x': nat, y': nat :: NamesTable(mem1, dirs + {f}, x', y', t) ==> x' == x && y' == y;
      }
    }
  }

  lemma NewDirectoryAligned(mem: seq<Frame>, mem1: seq<Frame>, dirs: set<nat>, kernel: nat, f: nat)
    requires Tables(mem, dirs) && |mem1| == FRAME_RANGE && LikeKernel(mem, mem1, dirs, kernel, f)
    requires Tables(mem1, dirs + {f}) && HighAligned(mem, dirs)
    ensures HighAligned(mem1, dirs + {f})
  {
    hide Decode;
    NewDirectoryNames(mem, mem1, dirs, kernel, f);
    forall x: nat, y: nat | x in dirs + {f} && HIGH_SLOTS <= y < RECURSIVE_SLOT ensures SameIndexOnly(mem1, dirs + {f}, x, y) {
      var x0 := if x == f then kernel else x;
      assert SameIndexOnly(mem, dirs, x0, y);
      if EntryAt(mem1, x, y).present {
        var t := EntryAt(mem1, x, y).frame;
        assert t == EntryAt(mem, x0, y).frame;
        forall x': nat, y': nat | NamesTable(mem1, dirs + {f}, x', y', t) ensures y' == y {
          assert NamesTable(mem, dirs, if x' == f then kernel else x', y', t);
        }
      }
    }
  }

  /** Setting the user bit of a slot changes no translation. */
  lemma UserBitSet(mem: seq<Frame>, dirs: set<nat>, d: nat, i: nat)
    requires Tables(mem, dirs) && d in dirs && i < RECURSIVE_SLOT
    ensures var mem1 := SetWord(mem, d, i, With(mem[d][i], USER));
      SameSlots(mem, mem1, dirs) && SameMaps(mem, mem1, dirs) && SlotsOpened(mem, mem1, dirs, d, i, true)
  {
    hide Decode, With;
    DecodeWith(mem[d][i], USER);
    var mem1 := SetWord(mem, d, i, With(mem[d][i], USER));
    forall x: nat, y: nat | x in dirs && y < WINDOW_START ensures Lookup(mem1, x, y) == Lookup(mem, x, y) {
      var pde := EntryAt(mem, x, y / SLOTS);
      if pde.present {
        assert NamesTable(mem, dirs, x, y / SLOTS, pde.frame);
      }
    }
  }

  /** A slot that was exclusive stays so while all slots name what they named. */
  lemma ExclusiveKept(mem0: seq<Frame>, mem1: seq<Frame>, dirs: set<nat>, d: nat, i: nat)
    requires Tables(mem0, dirs) && |mem1| == FRAME_RANGE && SameSlots(mem0, mem1, dirs) && d in dirs && i < RECURSIVE_SLOT
    ensures Tables(mem1, dirs) && (Exclusive(mem0, dirs, d, i) ==> Exclusive(mem1, dirs, d, i))
  {
    hide Decode;
    SameSlotsKeep(mem0, mem1, dirs, 0);
    if Exclusive(mem0, dirs, d, i) {
      var f := EntryAt(mem0, d, i).frame;
      assert forall x: nat, y: nat :: NamesTable(mem1, dirs, x, y, f) == NamesTable(mem0, dirs, x, y, f);
    }
  }

  lemma SameMapsThenPage(mem0: seq<Frame>, mem1: seq<Frame>, mem2: seq<Frame>, dirs: set<nat>, v: nat)
    requires |mem0| == |mem1| == |mem2| == FRAME_RANGE && forall x :: x in dirs ==> x < FRAME_RANGE
    requires SameMaps(mem0, mem1, dirs) && SameButPage(mem1, mem2, dirs, v)
    ensures SameButPage(mem0, mem2, dirs, v)
  {
  }

  lemma SameMapsThenBut(mem0: seq<Frame>, mem1: seq<Frame>, mem2: seq<Frame>, dirs: set<nat>, d: nat, v: nat)
    requires |mem0| == |mem1| == |mem2| == FRAME_RANGE && forall x :: x in dirs ==> x < FRAME_RANGE
    requires SameMaps(mem0, mem1, dirs) && SameBut(mem1, mem2, dirs, d, v)
    ensures SameBut(mem0, mem2, dirs, d, v)
  {
  }

  /** A word written in a table leaves the directories as they were. */
  lemma SlotsAfterEntry(mem0: seq<Frame>, mem1: seq<Frame>, dirs: set<nat>, d: nat, i: nat, user: bool, f: nat, j: nat, w: Word)
    requires Tables(mem0, dirs) && |mem1| == FRAME_RANGE && d in dirs && i < SLOTS && SlotsOpened(mem0, mem1, dirs, d, i, user)
    requires f < FRAME_RANGE && j < SLOTS && f !in dirs
    ensures SlotsOpened(mem0, SetWord(mem1, f, j, w), dirs, d, i, user)
  {
    hide Decode;
  }

  /** What user code can reach, read from a translation and its directory slot. */
  lemma UserReach(mem: seq<Frame>, dirs: set<nat>, d: nat, v: nat, store: bool)
    requires Tables(mem, dirs) && d in dirs && v < WINDOW_START
    ensures UserCan(mem, d, v, store) <==>
      Lookup(mem, d, v).present && EntryAt(mem, d, v / SLOTS).user && Lookup(mem, d, v).user && (store ==> Lookup(mem, d, v).writable)
  {
    hide Decode;
  }

  /** Opening a slot and changing the translation of one page opens no other page to users, except in
      the same slot and only pages that were marked for users already. */
  lemma NothingElseOpened(mem0: seq<Frame>, mem1: seq<Frame>, dirs: set<nat>, d: nat, v: nat, user: bool, x: nat, y: nat, store: bool)
    requires Tables(mem0, dirs) && Tables(mem1, dirs) && d in dirs && x in dirs && v < WINDOW_START && y < WINDOW_START
    requires SlotsOpened(mem0, mem1, dirs, d, v / SLOTS, user) && Lookup(mem1, x, y) == Lookup(mem0, x, y)
    ensures UserCan(mem1, x, y, store) ==>
      UserCan(mem0, x, y, store) || (user && x == d && y / SLOTS == v / SLOTS && Lookup(mem0, x, y).user)
    ensures UserCan(mem0, x, y, store) ==> UserCan(mem1, x, y, store)
  {
    hide Decode;
    UserReach(mem0, dirs, x, y, store);
    UserReach(mem1, dirs, x, y, store);
    assert !(x == d && y / SLOTS == v / SLOTS) ==> EntryAt(mem1, x, y / SLOTS) == EntryAt(mem0, x, y / SLOTS);
  }
}
