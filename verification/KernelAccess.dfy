/** What kernel code reaches when it reads or writes through the current directory, and what becomes
    of a directory that is filled that way. The kernel runs with the write-protect bit of CR0 set. */
module KernelAccess {
  import opened PageEntry
  import opened PageTables

  /** Stores to page `v` go through: both levels are present and writable. */
  predicate CanStore(mem: seq<Frame>, d: nat, v: nat)
    requires |mem| == FRAME_RANGE && d < FRAME_RANGE && v < FRAME_RANGE
  {
    var pde := EntryAt(mem, d, v / SLOTS);
    pde.present && pde.writable && EntryAt(mem, pde.frame, v % SLOTS).present && EntryAt(mem, pde.frame, v % SLOTS).writable
  }

  /** The slots that directories leave to their tables are writable, so the entry of a page decides. */
  lemma StoresWhereWritable(mem: seq<Frame>, dirs: set<nat>, d: nat, v: nat)
    requires Tables(mem, dirs) && d in dirs && v < FRAME_RANGE
    ensures CanStore(mem, d, v) <==> Lookup(mem, d, v).present && Lookup(mem, d, v).writable
  {
    hide Decode;
  }

  /** Through the recursive window every table of the current directory can be written, and the
      directory itself. */
  lemma WindowIsWritable(mem: seq<Frame>, dirs: set<nat>, d: nat, i: nat)
    requires Tables(mem, dirs) && d in dirs && i < SLOTS && EntryAt(mem, d, i).present
    ensures CanStore(mem, d, WINDOW_START + i) && Lookup(mem, d, WINDOW_START + i).frame == EntryAt(mem, d, i).frame
  {
    hide Decode;
    assert (WINDOW_START + i) / SLOTS == RECURSIVE_SLOT && (WINDOW_START + i) % SLOTS == i;
  }

  /** Frame `g` takes no part in the translation of page `v`. */
  predicate Aside(mem: seq<Frame>, d: nat, v: nat, g: nat)
    requires |mem| == FRAME_RANGE && d < FRAME_RANGE && v < FRAME_RANGE
  {
    var pde := EntryAt(mem, d, v / SLOTS);
    g != d && (pde.present ==> pde.frame != g)
  }

  lemma AsideStays(mem: seq<Frame>, d: nat, v: nat, g: nat, page: Frame)
    requires |mem| == FRAME_RANGE && d < FRAME_RANGE && v < FRAME_RANGE && g < FRAME_RANGE && Aside(mem, d, v, g)
    ensures var mem1 := mem[g := page];
      && Lookup(mem1, d, v) == Lookup(mem, d, v) && CanStore(mem1, d, v) == CanStore(mem, d, v)
  {
    hide Decode;
  }

  /** The first `n` words of a frame cleared. */
  function Zeroed(page: Frame, n: nat): (r: Frame) {
    seq(SLOTS, i requires 0 <= i < SLOTS => if i < n then 0 else page[i])
  }

  /** Clearing words of a frame moves no page elsewhere: a page is mapped as before or not at all. */
  lemma ZeroedLookup(mem: seq<Frame>, d: nat, v: nat, g: nat, n: nat)
    requires |mem| == FRAME_RANGE && d < FRAME_RANGE && v < FRAME_RANGE && g < FRAME_RANGE
    ensures var mem1 := mem[g := Zeroed(mem[g], n)];
      && (Lookup(mem1, d, v).present ==> Lookup(mem1, d, v) == Lookup(mem, d, v))
      && (CanStore(mem1, d, v) ==> CanStore(mem, d, v))
      && (n >= SLOTS && !Aside(mem, d, v, g) ==> !Lookup(mem1, d, v).present && !CanStore(mem1, d, v))
  {
    hide Decode;
    var mem1 := mem[g := Zeroed(mem[g], n)];
    ZeroIsAbsent();
    assert forall x, j :: 0 <= x < FRAME_RANGE && 0 <= j < SLOTS ==> mem1[x][j] == mem[x][j] || mem1[x][j] == 0;
    assert n >= SLOTS ==> forall j :: 0 <= j < SLOTS ==> mem1[g][j] == 0;
  }

  lemma ZeroIsAbsent()
    ensures Decode(0) == NO_ENTRY
  {
  }

  /** A directory under construction: the words from 768 up to `n` are copied. */
  function Half(src: Frame, n: nat): (r: Frame) {
    seq(SLOTS, i requires 0 <= i < SLOTS => if USER_SLOTS <= i < n then Without(src[i], USER) else 0)
  }

  /** Where the copied half comes from, if the frame being filled is `g`: clearing it comes first. */
  function Source(mem: seq<Frame>, k: nat, g: nat): Frame
    requires k < |mem|
  {
    if k == g then ZeroFrame() else mem[k]
  }

  /** The first `n` words of what page `f` shows are cleared; none exactly when the page cannot be
      written. */
  ghost predicate Cleared(mem: seq<Frame>, mem1: seq<Frame>, d: nat, f: nat, n: nat)
    requires |mem| == FRAME_RANGE && d < FRAME_RANGE && f < FRAME_RANGE
  {
    var g := Lookup(mem, d, f).frame;
    g < FRAME_RANGE && n <= SLOTS && (n == 0 <==> !CanStore(mem, d, f)) && mem1 == mem[g := Zeroed(mem[g], n)]
  }

  /** A page that is mapped or absent: the frame of its entry is in range. */
  lemma TargetInRange(mem: seq<Frame>, d: nat, v: nat)
    requires |mem| == FRAME_RANGE && d < FRAME_RANGE && v < FRAME_RANGE
    ensures Lookup(mem, d, v).frame < FRAME_RANGE && (CanStore(mem, d, v) ==> Lookup(mem, d, v).present)
  {
    hide Decode;
  }

  datatype Creation = NoFrame | Fault | Created(phys: nat)

  /** All accesses of filling frame `f` are possible, wherever they lead. */
  ghost predicate Possible(mem: seq<Frame>, d: nat, kernel: nat, f: nat)
    requires |mem| == FRAME_RANGE && d < FRAME_RANGE && kernel < FRAME_RANGE && f < FRAME_RANGE
  {
    var g := Lookup(mem, d, f).frame;
    CanStore(mem, d, f) && Lookup(mem, d, kernel).present && Aside(mem, d, f, g) && Aside(mem, d, kernel, g)
  }

  /** What filling frame `f` as a directory comes to when it is done through the pages `f` and
      `kernel` of directory `d`: a fault, if one of them is missing, is read-only, or is cut off by
      the clearing itself; else the words of a new directory, in the frame that page `f` shows. */
  ghost predicate Attempted(mem: seq<Frame>, mem1: seq<Frame>, d: nat, kernel: nat, f: nat, c: Creation)
    requires |mem| == FRAME_RANGE && d < FRAME_RANGE && kernel < FRAME_RANGE && f < FRAME_RANGE
  {
    var g, k := Lookup(mem, d, f).frame, Lookup(mem, d, kernel).frame;
    g < FRAME_RANGE && k < FRAME_RANGE &&
    if Possible(mem, d, kernel, f) then
      c == Created(f * FRAME_BYTES) && mem1 == mem[g := NewDirectory(Source(mem, k, g), f)]
    else
      c == Fault && exists n: nat :: Cleared(mem, mem1, d, f, n)
  }

  lemma AttemptEnds(mem: seq<Frame>, mem1: seq<Frame>, mem2: seq<Frame>, d: nat, kernel: nat, f: nat, n: nat, c: Creation)
    requires |mem| == FRAME_RANGE && d < FRAME_RANGE && kernel < FRAME_RANGE && f < FRAME_RANGE
    requires Cleared(mem, mem1, d, f, n) && Lookup(mem, d, kernel).frame < FRAME_RANGE
    requires if Possible(mem, d, kernel, f) then
        c == Created(f * FRAME_BYTES)
        && mem2 == mem[Lookup(mem, d, f).frame := NewDirectory(Source(mem, Lookup(mem, d, kernel).frame, Lookup(mem, d, f).frame), f)]
      else c == Fault && mem2 == mem1
    ensures Attempted(mem, mem2, d, kernel, f, c)
  {
  }

  /** Pages `f` and `kernel` of directory `d` show the frames of the same numbers. */
  ghost predicate GoesThrough(mem: seq<Frame>, d: nat, kernel: nat, f: nat)
    requires |mem| == FRAME_RANGE && d < FRAME_RANGE && kernel < FRAME_RANGE && f < FRAME_RANGE
  {
    CanStore(mem, d, f) && Lookup(mem, d, f).frame == f && Lookup(mem, d, kernel).present && Lookup(mem, d, kernel).frame == kernel
  }

  /** The frame now holds a directory of its own with the kernel's upper half. */
  ghost predicate Made(mem: seq<Frame>, mem1: seq<Frame>, kernel: nat, f: nat, c: Creation)
    requires |mem| == |mem1| == FRAME_RANGE && kernel < FRAME_RANGE && f < FRAME_RANGE
  {
    c == Created(f * FRAME_BYTES) && mem1[f] == NewDirectory(mem[kernel], f)
  }

  /** A fresh frame takes no part in any translation. */
  lemma FreshIsAside(mem: seq<Frame>, dirs: set<nat>, d: nat, v: nat, f: nat)
    requires Tables(mem, dirs) && d in dirs && v < FRAME_RANGE && Fresh(mem, dirs, f)
    ensures Aside(mem, d, v, f)
  {
    hide Decode;
    var pde := EntryAt(mem, d, v / SLOTS);
    if pde.present && v / SLOTS < RECURSIVE_SLOT {
      assert NamesTable(mem, dirs, d, v / SLOTS, pde.frame);
    }
  }

  /** A frame that did not happen to hold the words already is made a directory exactly when page `f`
      shows it and page `kernel` shows the words of the kernel's directory, as it does in particular
      when both show the frames of the same numbers. */
  lemma MadeExactly(mem: seq<Frame>, mem1: seq<Frame>, dirs: set<nat>, d: nat, kernel: nat, f: nat, c: Creation)
    requires Tables(mem, dirs) && d in dirs && kernel in dirs && Fresh(mem, dirs, f)
    requires Attempted(mem, mem1, d, kernel, f, c)
    requires mem[f] != NewDirectory(mem[kernel], f)
    ensures |mem1| == FRAME_RANGE
    ensures Made(mem, mem1, kernel, f, c) <==>
      && CanStore(mem, d, f) && Lookup(mem, d, f).frame == f && Lookup(mem, d, kernel).present
      && NewDirectory(Source(mem, Lookup(mem, d, kernel).frame, f), f) == NewDirectory(mem[kernel], f)
    ensures GoesThrough(mem, d, kernel, f) ==>
      Made(mem, mem1, kernel, f, c) && mem1 == mem[f := NewDirectory(mem[kernel], f)]
  {
    hide Decode, NewDirectory, CanStore, Zeroed;
    FreshIsAside(mem, dirs, d, f, f);
    FreshIsAside(mem, dirs, d, kernel, f);
  }

  /** Where page `f` is not mapped, creation faults before it changes a word. */
  lemma UnmappedFaults(mem: seq<Frame>, mem1: seq<Frame>, d: nat, kernel: nat, f: nat, c: Creation)
    requires |mem| == FRAME_RANGE && d < FRAME_RANGE && kernel < FRAME_RANGE && f < FRAME_RANGE
    requires Attempted(mem, mem1, d, kernel, f, c) && !Lookup(mem, d, f).present
    ensures c == Fault && mem1 == mem
  {
    hide Decode;
    var n: nat :| Cleared(mem, mem1, d, f, n);
    assert Zeroed(mem[Lookup(mem, d, f).frame], 0) == mem[Lookup(mem, d, f).frame];
  }

  /** From a directory that was just created, a second one cannot be made in a frame whose number lies
      in the user half: that half is empty. */
  lemma FreshDirectoryFaults(mem: seq<Frame>, mem1: seq<Frame>, mem2: seq<Frame>, dirs: set<nat>, kernel: nat, d: nat, f: nat, c: Creation)
    requires Tables(mem, dirs) && kernel in dirs && Fresh(mem, dirs, d) && mem1 == mem[d := NewDirectory(mem[kernel], d)]
    requires f < USER_SLOTS * SLOTS && kernel < FRAME_RANGE && Attempted(mem1, mem2, d, kernel, f, c)
    ensures c == Fault && mem2 == mem1
  {
    hide Decode, Tables, Fresh, NewDirectory;
    FreshDirectoryEmpty(mem, dirs, kernel, d, f);
    UnmappedFaults(mem1, mem2, d, kernel, f, c);
  }

  lemma FreshDirectoryEmpty(mem: seq<Frame>, dirs: set<nat>, kernel: nat, d: nat, f: nat)
    requires Tables(mem, dirs) && kernel in dirs && Fresh(mem, dirs, d) && f < USER_SLOTS * SLOTS
    ensures |mem| == FRAME_RANGE && d < FRAME_RANGE && !Lookup(mem[d := NewDirectory(mem[kernel], d)], d, f).present
  {
    hide Decode, NewDirectory;
    DirectoryAdded(mem, dirs, kernel, d);
  }

  /** One word more cleared. */
  lemma ZeroedMore(mem: seq<Frame>, g: nat, n: nat)
    requires g < |mem| && n < SLOTS
    ensures SetWord(mem[g := Zeroed(mem[g], n)], g, n, 0) == mem[g := Zeroed(mem[g], n + 1)]
  {
    assert Zeroed(mem[g], n)[n := 0] == Zeroed(mem[g], n + 1);
  }

  lemma ZeroedEnds(page: Frame, src: Frame)
    ensures Zeroed(page, 0) == page && Zeroed(page, SLOTS) == ZeroFrame() == Half(src, USER_SLOTS)
  {
  }

  /** One word more copied, read from page k while frame g is filled. */
  lemma HalfMore(mem: seq<Frame>, k: nat, g: nat, i: nat)
    requires k < |mem| && g < |mem| && USER_SLOTS <= i < RECURSIVE_SLOT
    ensures var mem1 := mem[g := Half(Source(mem, k, g), i)];
      SetWord(mem1, g, i, Without(mem1[k][i], USER)) == mem[g := Half(Source(mem, k, g), i + 1)]
  {
    var src := Source(mem, k, g);
    assert Half(src, i)[i := Without(src[i], USER)] == Half(src, i + 1);
  }

  lemma HalfEnds(src: Frame, f: nat)
    requires f < FRAME_RANGE
    ensures Half(src, RECURSIVE_SLOT)[RECURSIVE_SLOT := Encode(Entry(f, true, true, false, false))] == NewDirectory(src, f)
  {
    hide Encode;
  }

  lemma ClearedAll(mem: seq<Frame>, mem1: seq<Frame>, d: nat, f: nat, n: nat)
    requires |mem| == FRAME_RANGE && d < FRAME_RANGE && f < FRAME_RANGE && Cleared(mem, mem1, d, f, n)
    ensures Lookup(mem, d, f).frame < FRAME_RANGE
    ensures n == SLOTS ==> CanStore(mem, d, f) && mem1 == mem[Lookup(mem, d, f).frame := ZeroFrame()]
  {
    hide Decode, CanStore, Lookup, Zeroed;
    ZeroedEnds(mem[Lookup(mem, d, f).frame], ZeroFrame());
  }
}
