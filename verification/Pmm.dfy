/** mem/pmm.c: physical frames, allocated lowest first from a bitmap, with reference counts. */
module Pmm {
  import opened WordBits

  const PAGE_SIZE: nat := 4096
  const MAX_PAGES: nat := 0x10_0000
  const BITMAP_WORDS: nat := 0x8000
  const REF_CAP: nat := 0xFFFF

  /** How many of the first `n` frames are in use. */
  function CountUsed(u: seq<bool>, n: nat): (c: nat)
    requires n <= |u|
    ensures c <= n
  {
    if n == 0 then 0 else CountUsed(u, n - 1) + if u[n - 1] then 1 else 0
  }

  lemma {:induction false} CountAfter(u: seq<bool>, n: nat, p: nat, b: bool)
    requires n <= |u| && p < |u|
    ensures CountUsed(u[p := b], n) == CountUsed(u, n) + if p < n && u[p] != b then (if b then 1 else -1) else 0
  {
    if n > 0 {
      CountAfter(u, n - 1, p, b);
    }
  }

  /** The lowest frame below `n` that is not in use, or `n`. */
  function LowestFree(u: seq<bool>, n: nat): (p: nat)
    requires n <= |u|
    ensures p <= n && (p < n ==> !u[p]) && forall q :: 0 <= q < p ==> u[q]
  {
    if n == 0 then 0
    else
      var p := LowestFree(u, n - 1);
      if p == n - 1 && u[p] then n else p
  }

  lemma LowestIs(u: seq<bool>, n: nat, p: nat)
    requires n <= |u| && p <= n && (p < n ==> !u[p]) && forall q :: 0 <= q < p ==> u[q]
    ensures LowestFree(u, n) == p
  {
  }

  /** There is a free frame exactly when fewer frames are in use than there are. */
  lemma {:induction false} FreeMeansRoom(u: seq<bool>, n: nat)
    requires n <= |u|
    ensures LowestFree(u, n) == n <==> CountUsed(u, n) == n
  {
    if n > 0 {
      FreeMeansRoom(u, n - 1);
    }
  }

  type RefCount = n: nat | n <= REF_CAP

  /** The frames as callers know them: how many there are, which are in use, and how often each one
      is referenced. */
  datatype Frames = Frames(total: nat, used: seq<bool>, refs: seq<RefCount>) {
    /** Frames beyond the end are never free, and a free frame has no references. */
    ghost predicate Sound() {
      && total <= MAX_PAGES && |used| == |refs| == MAX_PAGES
      && (forall p :: total <= p < MAX_PAGES ==> used[p])
      && (forall p :: 0 <= p < MAX_PAGES && !used[p] ==> refs[p] == 0)
    }

    /** The lowest frame below `limit` taken with one reference; nothing when there is none. */
    ghost function Taken(limit: nat): (r: Frames)
      requires Sound() && limit <= MAX_PAGES
      ensures r.Sound() && r.total == total
    {
      var p := LowestFree(used, limit);
      if p < limit then Frames(total, used[p := true], refs[p := 1]) else this
    }

    /** One reference dropped; the last one frees the frame. */
    ghost function Dropped(p: nat): (r: Frames)
      requires Sound()
      ensures r.Sound() && r.total == total
    {
      if p >= total || !used[p] || refs[p] == 0 then this
      else if refs[p] > 1 then Frames(total, used, refs[p := refs[p] - 1])
      else Frames(total, used[p := false], refs[p := 0])
    }

    ghost function Added(p: nat): (r: Frames)
      requires Sound()
      ensures r.Sound() && r.total == total
    {
      if p >= total || !used[p] || refs[p] == REF_CAP then this
      else Frames(total, used, refs[p := refs[p] + 1])
    }

    ghost function Marked(p: nat): (r: Frames)
      requires Sound()
      ensures r.Sound() && r.total == total
    {
      if p >= total then this else Frames(total, used[p := true], refs[p := if refs[p] == 0 then 1 else refs[p]])
    }
  }

  /** Taking a frame and dropping its reference gives back the frames as they were. */
  lemma TakeThenDrop(f: Frames, limit: nat)
    requires f.Sound() && limit <= MAX_PAGES && LowestFree(f.used, limit) < limit
    ensures f.Taken(limit).Dropped(LowestFree(f.used, limit)) == f
  {
    var p := LowestFree(f.used, limit);
    assert p < f.total;
    assert f.used[p := true][p := false] == f.used && f.refs[p := 1][p := 0] == f.refs;
  }

  /** A reference added below the cap is undone by dropping it, if the frame had one already. */
  lemma AddThenDrop(f: Frames, p: nat)
    requires f.Sound() && p < f.total && f.used[p] && 0 < f.refs[p] < REF_CAP
    ensures f.Added(p).Dropped(p) == f
  {
    assert f.refs[p := f.refs[p] + 1][p := f.refs[p]] == f.refs;
  }

  /** At the cap a reference is lost: two owners, one count, and the first drop is one too many. */
  lemma SaturationLosesAReference(f: Frames, p: nat)
    requires f.Sound() && p < f.total && f.used[p] && f.refs[p] == REF_CAP
    ensures f.Added(p) == f && f.Added(p).Dropped(p) != f
  {
    assert f.refs[p := REF_CAP - 1][p] != f.refs[p];
  }

  /** What the four operations do to one frame: a frame that is taken gets one reference, the last
      reference dropped frees it, adding stops at the cap, marking gives a reference to one that has none. */
  lemma OneFrame(f: Frames, limit: nat, p: nat)
    requires f.Sound() && limit <= MAX_PAGES && p < MAX_PAGES
    ensures var q, t := LowestFree(f.used, limit), f.Taken(limit);
      && (q < limit ==> t.used[q] && t.refs[q] == 1)
      && (forall k :: 0 <= k < MAX_PAGES && (k != q || q == limit) ==> t.used[k] == f.used[k] && t.refs[k] == f.refs[k])
    ensures var counted := p < f.total && f.used[p];
      && f.Dropped(p).used[p] == (f.used[p] && !(counted && f.refs[p] == 1))
      && f.Dropped(p).refs[p] == (if counted && f.refs[p] > 0 then f.refs[p] - 1 else f.refs[p])
      && f.Added(p).used[p] == f.used[p]
      && f.Added(p).refs[p] == (if counted && f.refs[p] < 0xFFFF then f.refs[p] + 1 else f.refs[p])
      && f.Marked(p).used[p] == (f.used[p] || p < f.total)
      && f.Marked(p).refs[p] == (if p < f.total && f.refs[p] == 0 then 1 else f.refs[p])
    ensures forall k :: 0 <= k < MAX_PAGES && k != p ==>
      && f.Dropped(p).used[k] == f.Added(p).used[k] == f.Marked(p).used[k] == f.used[k]
      && f.Dropped(p).refs[k] == f.Added(p).refs[k] == f.Marked(p).refs[k] == f.refs[k]
    ensures f.Marked(p).Marked(p) == f.Marked(p)
  {
  }

  /** Marking a free frame and dropping its reference gives back the frames as they were. */
  lemma MarkThenDrop(f: Frames, p: nat)
    requires f.Sound() && p < f.total && !f.used[p]
    ensures f.Marked(p).Dropped(p) == f
  {
    assert f.used[p := true][p := false] == f.used && f.refs[p := 1][p := 0] == f.refs;
  }

  const FOUR_GIB: nat := 0x1_0000_0000

  /** A range of physical bytes. */
  datatype Range = Range(base: nat, length: nat)

  /** A frame that shares a byte with a range. */
  predicate Touches(r: Range, p: nat) {
    r.length > 0 && r.base < (p + 1) * PAGE_SIZE && p * PAGE_SIZE < r.base + r.length
  }

  /** A frame touches a range exactly if one of its bytes is in the range. */
  lemma TouchesAByte(r: Range, p: nat)
    ensures Touches(r, p) <==> exists a: nat :: r.base <= a < r.base + r.length && a / 4096 == p
  {
    if Touches(r, p) {
      var a := if r.base > p * PAGE_SIZE then r.base else p * PAGE_SIZE;
      assert r.base <= a < r.base + r.length && a / 4096 == p;
    }
  }

  /** The part of an available range that pmm_init frees: clipped at 4 GiB, its length in 32 bits. */
  function Clipped(r: Range): Range {
    if r.length == 0 || r.base >= FOUR_GIB then Range(0, 0)
    else Range(r.base, ((if r.base + r.length > FOUR_GIB then FOUR_GIB else r.base + r.length) - r.base) % FOUR_GIB)
  }

  /** Clipping loses nothing below 4 GiB, except all of a range that spans the whole 4 GiB: its length
      wraps to zero. */
  lemma ClippedFrees(r: Range, p: nat)
    requires p < MAX_PAGES
    ensures Touches(Clipped(r), p) <==> Touches(r, p) && !(r.base == 0 && r.length >= FOUR_GIB)
  {
  }

  /** The part of a reserved range that mark_region_used marks. Its last page is computed in 32 bits: a
      range that passes 4 GiB is marked at one page or not at all. */
  function Marked(r: Range): Range {
    if r.length == 0 || r.base + r.length <= FOUR_GIB then r
    else if (r.base + r.length - 1) % FOUR_GIB / PAGE_SIZE == r.base / PAGE_SIZE then Range(r.base, 1)
    else Range(0, 0)
  }

  /** A reserved range that ends by 4 GiB is marked in full. A longer one is marked at its first frame,
      if its end, wrapped around, lies in that frame too, and nowhere else. */
  lemma MarkedTouches(r: Range)
    requires r.base < FOUR_GIB && 0 < r.length < FOUR_GIB
    ensures r.base + r.length <= FOUR_GIB ==> forall p :: Touches(Marked(r), p) <==> Touches(r, p)
    ensures r.base + r.length > FOUR_GIB ==>
      (Touches(Marked(r), r.base / PAGE_SIZE) <==> (r.base + r.length - 1 - FOUR_GIB) / PAGE_SIZE == r.base / PAGE_SIZE)
      && forall p: nat :: p != r.base / PAGE_SIZE ==> !Touches(Marked(r), p)
  {
  }

  /** Two pages reserved at the last page below 4 GiB: neither is marked. */
  lemma LastPageNotMarked()
    ensures var r := Range(0xFFFF_F000, 0x2000); Touches(r, 0xF_FFFF) && forall p :: 0 <= p < MAX_PAGES ==> !Touches(Marked(r), p)
  {
  }

  /** Pages up to the end of a range, at most 2^20. */
  function PagesUpTo(end: nat): (n: nat)
    ensures n <= MAX_PAGES && (n > 0 ==> (n - 1) * PAGE_SIZE < end) && (n < MAX_PAGES ==> end <= n * PAGE_SIZE)
  {
    ((if end > FOUR_GIB then FOUR_GIB else end) + PAGE_SIZE - 1) / PAGE_SIZE
  }

  lemma PagesCover(r: Range, p: nat)
    requires p < MAX_PAGES && Touches(Clipped(r), p)
    ensures p < PagesUpTo(r.base + r.length)
  {
  }

  /** The end of the highest available range, in pages. */
  function Detected(avail: seq<Range>): (n: nat)
    ensures n <= MAX_PAGES
    ensures forall i :: 0 <= i < |avail| && avail[i].length > 0 ==> PagesUpTo(avail[i].base + avail[i].length) <= n
    ensures n > 0 ==> exists i :: 0 <= i < |avail| && avail[i].length > 0 && PagesUpTo(avail[i].base + avail[i].length) == n
  {
    if avail == [] then 0
    else
      var n := Detected(avail[..|avail| - 1]);
      var r := avail[|avail| - 1];
      if r.length > 0 && PagesUpTo(r.base + r.length) > n then PagesUpTo(r.base + r.length) else n
  }

  predicate AnyTouches(rs: seq<Range>, p: nat) { exists i :: 0 <= i < |rs| && Touches(Marked(rs[i]), p) }

  predicate AnyFrees(rs: seq<Range>, p: nat) { exists i :: 0 <= i < |rs| && Touches(Clipped(rs[i]), p) }

  lemma NothingDetected(avail: seq<Range>)
    ensures avail[..0] == [] && Detected(avail[..0]) == 0 && forall p: nat :: !AnyFrees(avail[..0], p)
  {
  }

  lemma DetectedNext(avail: seq<Range>, k: nat)
    requires k < |avail|
    ensures var n, r := Detected(avail[..k]), avail[k];
      Detected(avail[..k + 1]) == if r.length > 0 && PagesUpTo(r.base + r.length) > n then PagesUpTo(r.base + r.length) else n
  {
    assert avail[..k + 1][..k] == avail[..k];
  }

  lemma NoneBeyond(avail: seq<Range>, p: nat)
    requires Detected(avail) <= p < MAX_PAGES
    ensures !AnyFrees(avail, p)
  {
    if AnyFrees(avail, p) {
      var i :| 0 <= i < |avail| && Touches(Clipped(avail[i]), p);
      PagesCover(avail[i], p);
    }
  }

  /** The pages from `first` to `last` set to `b`, as the region loops leave them. */
  ghost predicate Painted(u0: seq<bool>, u1: seq<bool>, r: Range, n: nat, b: bool) {
    && |u0| == |u1| == MAX_PAGES
    && forall p :: 0 <= p < MAX_PAGES ==> u1[p] == if p < n && Touches(r, p) then b else u0[p]
  }

  /** The frames that a bitmap marks. */
  function BitsOf(words: seq<bv32>): (u: seq<bool>)
    requires |words| == BITMAP_WORDS
    ensures |u| == MAX_PAGES
  {
    seq(MAX_PAGES, p requires 0 <= p < MAX_PAGES => Bit(words[p / 32], p % 32))
  }

  lemma WordSet(was: seq<bv32>, now: seq<bv32>, page: nat)
    requires |was| == BITMAP_WORDS && page < MAX_PAGES
    requires now == was[page / 32 := Set(was[page / 32], (page % 32) as bv6)]
    ensures BitsOf(now) == BitsOf(was)[page := true]
  {
    hide Bit, Set;
    forall p | 0 <= p < MAX_PAGES ensures BitsOf(now)[p] == BitsOf(was)[page := true][p] {
      SameWord(p, page);
      BitAfter(was[page / 32], page % 32, p % 32);
    }
  }

  lemma WordCleared(was: seq<bv32>, now: seq<bv32>, page: nat)
    requires |was| == BITMAP_WORDS && page < MAX_PAGES
    requires now == was[page / 32 := Clear(was[page / 32], (page % 32) as bv6)]
    ensures BitsOf(now) == BitsOf(was)[page := false]
  {
    hide Bit, Clear;
    forall p | 0 <= p < MAX_PAGES ensures BitsOf(now)[p] == BitsOf(was)[page := false][p] {
      SameWord(p, page);
      BitAfter(was[page / 32], page % 32, p % 32);
    }
  }

  /** A word of ones stands for 32 frames in use. */
  lemma FullWord(words: seq<bv32>, w: nat)
    requires |words| == BITMAP_WORDS && w < BITMAP_WORDS && words[w] == FULL_WORD
    ensures forall p :: w * 32 <= p < w * 32 + 32 ==> p < MAX_PAGES && BitsOf(words)[p]
  {
    hide Bit;
    forall p | w * 32 <= p < w * 32 + 32 ensures p < MAX_PAGES && BitsOf(words)[p] {
      BitAfter(0, 0, p % 32);
    }
  }

  class FrameAllocator {
    const bitmap: array<bv32>
    const refcount: array<RefCount>
    var totalPages: nat
    var usedPages: nat
    var firstFreeHint: nat

    ghost function Used(): (u: seq<bool>)
      reads bitmap
      requires bitmap.Length == BITMAP_WORDS
      ensures |u| == MAX_PAGES
    {
      BitsOf(bitmap[..])
    }

    ghost function View(): Frames
      reads this, bitmap, refcount
      requires bitmap.Length == BITMAP_WORDS
    {
      Frames(totalPages, Used(), refcount[..])
    }

    /** No frame below the hint is free, and the counter counts. */
    ghost predicate Valid()
      reads this, bitmap, refcount
    {
      && bitmap.Length == BITMAP_WORDS && refcount.Length == MAX_PAGES
      && View().Sound()
      && usedPages == CountUsed(Used(), totalPages)
      && firstFreeHint <= MAX_PAGES
      && forall p :: 0 <= p < firstFreeHint ==> Used()[p]
    }

    /** pmm_init: all frames reserved, those of available ranges freed, those of `reserved` ranges
        (low memory, the kernel, boot structures, modules, the framebuffer) marked again. */
    constructor (avail: seq<Range>, reserved: seq<Range>)
      requires forall i :: 0 <= i < |reserved| ==> reserved[i].base < FOUR_GIB && reserved[i].length < FOUR_GIB
      ensures Valid() && fresh(bitmap) && fresh(refcount)
      ensures totalPages == if Detected(avail) == 0 then MAX_PAGES else Detected(avail)
      ensures forall p :: 0 <= p < MAX_PAGES ==>
        (Used()[p] <==> !AnyFrees(avail, p) || (p < totalPages && AnyTouches(reserved, p)))
      ensures forall p :: 0 <= p < MAX_PAGES ==> refcount[p] == 0
    {
      hide BitsOf, Detected, AnyFrees, AnyTouches, CountUsed;
      bitmap := new bv32[BITMAP_WORDS](_ => FULL_WORD);
      refcount := new RefCount[MAX_PAGES](_ => 0);
      totalPages := MAX_PAGES;
      usedPages := MAX_PAGES;
      firstFreeHint := 0;
      new;
      AllFull(bitmap[..]);
      CountAll(Used(), MAX_PAGES);
      var detected := FreeRanges(avail);
      if detected == 0 {
        detected := MAX_PAGES;
      }
      forall p | detected <= p < MAX_PAGES ensures Used()[p] {
        NoneBeyond(avail, p);
      }
      totalPages := detected;
      Recount();
      MarkRanges(reserved);
    }

    /** The loop over available ranges. */
    method FreeRanges(avail: seq<Range>) returns (detected: nat)
      requires Valid() && totalPages == MAX_PAGES && firstFreeHint == 0
      requires (forall p :: 0 <= p < MAX_PAGES ==> refcount[p] == 0) && forall p :: 0 <= p < MAX_PAGES ==> Used()[p]
      modifies this`usedPages, bitmap
      ensures Valid() && detected == Detected(avail)
      ensures forall p :: 0 <= p < MAX_PAGES ==> (Used()[p] <==> !AnyFrees(avail, p))
    {
      hide BitsOf, Detected, AnyFrees, CountUsed, PagesUpTo, Touches;
      NothingDetected(avail);
      detected := 0;
      for k := 0 to |avail|
        invariant Valid() && detected == Detected(avail[..k])
        invariant forall p :: 0 <= p < MAX_PAGES ==> (Used()[p] <==> !AnyFrees(avail[..k], p))
      {
        var r := avail[k];
        DetectedNext(avail, k);
        if r.length > 0 && PagesUpTo(r.base + r.length) > detected {
          detected := PagesUpTo(r.base + r.length);
        }
        MarkRegionFree(Clipped(r));
        forall p | 0 <= p < MAX_PAGES ensures Used()[p] <==> !AnyFrees(avail[..k + 1], p) {
          MoreFrees(avail, k, p);
        }
      }
      assert avail[..|avail|] == avail;
    }

    /** mark_region_free, as pmm_init uses it: no frame is referenced yet. */
    method MarkRegionFree(r: Range)
      requires Valid() && totalPages == MAX_PAGES && firstFreeHint == 0 && r.base + r.length <= FOUR_GIB
      requires forall p :: 0 <= p < MAX_PAGES ==> refcount[p] == 0
      modifies this`usedPages, bitmap
      ensures Valid() && Painted(old(Used()), Used(), r, totalPages, false)
    {
      hide BitsOf, CountUsed, Touches;
      forall q: nat ensures Touches(r, q) <==> r.length > 0 && r.base / PAGE_SIZE <= q <= (r.base + r.length - 1) / PAGE_SIZE {
        TouchesBetween(r, q);
      }
      if r.length == 0 {
        return;
      }
      var first, last := r.base / PAGE_SIZE, (r.base + r.length - 1) / PAGE_SIZE;
      ghost var u := Used();
      for p := first to last + 1
        invariant Valid()
        invariant forall q :: 0 <= q < MAX_PAGES ==> Used()[q] == if first <= q < p then false else u[q]
      {
        if Test(p) {
          CountAfter(Used(), totalPages, p, false);
          BitmapClear(p);
          usedPages := usedPages - 1;
        }
      }
    }

    /** The reserved ranges, one after the other. */
    method MarkRanges(reserved: seq<Range>)
      requires Valid() && forall i :: 0 <= i < |reserved| ==> reserved[i].base < FOUR_GIB && reserved[i].length < FOUR_GIB
      modifies this`usedPages, bitmap
      ensures Valid()
      ensures forall p :: 0 <= p < MAX_PAGES ==>
        (Used()[p] <==> old(Used())[p] || (p < totalPages && AnyTouches(reserved, p)))
    {
      hide BitsOf;
      for k := 0 to |reserved|
        invariant Valid()
        invariant forall p :: 0 <= p < MAX_PAGES ==>
          (Used()[p] <==> old(Used())[p] || (p < totalPages && AnyTouches(reserved[..k], p)))
      {
        MarkRegionUsed(reserved[k]);
        forall p | 0 <= p < MAX_PAGES ensures AnyTouches(reserved[..k + 1], p) <==> AnyTouches(reserved[..k], p) || Touches(Marked(reserved[k]), p) {
          MoreTouches(reserved, k, p);
        }
      }
      assert reserved[..|reserved|] == reserved;
    }

    /** mark_region_used */
    method MarkRegionUsed(r: Range)
      requires Valid() && r.base < FOUR_GIB && r.length < FOUR_GIB
      modifies this`usedPages, bitmap
      ensures Valid() && Painted(old(Used()), Used(), Marked(r), totalPages, true)
    {
      hide BitsOf, CountUsed, Touches, Marked;
      forall q: nat ensures Touches(Marked(r), q) <==> r.length > 0 && r.base / PAGE_SIZE <= q <= (r.base + r.length - 1) % FOUR_GIB / PAGE_SIZE {
        MarkedBetween(r, q);
      }
      if r.length == 0 {
        return;
      }
      var first, last := r.base / PAGE_SIZE, (r.base + r.length - 1) % FOUR_GIB / PAGE_SIZE;
      ghost var u := Used();
      if first >= totalPages {
        return;
      }
      if last >= totalPages {
        last := totalPages - 1;
      }
      if last < first {
        return;
      }
      for p := first to last + 1
        invariant Valid()
        invariant forall q :: 0 <= q < MAX_PAGES ==> Used()[q] == if first <= q < p then true else u[q]
      {
        if !Test(p) {
          CountAfter(Used(), totalPages, p, true);
          BitmapSet(p);
          usedPages := usedPages + 1;
        }
      }
    }

    /** recount_used_pages */
    method Recount()
      requires bitmap.Length == BITMAP_WORDS && totalPages <= MAX_PAGES
      modifies this`usedPages
      ensures usedPages == CountUsed(Used(), totalPages)
    {
      hide BitsOf;
      usedPages := 0;
      for page := 0 to totalPages
        invariant usedPages == CountUsed(Used(), page)
      {
        if Test(page) {
          usedPages := usedPages + 1;
        }
      }
    }

    predicate Test(page: nat)
      reads bitmap
      requires bitmap.Length == BITMAP_WORDS && page < MAX_PAGES
      ensures Test(page) == Used()[page]
    {
      Bit(bitmap[page / 32], page % 32)
    }

    method BitmapSet(page: nat)
      requires bitmap.Length == BITMAP_WORDS && page < MAX_PAGES
      modifies bitmap
      ensures Used() == old(Used())[page := true]
    {
      hide Bit, Set;
      ghost var was := bitmap[..];
      bitmap[page / 32] := Set(bitmap[page / 32], (page % 32) as bv6);
      WordSet(was, bitmap[..], page);
    }

    method BitmapClear(page: nat)
      requires bitmap.Length == BITMAP_WORDS && page < MAX_PAGES
      modifies bitmap
      ensures Used() == old(Used())[page := false]
    {
      hide Bit, Clear;
      ghost var was := bitmap[..];
      bitmap[page / 32] := Clear(bitmap[page / 32], (page % 32) as bv6);
      WordCleared(was, bitmap[..], page);
    }

    /** The scan both allocators share: the first clear bit at or after `startPage` and below
        `maxPage`, among the words `word`..`wordLimit`, passing over words that are all ones. */
    method FindClear(firstWord: nat, wordLimit: nat, startPage: nat, maxPage: nat, ghost u: seq<bool>) returns (found: bool, page: nat)
      requires bitmap.Length == BITMAP_WORDS && u == Used() && wordLimit <= BITMAP_WORDS && maxPage <= MAX_PAGES
      ensures found ==> firstWord * 32 <= page && startPage <= page < maxPage && !u[page]
      ensures found ==> forall p :: firstWord * 32 <= p < page && startPage <= p ==> u[p]
      ensures !found ==> forall p :: firstWord * 32 <= p < wordLimit * 32 && startPage <= p < maxPage ==> u[p]
    {
      var word := firstWord;
      page := 0;
      while word < wordLimit
        invariant firstWord <= word
        invariant forall p :: firstWord * 32 <= p < word * 32 && p < MAX_PAGES && startPage <= p < maxPage ==> u[p]
      {
        var bits := bitmap[word];
        if bits != FULL_WORD {
          var bit := 0;
          while bit < 32
            invariant bit <= 32
            invariant forall p :: firstWord * 32 <= p < word * 32 + bit && p < MAX_PAGES && startPage <= p < maxPage ==> u[p]
          {
            page := word * 32 + bit;
            if page >= startPage {
              if page >= maxPage {
                break;
              }
              assert u[page] == Bit(bits, bit);
              if !Bit(bits, bit) {
                return true, page;
              }
            }
            bit := bit + 1;
          }
        } else {
          FullWord(bitmap[..], word);
        }
        word := word + 1;
      }
      return false, 0;
    }

    /** The bookkeeping of an allocation. */
    method Take(page: nat) returns (phys: nat)
      requires Valid() && page < totalPages && page == LowestFree(Used(), page + 1)
      modifies this`usedPages, this`firstFreeHint, bitmap, refcount
      ensures Valid() && phys == page * PAGE_SIZE
      ensures View() == Frames(totalPages, old(Used())[page := true], old(refcount[..])[page := 1])
    {
      hide BitsOf, CountUsed, LowestFree;
      CountAfter(Used(), totalPages, page, true);
      BitmapSet(page);
      usedPages := usedPages + 1;
      refcount[page] := 1;
      firstFreeHint := page + 1;
      return page * PAGE_SIZE;
    }

    /** pmm_alloc_page */
    method AllocPage() returns (phys: nat)
      requires Valid()
      modifies this`usedPages, this`firstFreeHint, bitmap, refcount
      ensures Valid() && View() == old(View()).Taken(old(totalPages))
      ensures var p := LowestFree(old(Used()), old(totalPages)); phys == if p < old(totalPages) then p * PAGE_SIZE else 0
    {
      hide BitsOf, CountUsed, LowestFree;
      ghost var u := Used();
      phys := 0;
      var found, page := FindClear(firstFreeHint / 32, BITMAP_WORDS, firstFreeHint, MAX_PAGES, u);
      if !found {
        found, page := FindClear(0, firstFreeHint / 32, 0, MAX_PAGES, u);
      }
      if !found {
        forall p | 0 <= p < totalPages ensures u[p] {
          Halves(p, firstFreeHint / 32);
        }
        LowestIs(u, totalPages, totalPages);
        return;
      }
      if page >= totalPages {
        return;
      }
      LowestIs(u, page + 1, page);
      LowestIs(u, totalPages, page);
      phys := Take(page);
    }

    /** pmm_alloc_page_below */
    method AllocPageBelow(maxPhys: nat) returns (phys: nat)
      requires Valid() && maxPhys < MAX_PAGES * PAGE_SIZE
      modifies this`usedPages, this`firstFreeHint, bitmap, refcount
      ensures Valid() && View() == old(View()).Taken(maxPhys / PAGE_SIZE)
      ensures var p := LowestFree(old(Used()), maxPhys / PAGE_SIZE); phys == if p < maxPhys / PAGE_SIZE then p * PAGE_SIZE else 0
    {
      hide BitsOf, CountUsed, LowestFree;
      ghost var u := Used();
      var maxPage := maxPhys / PAGE_SIZE;
      if maxPage == 0 {
        return 0;
      }
      var wordLimit := (maxPage + 31) / 32;
      var startPage := if firstFreeHint >= maxPage then 0 else firstFreeHint;
      var found, page := FindClear(startPage / 32, wordLimit, startPage, maxPage, u);
      if !found {
        found, page := FindClear(0, if startPage / 32 < wordLimit then startPage / 32 else wordLimit, 0, maxPage, u);
      }
      if !found {
        forall p | 0 <= p < maxPage ensures u[p] {
          Halves(p, startPage / 32);
        }
        LowestIs(u, maxPage, maxPage);
        return 0;
      }
      LowestIs(u, maxPage, page);
      LowestIs(u, page + 1, page);
      phys := Take(page);
    }

    /** pmm_free_page and pmm_ref_dec, which do the same. */
    method RefDec(phys: nat)
      requires Valid()
      modifies this`usedPages, this`firstFreeHint, bitmap, refcount
      ensures Valid() && View() == old(View()).Dropped(phys / PAGE_SIZE)
    {
      hide BitsOf, CountUsed, LowestFree;
      var page := phys / PAGE_SIZE;
      if page >= totalPages || !Test(page) || refcount[page] == 0 {
        return;
      }
      if refcount[page] > 1 {
        refcount[page] := refcount[page] - 1;
        return;
      }
      CountAfter(Used(), totalPages, page, false);
      refcount[page] := 0;
      BitmapClear(page);
      usedPages := usedPages - 1;
      if page < firstFreeHint {
        firstFreeHint := page;
      }
    }

    /** pmm_ref_inc, which saturates. */
    method RefInc(phys: nat)
      requires Valid()
      modifies refcount
      ensures Valid() && View() == old(View()).Added(phys / PAGE_SIZE)
    {
      hide BitsOf, CountUsed, LowestFree;
      var page := phys / PAGE_SIZE;
      if page >= totalPages || !Test(page) {
        return;
      }
      if refcount[page] != REF_CAP {
        refcount[page] := refcount[page] + 1;
      }
    }

    /** pmm_mark_used */
    method MarkUsed(phys: nat)
      requires Valid()
      modifies this`usedPages, this`firstFreeHint, bitmap, refcount
      ensures Valid() && View() == old(View()).Marked(phys / PAGE_SIZE)
    {
      hide BitsOf, CountUsed, LowestFree;
      var page := phys / PAGE_SIZE;
      if page >= totalPages {
        return;
      }
      if !Test(page) {
        CountAfter(Used(), totalPages, page, true);
        BitmapSet(page);
        usedPages := usedPages + 1;
      }
      if refcount[page] == 0 {
        refcount[page] := 1;
      }
      if page == firstFreeHint {
        firstFreeHint := page + 1;
      }
    }
  }

  /** A page lies before word `w` or from it on. */
  lemma Halves(p: nat, w: nat)
    ensures p < w * 32 || w * 32 <= p
  {
  }

  lemma SameWord(p: nat, q: nat)
    ensures p == q <==> p / 32 == q / 32 && p % 32 == q % 32
  {
  }

  lemma TouchesBetween(r: Range, q: nat)
    ensures Touches(r, q) <==> r.length > 0 && r.base / PAGE_SIZE <= q <= (r.base + r.length - 1) / PAGE_SIZE
  {
  }

  lemma MarkedBetween(r: Range, q: nat)
    requires r.base < FOUR_GIB && r.length < FOUR_GIB
    ensures Touches(Marked(r), q) <==> r.length > 0 && r.base / PAGE_SIZE <= q <= (r.base + r.length - 1) % FOUR_GIB / PAGE_SIZE
  {
    if r.length > 0 {
      TouchesBetween(Marked(r), q);
    }
  }

  lemma MoreFrees(rs: seq<Range>, k: nat, p: nat)
    requires k < |rs|
    ensures AnyFrees(rs[..k + 1], p) <==> AnyFrees(rs[..k], p) || Touches(Clipped(rs[k]), p)
  {
    if AnyFrees(rs[..k], p) {
      var i :| 0 <= i < k && Touches(Clipped(rs[..k][i]), p);
      assert rs[..k + 1][i] == rs[i];
    }
    if Touches(Clipped(rs[k]), p) {
      assert rs[..k + 1][k] == rs[k];
    }
  }

  lemma MoreTouches(rs: seq<Range>, k: nat, p: nat)
    requires k < |rs|
    ensures AnyTouches(rs[..k + 1], p) <==> AnyTouches(rs[..k], p) || Touches(Marked(rs[k]), p)
  {
    if AnyTouches(rs[..k], p) {
      var i :| 0 <= i < k && Touches(Marked(rs[..k][i]), p);
      assert rs[..k + 1][i] == rs[i];
    }
    if Touches(Marked(rs[k]), p) {
      assert rs[..k + 1][k] == rs[k];
    }
  }

  lemma AllFull(words: seq<bv32>)
    requires |words| == BITMAP_WORDS && forall w :: 0 <= w < BITMAP_WORDS ==> words[w] == FULL_WORD
    ensures forall p :: 0 <= p < MAX_PAGES ==> BitsOf(words)[p]
  {
    hide Bit;
    forall p | 0 <= p < MAX_PAGES ensures BitsOf(words)[p] {
      FullWord(words, p / 32);
    }
  }

  lemma {:induction false} CountAll(u: seq<bool>, n: nat)
    requires n <= |u| && forall p :: 0 <= p < n ==> u[p]
    ensures CountUsed(u, n) == n
  {
    if n > 0 {
      CountAll(u, n - 1);
    }
  }

  /** pmm_alloc_page returns 0 for two reasons: there is no free frame, or the lowest one is frame 0. */
  lemma ZeroIsAmbiguous(u: seq<bool>, total: nat)
    requires total <= |u|
    ensures var p := LowestFree(u, total);
      (if p < total then p * PAGE_SIZE else 0) == 0 <==> CountUsed(u, total) == total || (0 < total && !u[0])
  {
    FreeMeansRoom(u, total);
    if 0 < total && !u[0] {
      assert LowestFree(u, total) == 0 by {
        LowestIs(u, total, 0);
      }
    }
  }
}
