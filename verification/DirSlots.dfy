/** A directory as a sequence of 32-byte entries, and as a case-insensitive map of 8.3 names. */
module DirSlots {
  import opened Blocks
  import opened SectorCache
  import opened FileBytes
  import opened ShortNames

  const ENTRY_SIZE: nat := 32
  const PER_SECTOR: nat := 16
  const END_MARK: Byte := 0x00
  const DELETED_MARK: Byte := 0xE5
  const ATTR_LFN: Byte := 0x0F

  type Slot32 = s: seq<Byte> | |s| == ENTRY_SIZE witness seq(ENTRY_SIZE, _ => 0)
  type Key = seq<Byte>

  predicate IsEnd(s: Slot32) { s[0] == END_MARK }
  predicate IsDeleted(s: Slot32) { s[0] == DELETED_MARK }
  predicate IsLfn(s: Slot32) { s[11] == ATTR_LFN }
  predicate Live(s: Slot32) { !IsEnd(s) && !IsDeleted(s) }

  /** The case-folded printable name of an entry. */
  function KeyOf(s: Slot32): Key { LowerAll(From83(s[..11])) }

  /** The entries in a run of bytes. */
  function Slots(b: seq<Byte>): (r: seq<Slot32>)
    ensures |r| == |b| / ENTRY_SIZE
  {
    seq(|b| / ENTRY_SIZE, k requires 0 <= k < |b| / ENTRY_SIZE => b[32 * k..32 * k + 32])
  }

  /** End markers form a suffix, and every entry before them has an 8.3 name only. */
  ghost predicate Tidy(slots: seq<Slot32>) {
    && (forall i, j :: 0 <= i < j < |slots| && IsEnd(slots[i]) ==> IsEnd(slots[j]))
    && (forall i :: 0 <= i < |slots| && !IsEnd(slots[i]) ==> !IsLfn(slots[i]))
  }

  /** Some live entry carries the name. */
  ghost predicate Named(slots: seq<Slot32>, key: Key) {
    exists i :: 0 <= i < |slots| && Live(slots[i]) && KeyOf(slots[i]) == key
  }

  /** The directory `slots` stands for the map `m` from case-folded names to entries. */
  ghost predicate Represents(slots: seq<Slot32>, m: map<Key, Slot32>) {
    && Tidy(slots)
    && (forall i, j :: 0 <= i < j < |slots| && Live(slots[i]) && Live(slots[j]) ==> KeyOf(slots[i]) != KeyOf(slots[j]))
    && (forall i :: 0 <= i < |slots| && Live(slots[i]) ==> KeyOf(slots[i]) in m && m[KeyOf(slots[i])] == slots[i])
    && (forall key :: key in m ==> Named(slots, key))
  }

  /** What a search over a run of entries finds: the entry, the end marker, or neither. */
  datatype Scan = Hit(k: nat) | Stop | Pass

  function Shift(s: Scan, n: nat): Scan { if s.Hit? then Hit(s.k + n) else s }

  /** The search order of fat32_dir_find, with long-name entries passed over. */
  function Search(slots: seq<Slot32>, key: Key): (r: Scan)
    ensures r.Hit? ==> r.k < |slots| && Live(slots[r.k]) && KeyOf(slots[r.k]) == key
  {
    if slots == [] then Pass
    else if IsEnd(slots[0]) then Stop
    else if !IsLfn(slots[0]) && !IsDeleted(slots[0]) && KeyOf(slots[0]) == key then Hit(0)
    else Shift(Search(slots[1..], key), 1)
  }

  /** The search order of fat32_dir_create_entry for one slot: the first end marker or deleted entry. */
  function FirstFree(slots: seq<Slot32>): (r: Scan)
    ensures r != Stop
    ensures r.Hit? ==> r.k < |slots| && !Live(slots[r.k]) && forall i :: 0 <= i < r.k ==> Live(slots[i])
    ensures r == Pass ==> forall i :: 0 <= i < |slots| ==> Live(slots[i])
  {
    if slots == [] then Pass
    else if !Live(slots[0]) then Hit(0)
    else
      var r := FirstFree(slots[1..]);
      assert forall i :: 0 < i < |slots| ==> slots[i] == slots[1..][i - 1];
      Shift(r, 1)
  }

  lemma {:induction false} SearchConcat(a: seq<Slot32>, b: seq<Slot32>, key: Key)
    ensures Search(a + b, key) == if Search(a, key) == Pass then Shift(Search(b, key), |a|) else Search(a, key)
  {
    hide KeyOf, IsEnd, IsLfn, IsDeleted;
    if a == [] {
      assert a + b == b;
    } else {
      SearchConcat(a[1..], b, key);
      assert (a + b)[1..] == a[1..] + b;
    }
  }

  lemma {:induction false} FirstFreeConcat(a: seq<Slot32>, b: seq<Slot32>)
    ensures FirstFree(a + b) == if FirstFree(a) == Pass then Shift(FirstFree(b), |a|) else FirstFree(a)
  {
    hide Live;
    if a == [] {
      assert a + b == b;
    } else {
      FirstFreeConcat(a[1..], b);
      assert (a + b)[1..] == a[1..] + b;
    }
  }

  /** A search, entry by entry: it hits the first live 8.3 entry of that name before the first end marker,
      stops at the end marker if there is none before it, and else passes all entries. */
  lemma {:induction false} SearchExactly(slots: seq<Slot32>, key: Key)
    ensures var r := Search(slots, key);
      var n := if r.Hit? then r.k else |slots|;
      && (r.Hit? ==> n < |slots| && Wanted(slots[n], key) && forall i :: 0 <= i < n ==> !Wanted(slots[i], key) && !IsEnd(slots[i]))
      && (r.Pass? ==> forall i :: 0 <= i < |slots| ==> !Wanted(slots[i], key) && !IsEnd(slots[i]))
      && (r.Stop? ==> exists e :: 0 <= e < |slots| && IsEnd(slots[e]) && forall i :: 0 <= i < e ==> !Wanted(slots[i], key) && !IsEnd(slots[i]))
  {
    hide KeyOf, IsEnd, IsLfn, IsDeleted;
    if slots != [] && !IsEnd(slots[0]) && !Wanted(slots[0], key) {
      var rest := slots[1..];
      SearchExactly(rest, key);
      assert forall i :: 0 < i < |slots| ==> slots[i] == rest[i - 1];
      if Search(rest, key).Stop? {
        var e :| 0 <= e < |rest| && IsEnd(rest[e]) && forall i :: 0 <= i < e ==> !Wanted(rest[i], key) && !IsEnd(rest[i]);
        assert IsEnd(slots[e + 1]);
      }
    }
  }

  /** A live 8.3 entry under the name `key`. */
  predicate Wanted(s: Slot32, key: Key) { !IsEnd(s) && !IsDeleted(s) && !IsLfn(s) && KeyOf(s) == key }

  /** Searching a tidy directory misses no live entry. */
  lemma {:induction false} SearchIsComplete(slots: seq<Slot32>, key: Key, i: nat)
    requires Tidy(slots) && i < |slots| && Live(slots[i]) && KeyOf(slots[i]) == key
    ensures Search(slots, key).Hit? && Search(slots, key).k <= i
  {
    assert !IsEnd(slots[0]);
    if i > 0 {
      var rest := slots[1..];
      assert Tidy(rest) by {
        assert forall k :: 0 <= k < |rest| ==> rest[k] == slots[k + 1];
      }
      SearchIsComplete(rest, key, i - 1);
    }
  }

  /** Finding looks the name up in the map. */
  lemma FindIsLookup(slots: seq<Slot32>, m: map<Key, Slot32>, key: Key)
    requires Represents(slots, m)
    ensures Search(slots, key).Hit? <==> key in m
    ensures Search(slots, key).Hit? ==> slots[Search(slots, key).k] == m[key]
  {
    if key in m {
      var i :| 0 <= i < |slots| && Live(slots[i]) && KeyOf(slots[i]) == key;
      SearchIsComplete(slots, key, i);
    }
  }

  /** Writing a new name into the first free slot inserts it. */
  lemma CreateInserts(slots: seq<Slot32>, m: map<Key, Slot32>, e: Slot32)
    requires Represents(slots, m) && FirstFree(slots).Hit?
    requires Live(e) && !IsLfn(e) && KeyOf(e) !in m
    ensures Represents(slots[FirstFree(slots).k := e], m[KeyOf(e) := e])
  {
    hide KeyOf;
    var k := FirstFree(slots).k;
    var after := slots[k := e];
    assert Live(after[k]);
    forall key | Named(slots, key) ensures Named(after, key) {
      NamedKept(slots, k, e, key);
    }
    assert Named(after, KeyOf(e));
  }

  /** Replacing one entry keeps every other name. */
  lemma NamedKept(slots: seq<Slot32>, k: nat, e: Slot32, key: Key)
    requires k < |slots| && Named(slots, key) && (Live(slots[k]) ==> KeyOf(slots[k]) != key)
    ensures Named(slots[k := e], key)
  {
    var i :| 0 <= i < |slots| && Live(slots[i]) && KeyOf(slots[i]) == key;
    assert slots[k := e][i] == slots[i];
  }

  /** Marking an entry deleted removes its name. */
  lemma DeleteRemoves(slots: seq<Slot32>, m: map<Key, Slot32>, k: nat)
    requires Represents(slots, m) && k < |slots| && Live(slots[k])
    ensures Represents(slots[k := slots[k][0 := DELETED_MARK]], m - {KeyOf(slots[k])})
  {
    hide KeyOf;
    var dead: Slot32 := slots[k][0 := DELETED_MARK];
    var after := slots[k := dead];
    forall key | Named(slots, key) && key != KeyOf(slots[k]) ensures Named(after, key) {
      NamedKept(slots, k, dead, key);
    }
  }

  /** Appending zeroed entries changes nothing but makes room. */
  lemma ZeroesAddRoom(slots: seq<Slot32>, m: map<Key, Slot32>, zeros: seq<Slot32>)
    requires Represents(slots, m) && forall i :: 0 <= i < |zeros| ==> IsEnd(zeros[i])
    ensures Represents(slots + zeros, m)
    ensures zeros != [] && FirstFree(slots) == Pass ==> FirstFree(slots + zeros) == Hit(|slots|)
  {
    hide KeyOf;
    var all := slots + zeros;
    FirstFreeConcat(slots, zeros);
    forall key | Named(slots, key) ensures Named(all, key) {
      var i :| 0 <= i < |slots| && Live(slots[i]) && KeyOf(slots[i]) == key;
      assert all[i] == slots[i];
    }
  }

  /** Replacing an entry by one with the same name and attributes replaces its value. */
  lemma UpdateReplaces(slots: seq<Slot32>, m: map<Key, Slot32>, k: nat, e: Slot32)
    requires Represents(slots, m) && k < |slots| && Live(slots[k]) && e[..12] == slots[k][..12]
    ensures Represents(slots[k := e], m[KeyOf(e) := e])
  {
    hide KeyOf, Live, IsLfn, IsEnd;
    SameName(slots[k], e);
    var after := slots[k := e];
    assert Named(after, KeyOf(e)) by {
      assert after[k] == e;
    }
    forall key | Named(slots, key) ensures Named(after, key) {
      if key != KeyOf(e) {
        NamedKept(slots, k, e, key);
      }
    }
  }

  lemma SameName(a: Slot32, b: Slot32)
    requires a[..12] == b[..12]
    ensures KeyOf(a) == KeyOf(b) && (Live(a) <==> Live(b)) && (IsEnd(a) <==> IsEnd(b)) && (IsLfn(a) <==> IsLfn(b))
  {
    assert a[0] == a[..12][0] && b[0] == b[..12][0] && a[11] == a[..12][11] && b[11] == b[..12][11];
    assert a[..11] == a[..12][..11] && b[..11] == b[..12][..11];
  }

  lemma SliceOfSlice(b: seq<Byte>, x: nat, n: nat, lo: nat, hi: nat)
    requires x + n <= |b| && lo <= hi <= n
    ensures b[x..x + n][lo..hi] == b[x + lo..x + hi]
  {
    var part := b[x..x + n];
    forall j | lo <= j < hi ensures part[j] == b[x + j] {
    }
    assert |part[lo..hi]| == |b[x + lo..x + hi]|;
    forall j | 0 <= j < hi - lo ensures part[lo..hi][j] == b[x + lo..x + hi][j] {
      assert part[lo..hi][j] == part[lo + j];
    }
  }

  /** The entries of one part of a run of bytes. */
  lemma SlotsOfPart(b: seq<Byte>, x: nat, part: seq<Byte>)
    requires x % ENTRY_SIZE == 0 && |part| % ENTRY_SIZE == 0 && x + |part| <= |b| && b[x..x + |part|] == part
    ensures x / ENTRY_SIZE + |part| / ENTRY_SIZE <= |Slots(b)|
    ensures Slots(b)[x / ENTRY_SIZE..x / ENTRY_SIZE + |part| / ENTRY_SIZE] == Slots(part)
  {
    var n := |part| / ENTRY_SIZE;
    forall k | 0 <= k < n ensures Slots(b)[x / ENTRY_SIZE + k] == Slots(part)[k] {
      SliceOfSlice(b, x, |part|, 32 * k, 32 * k + 32);
      assert (x / ENTRY_SIZE + k) * ENTRY_SIZE == x + 32 * k;
    }
  }

  /** The inner loop of fat32_dir_find over one sector. */
  method SearchSector(sector: Sector, name: CString) returns (r: Scan)
    ensures r == Search(Slots(sector), LowerAll(name))
  {
    ghost var slots := Slots(sector);
    ghost var key := LowerAll(name);
    for e := 0 to PER_SECTOR
      invariant Search(slots, key) == Shift(Search(slots[e..], key), e)
    {
      var slot: Slot32 := sector[32 * e..32 * e + 32];
      assert slots[e..][0] == slot && slots[e..][1..] == slots[e + 1..];
      if IsEnd(slot) {
        return Stop;
      }
      if !IsLfn(slot) && !IsDeleted(slot) {
        var same := NameEqCi(From83(slot[..11]), name);
        if same {
          return Hit(e);
        }
      }
    }
    return Pass;
  }

  /** The inner loop of fat32_dir_create_entry over one sector. */
  method FreeInSector(sector: Sector) returns (r: Scan)
    ensures r == FirstFree(Slots(sector))
  {
    ghost var slots := Slots(sector);
    for e := 0 to PER_SECTOR
      invariant FirstFree(slots) == Shift(FirstFree(slots[e..]), e)
    {
      var slot: Slot32 := sector[32 * e..32 * e + 32];
      assert slots[e..][0] == slot && slots[e..][1..] == slots[e + 1..];
      if !Live(slot) {
        return Hit(e);
      }
    }
    return Pass;
  }

  /** Appending bytes appends entries. */
  lemma SlotsOfConcat(a: seq<Byte>, b: seq<Byte>)
    requires |a| % ENTRY_SIZE == 0 && |b| % ENTRY_SIZE == 0
    ensures Slots(a + b) == Slots(a) + Slots(b)
  {
    assert (a + b)[..|a|] == a && (a + b)[|a|..] == b;
    SlotsOfPart(a + b, 0, a);
    SlotsOfPart(a + b, |a|, b);
    var n := |a| / ENTRY_SIZE;
    assert Slots(a + b) == Slots(a + b)[0..n] + Slots(a + b)[n..n + |b| / ENTRY_SIZE];
  }

  /** A run of zero bytes is a run of end markers. */
  lemma ZeroSlots(b: seq<Byte>)
    requires forall i :: 0 <= i < |b| ==> b[i] == 0
    ensures forall k :: 0 <= k < |Slots(b)| ==> IsEnd(Slots(b)[k])
  {
  }

  /** The entries after `e` was written to the first free place of a directory whose clusters have
      `m` bytes. */
  function Inserted(slots: seq<Slot32>, e: Slot32, m: nat): seq<Slot32> {
    var r := FirstFree(slots);
    if r.Hit? then slots[r.k := e]
    else if m < ENTRY_SIZE then slots
    else (slots + Slots(ZeroBytes(m)))[|slots| := e]
  }

  /** A new entry takes the place of the first one that is deleted or an end marker, or the first of a
      cluster of zeros behind the others; every other entry stays as it was. */
  lemma InsertedAt(slots: seq<Slot32>, e: Slot32, m: nat, k: nat)
    requires m >= ENTRY_SIZE && k < |Inserted(slots, e, m)|
    ensures var r := Inserted(slots, e, m);
      if forall i :: 0 <= i < |slots| ==> Live(slots[i]) then
        && |r| == |slots| + m / 32
        && r[k] == if k < |slots| then slots[k] else if k == |slots| then e else ZeroBytes(32)
      else
        && |r| == |slots|
        && r[k] == if !Live(slots[k]) && (forall i :: 0 <= i < k ==> Live(slots[i])) then e else slots[k]
  {
    hide Live;
    if FirstFree(slots) == Pass && k >= |slots| {
      ZeroSlot(m, k - |slots|);
    }
  }

  lemma ZeroSlot(m: nat, k: nat)
    requires k < |Slots(ZeroBytes(m))|
    ensures Slots(ZeroBytes(m))[k] == ZeroBytes(32)
  {
    var s := Slots(ZeroBytes(m))[k];
    assert 32 * k + 32 <= m;
    assert s == ZeroBytes(m)[32 * k..32 * k + 32];
    assert |s| == |ZeroBytes(32)| && forall i :: 0 <= i < 32 ==> s[i] == ZeroBytes(32)[i];
  }

  function Erased(slots: seq<Slot32>, key: Key): seq<Slot32> {
    var r := Search(slots, key);
    if r.Hit? then slots[r.k := slots[r.k][0 := DELETED_MARK]] else slots
  }

  /** The entry named `key` with everything behind its name and attributes replaced. */
  function Restamped(slots: seq<Slot32>, key: Key, tail: seq<Byte>): seq<Slot32>
    requires |tail| == ENTRY_SIZE - 12
  {
    var r := Search(slots, key);
    if r.Hit? then slots[r.k := slots[r.k][..12] + tail] else slots
  }

  /** What callers do to a directory; a name that exists already is not created again. */
  datatype DirOp = Create(e: Slot32) | Delete(key: Key) | Restamp(key: Key, tail: seq<Byte>) {
    predicate Allowed() {
      && (Create? ==> Live(e) && !IsLfn(e))
      && (Restamp? ==> |tail| == ENTRY_SIZE - 12)
    }
  }

  function Do(slots: seq<Slot32>, op: DirOp, m: nat): seq<Slot32>
    requires op.Allowed()
  {
    match op
    case Create(e) => if Search(slots, KeyOf(e)).Hit? then slots else Inserted(slots, e, m)
    case Delete(key) => Erased(slots, key)
    case Restamp(key, tail) => Restamped(slots, key, tail)
  }

  function DoMap(m: map<Key, Slot32>, op: DirOp): map<Key, Slot32>
    requires op.Allowed()
  {
    match op
    case Create(e) => if KeyOf(e) in m then m else m[KeyOf(e) := e]
    case Delete(key) => m - {key}
    case Restamp(key, tail) => if key in m then m[key := m[key][..12] + tail] else m
  }

  function Run(slots: seq<Slot32>, ops: seq<DirOp>, m: nat): seq<Slot32>
    requires forall i :: 0 <= i < |ops| ==> ops[i].Allowed()
  {
    if ops == [] then slots else Do(Run(slots, ops[..|ops| - 1], m), ops[|ops| - 1], m)
  }

  function RunMap(map0: map<Key, Slot32>, ops: seq<DirOp>): map<Key, Slot32>
    requires forall i :: 0 <= i < |ops| ==> ops[i].Allowed()
  {
    if ops == [] then map0 else DoMap(RunMap(map0, ops[..|ops| - 1]), ops[|ops| - 1])
  }

  lemma InsertedRepresents(slots: seq<Slot32>, map0: map<Key, Slot32>, e: Slot32, m: nat)
    requires Represents(slots, map0) && m >= ENTRY_SIZE && m % ENTRY_SIZE == 0
    requires Live(e) && !IsLfn(e) && KeyOf(e) !in map0
    ensures Represents(Inserted(slots, e, m), map0[KeyOf(e) := e])
  {
    hide Represents, FirstFree, KeyOf, Live, IsLfn;
    if FirstFree(slots).Hit? {
      CreateInserts(slots, map0, e);
    } else {
      ZeroSlots(ZeroBytes(m));
      ZeroesAddRoom(slots, map0, Slots(ZeroBytes(m)));
      CreateInserts(slots + Slots(ZeroBytes(m)), map0, e);
    }
  }

  /** A second entry under a name that is there already: the directory then stands for no map at all. */
  lemma SecondEntry(slots: seq<Slot32>, map0: map<Key, Slot32>, e: Slot32, m: nat, map1: map<Key, Slot32>)
    requires Represents(slots, map0) && m >= ENTRY_SIZE && m % ENTRY_SIZE == 0
    requires Live(e) && KeyOf(e) in map0
    ensures !Represents(Inserted(slots, e, m), map1)
  {
    hide FirstFree, KeyOf, Live;
    var r := FirstFree(slots);
    var after, k := Inserted(slots, e, m), if r.Hit? then r.k else |slots|;
    var i :| 0 <= i < |slots| && Live(slots[i]) && KeyOf(slots[i]) == KeyOf(e);
    assert after[i] == slots[i] && after[k] == e && i != k;
    if i < k {
      assert KeyOf(after[i]) == KeyOf(after[k]);
    } else {
      assert KeyOf(after[k]) == KeyOf(after[i]);
    }
  }

  lemma DoRepresents(slots: seq<Slot32>, map0: map<Key, Slot32>, op: DirOp, m: nat)
    requires Represents(slots, map0) && op.Allowed() && m >= ENTRY_SIZE && m % ENTRY_SIZE == 0
    ensures Represents(Do(slots, op, m), DoMap(map0, op))
  {
    hide Represents, Search, KeyOf, Inserted;
    match op {
      case Create(e) =>
        FindIsLookup(slots, map0, KeyOf(e));
        if KeyOf(e) !in map0 {
          InsertedRepresents(slots, map0, e, m);
        }
      case Delete(key) =>
        FindIsLookup(slots, map0, key);
        var r := Search(slots, key);
        if r.Hit? {
          DeleteRemoves(slots, map0, r.k);
        } else {
          assert map0 - {key} == map0;
        }
      case Restamp(key, tail) =>
        FindIsLookup(slots, map0, key);
        var r := Search(slots, key);
        if r.Hit? {
          UpdateReplaces(slots, map0, r.k, slots[r.k][..12] + tail);
          SameName(slots[r.k], slots[r.k][..12] + tail);
        }
    }
  }

  /** Under any run of creations, deletions and updates the directory stands for the map that the
      same operations make of names to entries, and finding looks the name up in it. */
  lemma {:induction false} RunIsMap(slots: seq<Slot32>, map0: map<Key, Slot32>, ops: seq<DirOp>, m: nat, key: Key)
    requires Represents(slots, map0) && m >= ENTRY_SIZE && m % ENTRY_SIZE == 0
    requires forall i :: 0 <= i < |ops| ==> ops[i].Allowed()
    ensures Represents(Run(slots, ops, m), RunMap(map0, ops))
    ensures var r := Search(Run(slots, ops, m), key);
      if key in RunMap(map0, ops) then r.Hit? && Run(slots, ops, m)[r.k] == RunMap(map0, ops)[key] else !r.Hit?
  {
    if ops != [] {
      RunIsMap(slots, map0, ops[..|ops| - 1], m, key);
      DoRepresents(Run(slots, ops[..|ops| - 1], m), RunMap(map0, ops[..|ops| - 1]), ops[|ops| - 1], m);
    }
    FindIsLookup(Run(slots, ops, m), RunMap(map0, ops), key);
  }
}
