/** The direct-mapped write-back sector cache of fs/fat32.c. */
module SectorCache {
  import opened Blocks

  const CACHE_BLOCKS: nat := 32

  datatype Option<+T> = None | Some(value: T)

  /** One cache slot; `owner` is the device the cached sector belongs to, if any. */
  datatype Slot = Slot(lba: nat, dirty: bool, valid: bool, data: Sector, owner: Option<nat>)

  const EMPTY_SLOT := Slot(0, false, false, ZeroSector(), None)

  /** All that the storage stack keeps: cache slots, device contents, and the ghost record of
      failed transfers and of completed device writes. */
  datatype World = World(slots: seq<Slot>, disks: seq<Disk>, failures: nat, history: seq<Stamp>)

  predicate Cached(ss: seq<Slot>, d: nat, lba: nat)
    requires |ss| == CACHE_BLOCKS
  {
    var s := ss[lba % CACHE_BLOCKS];
    s.valid && s.lba == lba && s.owner == Some(d)
  }

  function OnDisk(disks: seq<Disk>, d: nat, lba: nat): Option<Sector> {
    if d < |disks| && lba < |disks[d]| then Some(disks[d][lba]) else None
  }

  /** The view at one address: the cached sector if tag and owner match, else the device sector. */
  function Lookup(w: World, d: nat, lba: nat): Option<Sector>
    requires |w.slots| == CACHE_BLOCKS
  {
    if Cached(w.slots, d, lba) then Some(w.slots[lba % CACHE_BLOCKS].data) else OnDisk(w.disks, d, lba)
  }

  /** The view of a whole device. */
  function View(w: World, d: nat): (img: Disk)
    requires |w.slots| == CACHE_BLOCKS && d < |w.disks|
    ensures |img| == |w.disks[d]|
    ensures forall l :: 0 <= l < |img| ==> Lookup(w, d, l) == Some(img[l])
  {
    seq(|w.disks[d]|, l requires 0 <= l < |w.disks[d]| => Lookup(w, d, l).value)
  }

  /** A slot holds its own residue class; an invalid slot is empty; a clean one repeats the device. */
  predicate SlotOk(w: World, i: nat)
    requires i < |w.slots|
  {
    var s := w.slots[i];
    && (s.valid <==> s.owner.Some?)
    && (s.dirty ==> s.valid)
    && (s.valid ==> s.owner.value < |w.disks| && s.lba % CACHE_BLOCKS == i)
    && (s.valid && !s.dirty ==> OnDisk(w.disks, s.owner.value, s.lba) == Some(s.data))
  }

  ghost predicate Coherent(w: World) {
    && |w.slots| == CACHE_BLOCKS
    && forall i :: 0 <= i < CACHE_BLOCKS ==> SlotOk(w, i)
  }

  /** No slot that `d` owns is dirty. */
  ghost predicate Clean(w: World, d: nat) {
    forall i :: 0 <= i < |w.slots| && w.slots[i].owner == Some(d) ==> !w.slots[i].dirty
  }

  /** The history of device `d` from `w0` to `w1` stays between its sectors and its view in `w0`. */
  ghost predicate Settled(w0: World, w1: World, d: nat)
    requires |w0.slots| == CACHE_BLOCKS && d < |w0.disks| == |w1.disks|
  {
    && Between(w0.disks[d], View(w0, d), w1.disks[d])
    && Stamped(w0.history, w1.history, d, w0.disks[d], View(w0, d))
  }

  ghost predicate SameShape(w0: World, w1: World) {
    && |w0.slots| == |w1.slots| == CACHE_BLOCKS
    && |w0.disks| == |w1.disks|
    && (forall d :: 0 <= d < |w0.disks| ==> |w0.disks[d]| == |w1.disks[d]|)
    && w0.failures <= w1.failures
    && w0.history <= w1.history
  }

  /** Nothing any reader can see changed: evictions and flushes only move view sectors to disk. */
  ghost predicate Quiet(w0: World, w1: World) {
    && SameShape(w0, w1)
    && (forall d: nat, l: nat :: Lookup(w1, d, l) == Lookup(w0, d, l))
    && (forall d :: 0 <= d < |w0.disks| ==> Settled(w0, w1, d))
  }

  /** The view changed at the single address (dev, lba). */
  ghost predicate Wrote(w0: World, w1: World, dev: nat, lba: nat, data: Sector) {
    && SameShape(w0, w1)
    && Lookup(w1, dev, lba) == Some(data)
    && (forall d: nat, l: nat :: (d, l) != (dev, lba) ==> Lookup(w1, d, l) == Lookup(w0, d, l))
    && (forall d :: 0 <= d < |w0.disks| ==> Settled(w0, w1, d))
  }

  /** The view after a direct write that took effect or not. */
  ghost predicate Rerouted(w0: World, w1: World, dev: nat, lba: nat, data: Sector, ok: bool)
    requires |w0.slots| == |w1.slots| == CACHE_BLOCKS
  {
    && (ok ==> Lookup(w1, dev, lba) == Some(data))
    && forall d: nat, l: nat :: !ok || (d, l) != (dev, lba) ==> Lookup(w1, d, l) == Lookup(w0, d, l)
  }

  lemma ReroutedViews(w0: World, w1: World, dev: nat, lba: nat, data: Sector, ok: bool, d: nat)
    requires SameShape(w0, w1) && Rerouted(w0, w1, dev, lba, data, ok) && d < |w0.disks|
    ensures View(w1, d) == if ok && d == dev then Put(View(w0, d), lba, data) else View(w0, d)
  {
    forall l | 0 <= l < |w0.disks[d]| && (!ok || (d, l) != (dev, lba)) ensures View(w1, d)[l] == View(w0, d)[l] {
      assert Lookup(w1, d, l) == Lookup(w0, d, l);
    }
    if ok && d == dev && lba < |w0.disks[d]| {
      assert Lookup(w1, d, lba) == Some(View(w1, d)[lba]);
    }
  }

  lemma QuietViews(w0: World, w1: World, d: nat)
    requires Quiet(w0, w1) && d < |w0.disks|
    ensures View(w1, d) == View(w0, d)
  {
    forall l | 0 <= l < |w0.disks[d]| ensures View(w1, d)[l] == View(w0, d)[l] {
      assert Lookup(w1, d, l) == Lookup(w0, d, l);
    }
  }

  lemma WroteViews(w0: World, w1: World, dev: nat, lba: nat, data: Sector, d: nat)
    requires Wrote(w0, w1, dev, lba, data) && d < |w0.disks|
    ensures View(w1, d) == if d == dev then Put(View(w0, d), lba, data) else View(w0, d)
  {
    forall l | 0 <= l < |w0.disks[d]| && (d, l) != (dev, lba) ensures View(w1, d)[l] == View(w0, d)[l] {
      assert Lookup(w1, d, l) == Lookup(w0, d, l);
    }
    if d == dev && lba < |w0.disks[d]| {
      assert Lookup(w1, d, lba) == Some(View(w1, d)[lba]);
    }
  }

  lemma QuietTransitive(w0: World, w1: World, w2: World)
    requires Quiet(w0, w1) && Quiet(w1, w2)
    ensures Quiet(w0, w2)
  {
    forall d | 0 <= d < |w0.disks| ensures Settled(w0, w2, d) {
      QuietViews(w0, w1, d);
      assert Settled(w0, w1, d) && Settled(w1, w2, d);
    }
    forall d: nat, l: nat ensures Lookup(w2, d, l) == Lookup(w0, d, l) {
      assert Lookup(w1, d, l) == Lookup(w0, d, l);
    }
  }

  /** After a flush that succeeded, the device equals the view. */
  lemma CleanMeansOnDisk(w: World, d: nat)
    requires Coherent(w) && d < |w.disks| && Clean(w, d)
    ensures View(w, d) == w.disks[d]
  {
    forall l | 0 <= l < |w.disks[d]| ensures View(w, d)[l] == w.disks[d][l] {
      assert SlotOk(w, l % CACHE_BLOCKS);
      assert Lookup(w, d, l) == Some(View(w, d)[l]);
    }
  }

  class Cache {
    const slots: array<Slot>
    const table: DeviceTable

    constructor (table: DeviceTable)
      ensures Valid() && this.table == table && fresh(slots)
      ensures forall d: nat, l: nat :: Lookup(W(), d, l) == OnDisk(table.disks, d, l)
    {
      this.table := table;
      slots := new Slot[CACHE_BLOCKS](_ => EMPTY_SLOT);
    }

    ghost function W(): World
      reads slots, table
    {
      World(slots[..], table.disks, table.failures, table.history)
    }

    ghost predicate Valid()
      reads slots, table
    {
      Coherent(W())
    }

    /** Write one dirty slot back to the device that owns it. */
    method FlushSlot(i: nat) returns (ok: bool)
      requires Valid() && i < slots.Length
      modifies slots, table
      ensures Valid() && Quiet(old(W()), W())
      ensures slots[..] == if ok then old(slots[..])[i := old(slots[i]).(dirty := false)] else old(slots[..])
      ensures table.failures == if ok then old(table.failures) else old(table.failures) + 1
    {
      ghost var w0 := W();
      assert SlotOk(w0, i);
      if !slots[i].valid || !slots[i].dirty || slots[i].owner == None {
        assert slots[..] == w0.slots[i := w0.slots[i].(dirty := false)];
        return true;
      }
      ok := table.Write(slots[i].owner.value, slots[i].lba, slots[i].data);
      if ok {
        slots[i] := slots[i].(dirty := false);
      }
      FlushedSlotQuiet(w0, W(), i, ok);
    }

    /** cache_read: on a miss the slot is flushed and refilled from the device. */
    method Read(dev: nat, lba: nat) returns (ok: bool, buf: Sector)
      requires Valid() && dev < |table.disks|
      modifies slots, table
      ensures Valid() && Quiet(old(W()), W())
      ensures ok ==> Lookup(W(), dev, lba) == Some(buf)
      ensures ok <==> table.failures == old(table.failures)
    {
      ghost var w0 := W();
      var i := lba % CACHE_BLOCKS;
      if !slots[i].valid || slots[i].lba != lba || slots[i].owner != Some(dev) {
        ok := FlushSlot(i);
        if !ok {
          return false, ZeroSector();
        }
        ghost var w1 := W();
        ok, buf := table.Read(dev, lba);
        if !ok {
          QuietSame(w1, W());
          QuietTransitive(w0, w1, W());
          return false, ZeroSector();
        }
        slots[i] := Slot(lba, false, true, buf, Some(dev));
        RetaggedSlotQuiet(w1, W(), i, slots[i]);
        QuietTransitive(w0, w1, W());
      } else {
        QuietSame(w0, w0);
      }
      return true, slots[i].data;
    }

    /** cache_write: on a miss the slot is flushed and retagged; the device is not touched otherwise. */
    method Write(dev: nat, lba: nat, buf: Sector) returns (ok: bool)
      requires Valid() && dev < |table.disks|
      modifies slots, table
      ensures Valid()
      ensures ok ==> Wrote(old(W()), W(), dev, lba, buf)
      ensures !ok ==> Quiet(old(W()), W())
      ensures ok <==> table.failures == old(table.failures)
    {
      ghost var w0 := W();
      var i := lba % CACHE_BLOCKS;
      if !slots[i].valid || slots[i].lba != lba || slots[i].owner != Some(dev) {
        ok := FlushSlot(i);
        if !ok {
          return false;
        }
      } else {
        QuietSame(w0, w0);
      }
      ghost var w1 := W();
      slots[i] := Slot(lba, true, true, buf, Some(dev));
      FilledSlotWrote(w0, w1, W(), i, slots[i]);
      return true;
    }

    /** fat32_cache_flush: every dirty sector of one device goes out, and only those. */
    method Flush(dev: nat) returns (ok: bool)
      requires Valid() && dev < |table.disks|
      modifies slots, table
      ensures Valid() && Quiet(old(W()), W())
      ensures ok ==> Clean(W(), dev) && table.disks[dev] == View(W(), dev)
      ensures ok <==> table.failures == old(table.failures)
    {
      ghost var w0 := W();
      QuietSame(w0, w0);
      for i := 0 to CACHE_BLOCKS
        invariant slots.Length == CACHE_BLOCKS && Valid() && Quiet(w0, W())
        invariant table.failures == w0.failures
        invariant forall j :: 0 <= j < i && slots[j].owner == Some(dev) ==> !slots[j].dirty
      {
        if slots[i].owner == Some(dev) {
          ghost var w1 := W();
          var flushed := FlushSlot(i);
          QuietTransitive(w0, w1, W());
          if !flushed {
            return false;
          }
        }
      }
      CleanMeansOnDisk(W(), dev);
      return true;
    }

    /** A direct device read, which bypasses the cache. */
    method DirectRead(dev: nat, lba: nat) returns (ok: bool, buf: Sector)
      requires Valid() && dev < |table.disks|
      modifies table
      ensures Valid() && Quiet(old(W()), W()) && slots[..] == old(slots[..])
      ensures table.disks == old(table.disks) && table.history == old(table.history)
      ensures ok ==> lba < |table.disks[dev]| && buf == table.disks[dev][lba]
      ensures ok <==> table.failures == old(table.failures)
    {
      ghost var w0 := W();
      ok, buf := table.Read(dev, lba);
      QuietSame(w0, W());
    }

    /** A direct device write followed by cache_invalidate_lba, as fat32_update_fsinfo pairs them. */
    method DirectWrite(dev: nat, lba: nat, buf: Sector) returns (ok: bool)
      requires Valid() && dev < |table.disks|
      modifies slots, table
      ensures Valid() && SameShape(old(W()), W())
      ensures ok ==> OnDisk(table.disks, dev, lba) == Some(buf)
      ensures Rerouted(old(W()), W(), dev, lba, buf, ok)
      ensures table.disks == if ok then old(table.disks)[dev := Put(old(table.disks[dev]), lba, buf)] else old(table.disks)
      ensures table.history == if ok then old(table.history) + [Stamp(dev, table.disks[dev])] else old(table.history)
      ensures Clean(old(W()), dev) ==> Clean(W(), dev)
      ensures ok <==> table.failures == old(table.failures)
    {
      ghost var w0 := W();
      ok := table.Write(dev, lba, buf);
      if !ok {
        QuietSame(w0, W());
        return;
      }
      var i := lba % CACHE_BLOCKS;
      if slots[i].valid && slots[i].lba == lba && slots[i].owner == Some(dev) {
        slots[i] := slots[i].(valid := false, dirty := false, owner := None);
      }
      forall j | 0 <= j < CACHE_BLOCKS ensures SlotOk(W(), j) {
        assert SlotOk(w0, j);
      }
    }
  }

  /** A failed or read-only device transfer changes nothing but the failure count. */
  lemma QuietSame(w0: World, w1: World)
    requires Coherent(w0) && w1 == w0.(failures := w1.failures) && w0.failures <= w1.failures
    ensures Coherent(w1) && Quiet(w0, w1)
  {
    forall j | 0 <= j < CACHE_BLOCKS ensures SlotOk(w1, j) {
      assert SlotOk(w0, j);
    }
    forall d: nat, l: nat ensures Lookup(w1, d, l) == Lookup(w0, d, l) {
    }
  }

  /** Replacing a clean slot by a clean copy of some device sector changes no view. */
  lemma RetaggedSlotQuiet(w0: World, w1: World, i: nat, s: Slot)
    requires Coherent(w0) && i < CACHE_BLOCKS
    requires !w0.slots[i].dirty && !s.dirty
    requires w1.slots == w0.slots[i := s] && SlotOk(w1, i)
    requires w1.disks == w0.disks && w1.history == w0.history && w0.failures <= w1.failures
    ensures Coherent(w1) && Quiet(w0, w1)
  {
    forall j | 0 <= j < CACHE_BLOCKS ensures SlotOk(w1, j) {
      assert SlotOk(w0, j);
    }
    forall d: nat, l: nat ensures Lookup(w1, d, l) == Lookup(w0, d, l) {
      assert SlotOk(w0, i);
    }
  }

  /** Filling a slot that holds this very sector, or nothing dirty, writes the view at one address. */
  lemma FilledSlotWrote(w0: World, w1: World, w2: World, i: nat, s: Slot)
    requires Coherent(w1) && Quiet(w0, w1) && i < CACHE_BLOCKS
    requires s.valid && s.dirty && s.owner.Some? && s.owner.value < |w1.disks| && s.lba % CACHE_BLOCKS == i
    requires Cached(w1.slots, s.owner.value, s.lba) || !w1.slots[i].dirty
    requires w2 == w1.(slots := w1.slots[i := s])
    ensures Coherent(w2) && Wrote(w0, w2, s.owner.value, s.lba, s.data)
  {
    forall j | 0 <= j < CACHE_BLOCKS ensures SlotOk(w2, j) {
      assert SlotOk(w1, j);
    }
    forall d: nat, l: nat | (d, l) != (s.owner.value, s.lba) ensures Lookup(w2, d, l) == Lookup(w0, d, l) {
      assert Lookup(w1, d, l) == Lookup(w0, d, l);
      assert SlotOk(w1, i);
    }
    forall d | 0 <= d < |w0.disks| ensures Settled(w0, w2, d) {
      assert Settled(w0, w1, d);
    }
  }

  /** Writing one dirty slot through leaves every view as it was. */
  lemma FlushedSlotQuiet(w0: World, w1: World, i: nat, ok: bool)
    requires Coherent(w0) && i < CACHE_BLOCKS && w0.slots[i].dirty
    requires w1.failures == if ok then w0.failures else w0.failures + 1
    requires w0.slots[i].owner.Some?
    requires var s := w0.slots[i]; var d := s.owner.value;
      if ok then
        && d < |w0.disks| && s.lba < |w0.disks[d]|
        && w1.slots == w0.slots[i := s.(dirty := false)]
        && w1.disks == w0.disks[d := Put(w0.disks[d], s.lba, s.data)]
        && w1.history == w0.history + [Stamp(d, w1.disks[d])]
      else w1.slots == w0.slots && w1.disks == w0.disks && w1.history == w0.history
    ensures Coherent(w1) && Quiet(w0, w1)
  {
    var s := w0.slots[i];
    assert SlotOk(w0, i);
    forall j | 0 <= j < CACHE_BLOCKS ensures SlotOk(w1, j) {
      assert SlotOk(w0, j);
    }
    forall d: nat, l: nat ensures Lookup(w1, d, l) == Lookup(w0, d, l) {
    }
    forall d | 0 <= d < |w0.disks| ensures Settled(w0, w1, d) {
      if ok && d == s.owner.value {
        assert Lookup(w0, d, s.lba) == Some(View(w0, d)[s.lba]);
      }
    }
  }
}
