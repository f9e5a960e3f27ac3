/** Sectors, disks and the block-device table (fs/blkdev.c, include/blkdev.h). */
module Blocks {
  const BLOCK_SIZE: nat := 512

  type Byte = b: int | 0 <= b < 256
  type Sector = s: seq<Byte> | |s| == BLOCK_SIZE witness seq(BLOCK_SIZE, _ => 0)
  type Disk = seq<Sector>

  function ZeroSector(): (s: Sector)
    ensures forall i :: 0 <= i < BLOCK_SIZE ==> s[i] == 0
  {
    seq(BLOCK_SIZE, _ => 0)
  }

  /** The image that one completed single-sector device write left behind. */
  datatype Stamp = Stamp(dev: nat, image: Disk)

  /** `d` with sector `lba` replaced; an address off the disk changes nothing. */
  function Put(d: Disk, lba: nat, s: Sector): (r: Disk)
    ensures |r| == |d|
  {
    if lba < |d| then d[lba := s] else d
  }

  /** Every sector of `m` is the one in `a` or the one in `b`. */
  ghost predicate Between(a: Disk, b: Disk, m: Disk) {
    && |a| == |b| == |m|
    && forall l :: 0 <= l < |m| ==> m[l] == a[l] || m[l] == b[l]
  }

  /** Every image of device `dev` that `h1` records after `h0` lies between `a` and `b`. */
  ghost predicate Stamped(h0: seq<Stamp>, h1: seq<Stamp>, dev: nat, a: Disk, b: Disk) {
    && h0 <= h1
    && forall k :: |h0| <= k < |h1| && h1[k].dev == dev ==> Between(a, b, h1[k].image)
  }

  /** The registered devices. A transfer may fail at any time; a failed read leaves its
      buffer untouched and a failed write leaves the sector untouched. `failures` counts
      failed transfers, which no code of the volume looks at, and `history` keeps the image after each completed write. */
  class DeviceTable {
    var disks: seq<Disk>
    var failures: nat
    ghost var history: seq<Stamp>

    constructor (disks: seq<Disk>)
      ensures this.disks == disks && failures == 0 && history == []
    {
      this.disks := disks;
      failures := 0;
      history := [];
    }

    method Read(dev: nat, lba: nat) returns (ok: bool, data: Sector)
      requires dev < |disks|
      modifies this`failures
      ensures ok ==> lba < |disks[dev]| && data == disks[dev][lba]
      ensures failures == if ok then old(failures) else old(failures) + 1
    {
      ok, data := *, ZeroSector();
      if ok && lba < |disks[dev]| {
        data := disks[dev][lba];
      } else {
        ok := false;
        failures := failures + 1;
      }
    }

    method Write(dev: nat, lba: nat, data: Sector) returns (ok: bool)
      requires dev < |disks|
      modifies this
      ensures ok ==> lba < |old(disks[dev])| && disks == old(disks)[dev := Put(old(disks[dev]), lba, data)]
      ensures ok ==> history == old(history) + [Stamp(dev, disks[dev])] && failures == old(failures)
      ensures !ok ==> disks == old(disks) && history == old(history) && failures == old(failures) + 1
    {
      ok := *;
      if ok && lba < |disks[dev]| {
        disks := disks[dev := Put(disks[dev], lba, data)];
        history := history + [Stamp(dev, disks[dev])];
      } else {
        ok := false;
        failures := failures + 1;
      }
    }
  }
}
