/** Where the numbers of a FAT32 volume lie: the fields of boot sector, FSInfo, FAT and directory entry
    as little-endian numbers at their byte positions. */
module DiskLayout {
  import opened Arithmetic
  import opened Blocks
  import opened FatTable
  import opened Fat32
  import opened Format
  import opened ShortNames
  import opened DirSlots
  import opened FileBytes
  import opened FileSystem

  /** A byte string read as one number, lowest byte first. */
  function LittleEndian(b: seq<Byte>): nat {
    if b == [] then 0 else b[0] + 0x100 * LittleEndian(b[1..])
  }

  lemma FourBytes(a: Byte, b: Byte, c: Byte, d: Byte)
    ensures LittleEndian([a, b]) == a as int + 0x100 * b as int
    ensures LittleEndian([a, b, c, d]) == Join32(a, b, c, d)
  {
    assert LittleEndian([d]) == d as int && LittleEndian([b]) == b as int;
    assert [a, b][1..] == [b] && [c, d][1..] == [d];
    assert LittleEndian([c, d]) == c as int + 0x100 * d as int;
    assert [a, b, c, d][1..] == [b, c, d] && [b, c, d][1..] == [c, d];
    assert LittleEndian([b, c, d]) == b as int + 0x100 * LittleEndian([c, d]);
  }

  /** Loads and stores of a sector's words. */
  lemma WordsInSectors(s: Sector, off: nat, v: Word)
    requires off + 4 <= BLOCK_SIZE
    ensures Load32(s, off) == LittleEndian(s[off..off + 4]) && Load16(s, off) == LittleEndian(s[off..off + 2])
    ensures LittleEndian(Store32(s, off, v)[off..off + 4]) == v
    ensures Store32(s, off, v)[..off] == s[..off] && Store32(s, off, v)[off + 4..] == s[off + 4..]
  {
    hide Join32;
    var r := Store32(s, off, v);
    FourBytes(s[off], s[off + 1], s[off + 2], s[off + 3]);
    FourBytes(r[off], r[off + 1], r[off + 2], r[off + 3]);
    assert s[off..off + 4] == [s[off], s[off + 1], s[off + 2], s[off + 3]] && s[off..off + 2] == [s[off], s[off + 1]];
    assert r[off..off + 4] == [r[off], r[off + 1], r[off + 2], r[off + 3]];
  }

  lemma HalfWords(s: Sector, off: nat)
    requires off + 2 <= BLOCK_SIZE
    ensures Load16(s, off) == LittleEndian(s[off..off + 2])
  {
    FourBytes(s[off], s[off + 1], 0, 0);
    assert s[off..off + 2] == [s[off], s[off + 1]];
  }

  /** Entry `c` of a FAT lies at byte 4c of its sectors. */
  lemma FatEntryAt(img: Disk, start: nat, count: nat, c: nat)
    requires start + FatSectors(count) <= |img| && c < count
    ensures 4 * c + 4 <= FatSectors(count) * BLOCK_SIZE
    ensures FatWords(img, start, count)[c] == LittleEndian(SectorBytes(img, start, FatSectors(count))[4 * c..4 * c + 4])
  {
    hide Load32, LittleEndian, Load16;
    EntryPlace(c, count);
    var lba, off := c * 4 / BLOCK_SIZE, c * 4 % BLOCK_SIZE;
    SectorIn(img, start, FatSectors(count), lba);
    WordsInSectors(img[start + lba], off, 0);
    var b := SectorBytes(img, start, FatSectors(count));
    assert 4 * c == BLOCK_SIZE * lba + off;
    SliceInSlice(b, BLOCK_SIZE * lba, off);
  }

  lemma SliceInSlice(b: seq<Byte>, at: nat, off: nat)
    requires at + BLOCK_SIZE <= |b| && off + 4 <= BLOCK_SIZE
    ensures b[at..at + BLOCK_SIZE][off..off + 4] == b[at + off..at + off + 4]
  {
    var part := b[at..at + BLOCK_SIZE];
    var x, y := part[off..off + 4], b[at + off..at + off + 4];
    forall k | 0 <= k < |x| ensures x[k] == y[k] {
      assert x[k] == part[off + k] == b[at + (off + k)];
    }
  }

  lemma {:induction false} SectorIn(img: Disk, lba: nat, n: nat, k: nat)
    requires lba + n <= |img| && k < n
    ensures BLOCK_SIZE * k + BLOCK_SIZE <= BLOCK_SIZE * n
    ensures SectorBytes(img, lba, n)[BLOCK_SIZE * k..BLOCK_SIZE * k + BLOCK_SIZE] == img[lba + k]
  {
    if k < n - 1 {
      SectorIn(img, lba, n - 1, k);
    }
  }

  /** A FAT sector has 128 entries, and the FATs have no sector too many: one entry for every eight
      sectors of the device, rounded up to whole sectors. */
  lemma FatSizeTight(n: nat)
    requires 8 <= n
    ensures 128 * (FatSize(n) - 1) < n / 8 <= 128 * FatSize(n)
  {
  }

  /** The first cluster of a directory entry, its high half before its low half, and the file's size. */
  lemma EntryFields(e: Slot32)
    ensures EntryCluster(e) == LittleEndian(e[26..28] + e[20..22]) && EntrySize(e) == LittleEndian(e[28..32])
  {
    FourBytes(e[26], e[27], e[20], e[21]);
    FourBytes(e[28], e[29], e[30], e[31]);
    assert e[26..28] + e[20..22] == [e[26], e[27], e[20], e[21]];
    assert e[28..32] == [e[28], e[29], e[30], e[31]];
  }

  /** A new entry: name, archive bit, first cluster, no size, and zeros in all other fields. */
  lemma NewEntryBytes(name: CString, start: Word)
    ensures var e := NewEntry(name, start);
      && e[..11] == To83(name) && e[11] == 0x20 && e[12..20] == ZeroBytes(8) && e[22..26] == ZeroBytes(4)
      && LittleEndian(e[26..28] + e[20..22]) == start && e[28..32] == ZeroBytes(4)
  {
    hide To83, Restart, EntryCluster, EntrySize, LittleEndian;
    var e := NewEntry(name, start);
    var blank: Slot32 := To83(name) + [ATTR_ARCHIVE] + ZeroBytes(20);
    NewEntryFields(name, start);
    EntryFields(e);
    NoSize(e);
    assert blank[12..20] == ZeroBytes(8) && blank[22..26] == ZeroBytes(4);
  }

  lemma NoSize(e: Slot32)
    requires EntrySize(e) == 0
    ensures e[28..32] == ZeroBytes(4)
  {
    hide Join32;
    assert EntrySize(e) == Join32(e[28], e[29], e[30], e[31]);
    NoNumber(e[28], e[29], e[30], e[31]);
    assert ZeroBytes(4) == [0, 0, 0, 0];
    assert e[28..32] == [e[28], e[29], e[30], e[31]];
  }

  lemma NoNumber(a: Byte, b: Byte, c: Byte, d: Byte)
    requires Join32(a, b, c, d) == 0
    ensures a == b == c == d == 0
  {
  }

  /** The boot sector that formatting writes: a jump, COFFEEOS, 512-byte sectors, eight to a cluster, 32
      reserved, two FATs, no 16-bit counts, the size of the device and of a FAT, the root directory in
      cluster 2, FSInfo in sector 1, the backup in sector 6, serial number, label and signatures. */
  lemma BootFields(n: Word, volLabel: seq<Byte>)
    requires |volLabel| == 11
    ensures var s := BootSector(n, volLabel);
      && s[..11] == [0xEB, 0x58, 0x90, 0x43, 0x4F, 0x46, 0x46, 0x45, 0x45, 0x4F, 0x53]
      && s[11..24] == [0, 2, 8, 32, 0, 2, 0, 0, 0, 0, 0xF8, 0, 0]
      && s[24..32] == [1, 0, 1, 0, 0, 0, 0, 0]
      && LittleEndian(s[32..36]) == n && LittleEndian(s[36..40]) == FatSize(n)
      && s[40..52] == [0, 0, 0, 0, 2, 0, 0, 0, 1, 0, 6, 0]
      && s[52..64] == ZeroBytes(12) && s[64..67] == [0x80, 0, 0x29] && s[67..71] == [0x32, 0xEE, 0xFF, 0xC0]
      && s[71..82] == volLabel && s[82..90] == [0x46, 0x41, 0x54, 0x33, 0x32, 0x20, 0x20, 0x20]
      && s[90..510] == ZeroBytes(420) && s[510..] == [0x55, 0xAA]
  {
    hide LittleEndian, BootSector, FatSize;
    BootNumbers(n, volLabel);
    BootConstants(n, volLabel);
  }

  lemma BootNumbers(n: Word, volLabel: seq<Byte>)
    requires |volLabel| == 11
    ensures var s := BootSector(n, volLabel); LittleEndian(s[32..36]) == n && LittleEndian(s[36..40]) == FatSize(n)
  {
    hide LittleEndian, ByteOf;
    var s := BootSector(n, volLabel);
    BootWord(s, 32, n);
    BootWord(s, 36, FatSize(n));
  }

  lemma BootConstants(n: Word, volLabel: seq<Byte>)
    requires |volLabel| == 11
    ensures var s := BootSector(n, volLabel);
      && s[..11] == [0xEB, 0x58, 0x90, 0x43, 0x4F, 0x46, 0x46, 0x45, 0x45, 0x4F, 0x53]
      && s[11..24] == [0, 2, 8, 32, 0, 2, 0, 0, 0, 0, 0xF8, 0, 0] && s[24..32] == [1, 0, 1, 0, 0, 0, 0, 0]
      && s[40..52] == [0, 0, 0, 0, 2, 0, 0, 0, 1, 0, 6, 0]
      && s[52..64] == ZeroBytes(12) && s[64..67] == [0x80, 0, 0x29] && s[67..71] == [0x32, 0xEE, 0xFF, 0xC0]
      && s[71..82] == volLabel && s[82..90] == [0x46, 0x41, 0x54, 0x33, 0x32, 0x20, 0x20, 0x20]
      && s[90..510] == ZeroBytes(420) && s[510..] == [0x55, 0xAA]
  {
    hide FatSize;
  }

  lemma BootWord(s: Sector, off: nat, w: Word)
    requires off + 4 <= BLOCK_SIZE && forall k :: 0 <= k < 4 ==> s[off + k] == ByteOf(w, k)
    ensures LittleEndian(s[off..off + 4]) == w
  {
    assert s[off + 0] == ByteOf(w, 0) && s[off + 1] == ByteOf(w, 1) && s[off + 2] == ByteOf(w, 2) && s[off + 3] == ByteOf(w, 3);
    ByteOfJoins(w);
    FourBytes(s[off], s[off + 1], s[off + 2], s[off + 3]);
    assert s[off..off + 4] == [s[off], s[off + 1], s[off + 2], s[off + 3]];
  }

  /** The backup lacks the three geometry numbers and is the boot sector otherwise. */
  lemma BackupFields(n: Word, volLabel: seq<Byte>, i: nat)
    requires |volLabel| == 11 && i < BLOCK_SIZE
    ensures BackupSector(n, volLabel)[i] == if i == 24 || i == 26 || i == 64 then 0 else BootSector(n, volLabel)[i]
  {
  }

  /** What mounting reads in any boot sector. */
  lemma MountReads(s: Sector)
    ensures var b := ReadBpb(s);
      && b.bytesPerSector == LittleEndian(s[11..13]) && b.sectorsPerCluster == s[13] && b.reserved == LittleEndian(s[14..16])
      && b.numFats == s[16] && b.total16 == LittleEndian(s[19..21]) && b.total32 == LittleEndian(s[32..36])
      && b.fatSize32 == LittleEndian(s[36..40]) && b.rootCluster == LittleEndian(s[44..48])
      && b.fsInfo == LittleEndian(s[48..50]) && b.backup == LittleEndian(s[50..52])
      && (b.fat32 <==> s[82..90] == [0x46, 0x41, 0x54, 0x33, 0x32, 0x20, 0x20, 0x20])
      && (b.signed <==> s[510..] == [0x55, 0xAA])
    ensures Accepts(ReadBpb(s)) <==>
      && s[510..] == [0x55, 0xAA] && LittleEndian(s[11..13]) == 512 && s[16] == 2
      && s[82..90] == [0x46, 0x41, 0x54, 0x33, 0x32, 0x20, 0x20, 0x20]
      && LittleEndian(s[44..48]) >= 2 && 1 <= s[13] <= 8
  {
    hide LittleEndian, Load16, Load32, Store32;
    HalfWords(s, 11);
    HalfWords(s, 14);
    HalfWords(s, 19);
    HalfWords(s, 48);
    HalfWords(s, 50);
    WordsInSectors(s, 32, 0);
    WordsInSectors(s, 36, 0);
    WordsInSectors(s, 44, 0);
    assert s[510..] == [s[510], s[511]];
  }

  /** Where mounting finds the regions of an accepted volume whose numbers do not run over: two FATs of
      equal size behind the reserved sectors, then the clusters, as many as the rest has room for. */
  lemma MountLayout(dev: nat, b: Bpb)
    requires Accepts(b)
    requires var total := if b.total32 != 0 then b.total32 else b.total16;
      b.reserved + 2 * b.fatSize32 <= total < U32_RANGE
    ensures var g, total := MountGeometry(dev, b), if b.total32 != 0 then b.total32 else b.total16;
      && g.dev == dev && g.fatStart == b.reserved && g.fat2Start == b.reserved + b.fatSize32
      && g.dataStart == b.reserved + 2 * b.fatSize32 && g.fsInfoSector == b.fsInfo && g.backupBootSector == b.backup
      && g.dataStart + g.totalClusters * b.sectorsPerCluster <= total < g.dataStart + (g.totalClusters + 1) * b.sectorsPerCluster
      && g.sectorsPerCluster == b.sectorsPerCluster
  {
    var total := if b.total32 != 0 then b.total32 else b.total16;
    var left := total - (b.reserved + 2 * b.fatSize32);
    assert left % U32_RANGE == left;
    Locate(left, b.sectorsPerCluster);
    MulAddOne(left / b.sectorsPerCluster, b.sectorsPerCluster);
  }

  /** The other sectors of a blank volume: media byte and end marks in the FAT, and the label's entry. */
  lemma FirstSectors(volLabel: seq<Byte>)
    requires |volLabel| == 11
    ensures LittleEndian(FatHead()[..4]) == 0x0FFF_FFF8 && LittleEndian(FatHead()[4..8]) == 0x0FFF_FFFF
    ensures LittleEndian(FatHead()[8..12]) == 0x0FFF_FFFF && FatHead()[12..] == ZeroBytes(500)
    ensures var s := LabelSector(volLabel);
      s[..11] == volLabel && s[11] == 0x08 && s[12..] == ZeroBytes(500)
  {
    hide LittleEndian, Store32;
    var a := Store32(ZeroSector(), 0, 0x0FFF_FFF8);
    var b := Store32(a, 4, 0x0FFF_FFFF);
    WordsInSectors(ZeroSector(), 0, 0x0FFF_FFF8);
    WordsInSectors(a, 4, 0x0FFF_FFFF);
    WordsInSectors(b, 8, 0x0FFF_FFFF);
    var h := Store32(b, 8, 0x0FFF_FFFF);
    assert FatHead() == h;
    assert h[..4] == h[..8][..4] == b[..8][..4] == b[..4] == a[..4] == a[0..4];
    assert h[4..8] == h[..8][4..8] == b[..8][4..8] == b[4..8];
    assert h[12..] == b[12..] == b[8..][4..] == a[8..][4..] == a[4..][8..] == ZeroSector()[4..][8..] == ZeroBytes(500);
  }

  /** The FSInfo sector of a blank volume: both signatures, an estimate of the free count, which leaves out
      two of one cluster for every eight sectors, and 3 as the hint. */
  lemma BlankInfo(n: Word)
    ensures var s := InfoSector(n);
      && s[..4] == [0x52, 0x52, 0x61, 0x41] && s[4..484] == ZeroBytes(480) && s[484..488] == [0x72, 0x72, 0x41, 0x61]
      && LittleEndian(s[488..492]) == (if n / 8 > 2 then n / 8 - 2 else 0) && LittleEndian(s[492..496]) == 3
      && s[496..] == ZeroBytes(12) + [0, 0, 0x55, 0xAA]
  {
    hide LittleEndian, WithCounts;
    InfoFields(ZeroSector(), StoredFree(n), 3);
    assert ZeroSector()[..4][0] == 0;
  }

  /** What the first byte and the attributes of a directory entry say. */
  lemma EntryMarks(e: Slot32)
    ensures (IsEnd(e) <==> e[0] == 0) && (IsDeleted(e) <==> e[0] == 0xE5) && (IsLfn(e) <==> e[11] == 0x0F)
    ensures (IsDirectory(e) <==> e[11] % 0x20 >= 0x10) && (IsPlain(e) <==> e[11] % 0x20 < 0x08)
  {
  }

  /** A label is upper-cased, cut to eleven bytes or filled up with spaces. */
  lemma LabelBytes(name: seq<Byte>, i: nat)
    requires i < 11
    ensures Label11(name)[i] == if i >= |name| then 0x20 else if 0x61 <= name[i] <= 0x7A then name[i] - 0x20 else name[i]
  {
  }

  /** An FSInfo sector after its counters were stored: everything else in it is as before, or zero with
      its signatures RRaA at byte 0, rrAa at byte 484 and 55 AA at its end, if the first two were not there. */
  lemma InfoFields(s: Sector, free: Word, next: Word)
    ensures var r, signed := WithCounts(s, free, next), s[..4] == [0x52, 0x52, 0x61, 0x41] && s[484..488] == [0x72, 0x72, 0x41, 0x61];
      && LittleEndian(r[488..492]) == free && LittleEndian(r[492..496]) == next
      && (signed ==> r[..488] == s[..488] && r[496..] == s[496..])
      && (!signed ==>
            && r[..4] == [0x52, 0x52, 0x61, 0x41] && r[4..484] == ZeroBytes(480) && r[484..488] == [0x72, 0x72, 0x41, 0x61]
            && r[496..] == ZeroBytes(12) + [0, 0, 0x55, 0xAA])
  {
    hide LittleEndian, Store32, Load32;
    var lead := Store32(ZeroSector(), 0, LEAD_SIG);
    var both := Store32(lead, STRUCT_SIG_AT, STRUCT_SIG);
    var base := if IsFsInfo(s) then s else Store32(both, TRAIL_SIG_AT, TRAIL_SIG);
    var one := Store32(base, FREE_COUNT_AT, free);
    WordsInSectors(base, FREE_COUNT_AT, free);
    WordsInSectors(one, NEXT_FREE_AT, next);
    var r := Store32(one, NEXT_FREE_AT, next);
    assert r[488..492] == r[..492][488..] == one[..492][488..] == one[488..492];
    assert r[..488] == r[..492][..488] == one[..488] == base[..488];
    assert r[496..] == one[496..] == one[492..][4..] == base[492..][4..] == base[496..];
    SignatureBytes(s);
    WordsInSectors(ZeroSector(), 0, LEAD_SIG);
    WordsInSectors(lead, STRUCT_SIG_AT, STRUCT_SIG);
    WordsInSectors(both, TRAIL_SIG_AT, TRAIL_SIG);
    ResignedBytes(lead, both, Store32(both, TRAIL_SIG_AT, TRAIL_SIG));
    assert base[496..] == base[488..508][8..] + base[508..];
  }

  lemma StoredBytes(s: Sector, off: nat, v: Word)
    requires off + 4 <= BLOCK_SIZE
    ensures Store32(s, off, v)[off..off + 4] == [v % 0x100, v / 0x100 % 0x100, v / 0x1_0000 % 0x100, v / 0x100_0000]
  {
  }

  lemma ResignedBytes(lead: Sector, both: Sector, base: Sector)
    requires lead == Store32(ZeroSector(), 0, LEAD_SIG) && both == Store32(lead, STRUCT_SIG_AT, STRUCT_SIG)
    requires base == Store32(both, TRAIL_SIG_AT, TRAIL_SIG)
    ensures base[..4] == [0x52, 0x52, 0x61, 0x41] && base[4..484] == ZeroBytes(480) && base[484..488] == [0x72, 0x72, 0x41, 0x61]
    ensures base[488..508] == ZeroBytes(20) && base[508..] == [0, 0, 0x55, 0xAA]
  {
    hide Store32;
    StoredBytes(ZeroSector(), 0, LEAD_SIG);
    StoredBytes(lead, STRUCT_SIG_AT, STRUCT_SIG);
    StoredBytes(both, TRAIL_SIG_AT, TRAIL_SIG);
    assert base[..4] == both[..4] == lead[0..4];
    assert base[484..488] == both[484..488];
    assert base[508..] == base[508..512];
  }

  lemma SignatureBytes(s: Sector)
    ensures IsFsInfo(s) <==> s[..4] == [0x52, 0x52, 0x61, 0x41] && s[484..488] == [0x72, 0x72, 0x41, 0x61]
  {
    assert s[..4] == [s[0], s[1], s[2], s[3]] && s[484..488] == [s[484], s[485], s[486], s[487]];
  }
}
