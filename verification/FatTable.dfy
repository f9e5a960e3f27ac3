/** What a device image means as a FAT32 volume: two FAT copies and a data region
    (include/fat32.h; section "FAT Data Structure" of the Microsoft FAT32 specification). */
module FatTable {
  import opened Blocks
  import opened SectorCache

  const FAT32_EOC: nat := 0x0FFF_FFF8
  const FAT32_BAD: nat := 0x0FFF_FFF7
  const FAT32_FREE: nat := 0
  const ENTRY_RANGE: nat := 0x1000_0000  // 28-bit entries: FAT32_MASK + 1
  const U32_RANGE: nat := 0x1_0000_0000

  type Word = w: nat | w < U32_RANGE

  /** Sectors that hold `count` FAT entries. */
  function FatSectors(count: nat): nat { (4 * count + BLOCK_SIZE - 1) / BLOCK_SIZE }

  /** Placement of one mounted volume. */
  datatype Geometry = Geometry(
    dev: nat, fatStart: nat, fat2Start: nat, dataStart: nat,
    sectorsPerCluster: nat, totalClusters: nat, fsInfoSector: nat, backupBootSector: nat)
  {
    /** Regions follow each other, every entry has room in one FAT, all clusters lie on a device of
        `n` sectors, and no cluster number collides with a reserved 28-bit entry value. */
    ghost predicate Fits(n: nat) {
      && n <= U32_RANGE
      && fsInfoSector < fatStart && backupBootSector + 1 < fatStart
      && fatStart <= fat2Start
      && dataStart == fat2Start + (fat2Start - fatStart)
      && FatSectors(totalClusters + 2) <= fat2Start - fatStart
      && 1 <= sectorsPerCluster <= 8
      && 1 <= totalClusters
      && totalClusters + 1 < FAT32_BAD
      && dataStart + Span(totalClusters) <= n
    }

    function BytesPerCluster(): nat { sectorsPerCluster * BLOCK_SIZE }

    predicate InRange(c: nat) { 2 <= c <= totalClusters + 1 }

    /** The sectors that `k` clusters take. */
    function Span(k: nat): nat {
      if k == 0 then 0 else Span(k - 1) + sectorsPerCluster
    }

    function ClusterLba(c: nat): nat
      requires 2 <= c
    {
      dataStart + Span(c - 2)
    }

    lemma {:induction false} SpanIsProduct(k: nat)
      ensures Span(k) == k * sectorsPerCluster
    {
      if k != 0 {
        SpanIsProduct(k - 1);
      }
    }

    /** fat32_cluster_to_lba computes ClusterLba. */
    lemma ClusterToLba(c: nat)
      requires 2 <= c
      ensures ClusterLba(c) == dataStart + (c - 2) * sectorsPerCluster
    {
      SpanIsProduct(c - 2);
    }

    lemma {:induction false} SpanMonotone(a: nat, b: nat)
      requires a <= b
      ensures Span(a) <= Span(b)
    {
      if a < b {
        SpanMonotone(a, b - 1);
      }
    }
  }

  function Join32(b0: Byte, b1: Byte, b2: Byte, b3: Byte): Word {
    b0 as int + 0x100 * b1 as int + 0x1_0000 * b2 as int + 0x100_0000 * b3 as int
  }

  lemma SplitJoin32(v: Word)
    ensures Join32(v % 0x100, v / 0x100 % 0x100, v / 0x1_0000 % 0x100, v / 0x100_0000) == v
  {
    assert v / 0x1_0000 == v / 0x100 / 0x100;
    assert v / 0x100_0000 == v / 0x1_0000 / 0x100;
  }

  /** Little-endian 32-bit load. */
  function Load32(s: Sector, off: nat): Word
    requires off + 4 <= BLOCK_SIZE
  {
    Join32(s[off], s[off + 1], s[off + 2], s[off + 3])
  }

  /** Little-endian 32-bit store. */
  function Store32(s: Sector, off: nat, v: Word): (r: Sector)
    requires off + 4 <= BLOCK_SIZE
    ensures Load32(r, off) == v
    ensures forall i :: 0 <= i < BLOCK_SIZE && !(off <= i < off + 4) ==> r[i] == s[i]
  {
    SplitJoin32(v);
    var b := [v % 0x100, v / 0x100 % 0x100, v / 0x1_0000 % 0x100, v / 0x100_0000];
    s[..off] + b + s[off + 4..]
  }

  /** The raw 32-bit words of one FAT copy, by cluster number. */
  function FatWords(img: Disk, start: nat, count: nat): (f: seq<Word>)
    requires start + FatSectors(count) <= |img|
    ensures |f| == count
  {
    seq(count, c requires 0 <= c < count =>
      EntryPlace(c, count); Load32(img[start + c * 4 / BLOCK_SIZE], c * 4 % BLOCK_SIZE))
  }

  /** The bytes of `n` consecutive sectors. */
  function SectorBytes(img: Disk, lba: nat, n: nat): (b: seq<Byte>)
    requires lba + n <= |img|
    ensures |b| == n * BLOCK_SIZE
  {
    if n == 0 then [] else SectorBytes(img, lba, n - 1) + img[lba + n - 1]
  }

  /** A volume as a value: the words of both FAT copies and the bytes of every cluster. */
  datatype FatImage = FatImage(fat1: seq<Word>, fat2: seq<Word>, data: seq<seq<Byte>>)

  lemma ClusterOnDevice(g: Geometry, n: nat, c: nat)
    requires g.Fits(n) && g.InRange(c)
    ensures g.dataStart <= g.ClusterLba(c) && g.ClusterLba(c) + g.sectorsPerCluster <= n
  {
    g.SpanMonotone(c - 1, g.totalClusters);
  }

  /** The clusters of a volume; numbers 0 and 1 name no cluster. */
  function ClusterData(g: Geometry, img: Disk): (r: seq<seq<Byte>>)
    requires g.Fits(|img|)
    ensures |r| == g.totalClusters + 2
  {
    seq(g.totalClusters + 2, c requires 0 <= c < g.totalClusters + 2 =>
      if c < 2 then [] else ClusterOnDevice(g, |img|, c); SectorBytes(img, g.ClusterLba(c), g.sectorsPerCluster))
  }

  function Abs(g: Geometry, img: Disk): (v: FatImage)
    requires g.Fits(|img|)
    ensures |v.fat1| == |v.fat2| == |v.data| == g.totalClusters + 2
  {
    FatImage(FatWords(img, g.fatStart, g.totalClusters + 2), FatWords(img, g.fat2Start, g.totalClusters + 2),
             ClusterData(g, img))
  }

  /** A 28-bit entry value. */
  function Low28(w: Word): nat { w % ENTRY_RANGE }

  /** `value` in the low 28 bits under the reserved nibble of `word`. */
  function Merge28(word: Word, value: nat): (w: Word)
    ensures Low28(w) == value % ENTRY_RANGE
    ensures w / ENTRY_RANGE == word / ENTRY_RANGE
  {
    word / ENTRY_RANGE * ENTRY_RANGE + value % ENTRY_RANGE
  }

  /** Both copies of entry `c` set to `value`, each under its own reserved nibble. */
  function SetEntry(v: FatImage, c: nat, value: nat): (r: FatImage)
    requires c < |v.fat1| == |v.fat2|
    ensures |r.fat1| == |r.fat2| == |v.fat1| && r.data == v.data
  {
    v.(fat1 := v.fat1[c := Merge28(v.fat1[c], value)], fat2 := v.fat2[c := Merge28(v.fat2[c], value)])
  }

  /** Both copies read the value in the low 28 bits, keep their own high nibble, and keep every other word. */
  lemma EntrySet(v: FatImage, c: nat, value: nat)
    requires c < |v.fat1| == |v.fat2|
    ensures var r := SetEntry(v, c, value);
      && r.fat1[c] % 0x1000_0000 == r.fat2[c] % 0x1000_0000 == value % 0x1000_0000 && r.data == v.data
      && r.fat1[c] / 0x1000_0000 == v.fat1[c] / 0x1000_0000 && r.fat2[c] / 0x1000_0000 == v.fat2[c] / 0x1000_0000
      && forall x :: 0 <= x < |v.fat1| && x != c ==> r.fat1[x] == v.fat1[x] && r.fat2[x] == v.fat2[x]
  {
  }

  /** 128 entries to a sector, each in its own four bytes. */
  lemma EntryPlace(c: nat, count: nat)
    requires c < count
    ensures c * 4 / BLOCK_SIZE == c / 128 < FatSectors(count)
    ensures c * 4 % BLOCK_SIZE == 4 * (c % 128) <= BLOCK_SIZE - 4
  {
  }

  lemma StoredWord(s: Sector, a: nat, v: Word, b: nat)
    requires a < 128 && b < 128
    ensures Load32(Store32(s, 4 * a, v), 4 * b) == if a == b then v else Load32(s, 4 * b)
  {
    if a < b {
      assert 4 * a + 4 <= 4 * b;
    } else if b < a {
      assert 4 * b + 4 <= 4 * a;
    }
  }

  /** Entry `c` of the FAT copy at `start` is the word at `off` of sector `lba`. */
  predicate EntryAt(c: nat, start: nat, lba: nat, off: nat) {
    lba == start + c * 4 / BLOCK_SIZE && off == c * 4 % BLOCK_SIZE
  }

  /** A word store in one FAT copy changes one entry of that copy. */
  lemma PutWord(img: Disk, start: nat, count: nat, c: nat, v: Word, lba: nat, off: nat)
    requires start + FatSectors(count) <= |img| && c < count && EntryAt(c, start, lba, off)
    ensures lba < start + FatSectors(count) && off + 4 <= BLOCK_SIZE
    ensures FatWords(img, start, count)[c] == Load32(img[lba], off)
    ensures FatWords(Put(img, lba, Store32(img[lba], off, v)), start, count) == FatWords(img, start, count)[c := v]
  {
    EntryPlace(c, count);
    forall k | 0 <= k < count
      ensures FatWords(Put(img, lba, Store32(img[lba], off, v)), start, count)[k] == FatWords(img, start, count)[c := v][k]
    {
      WordAfterPut(img, start, count, c, v, k);
    }
  }

  lemma WordAfterPut(img: Disk, start: nat, count: nat, c: nat, v: Word, k: nat)
    requires start + FatSectors(count) <= |img| && c < count && k < count
    ensures c / 128 < FatSectors(count) && c % 128 < 128
    ensures var lba := start + c / 128;
      FatWords(Put(img, lba, Store32(img[lba], 4 * (c % 128), v)), start, count)[k]
      == if k == c then v else FatWords(img, start, count)[k]
  {
    EntryPlace(c, count);
    EntryPlace(k, count);
    if k / 128 == c / 128 {
      StoredWord(img[start + c / 128], c % 128, v, k % 128);
    }
  }

  /** Images that agree on the sectors of a FAT copy agree on its words. */
  lemma SameWords(a: Disk, b: Disk, start: nat, count: nat)
    requires |a| == |b| && start + FatSectors(count) <= |a|
    requires forall l :: start <= l < start + FatSectors(count) ==> a[l] == b[l]
    ensures FatWords(a, start, count) == FatWords(b, start, count)
  {
  }

  lemma SameSectors(a: Disk, b: Disk, lba: nat, n: nat)
    requires |a| == |b| && lba + n <= |a|
    requires forall l :: lba <= l < lba + n ==> a[l] == b[l]
    ensures SectorBytes(a, lba, n) == SectorBytes(b, lba, n)
  {
  }

  lemma SameClusters(g: Geometry, a: Disk, b: Disk)
    requires |a| == |b| && g.Fits(|a|)
    requires forall l :: g.dataStart <= l < |a| ==> a[l] == b[l]
    ensures ClusterData(g, a) == ClusterData(g, b)
  {
    forall c | 2 <= c < g.totalClusters + 2 ensures ClusterData(g, a)[c] == ClusterData(g, b)[c] {
      ClusterOnDevice(g, |a|, c);
      SameSectors(a, b, g.ClusterLba(c), g.sectorsPerCluster);
    }
  }

  /** The sectors of different clusters never overlap. */
  lemma ClustersApart(g: Geometry, c: nat, e: nat)
    requires 2 <= c < e
    ensures g.ClusterLba(c) + g.sectorsPerCluster <= g.ClusterLba(e)
  {
    g.SpanMonotone(c - 1, e - 2);
  }

  /** Reserved sectors hold no FAT word and no cluster byte. */
  lemma PutReserved(g: Geometry, img: Disk, lba: nat, s: Sector)
    requires g.Fits(|img|) && lba < g.fatStart
    ensures Abs(g, Put(img, lba, s)) == Abs(g, img)
  {
    var img' := Put(img, lba, s);
    SameWords(img, img', g.fatStart, g.totalClusters + 2);
    SameWords(img, img', g.fat2Start, g.totalClusters + 2);
    SameClusters(g, img, img');
  }

  /** A sector of one FAT copy holds no word of the other copy and no cluster byte. */
  lemma PutInFat(g: Geometry, img: Disk, lba: nat, s: Sector)
    requires g.Fits(|img|) && g.fatStart <= lba < g.dataStart
    ensures var v := Abs(g, Put(img, lba, s));
      && v.data == Abs(g, img).data
      && (lba < g.fat2Start ==> v.fat2 == Abs(g, img).fat2)
      && (g.fat2Start <= lba ==> v.fat1 == Abs(g, img).fat1)
  {
    var img' := Put(img, lba, s);
    SameClusters(g, img, img');
    if lba < g.fat2Start {
      SameWords(img, img', g.fat2Start, g.totalClusters + 2);
    } else {
      SameWords(img, img', g.fatStart, g.totalClusters + 2);
    }
  }

  lemma PutFat1(g: Geometry, img: Disk, c: nat, v: Word, lba: nat, off: nat)
    requires g.Fits(|img|) && c < g.totalClusters + 2 && EntryAt(c, g.fatStart, lba, off)
    ensures lba < g.fat2Start && off + 4 <= BLOCK_SIZE && Abs(g, img).fat1[c] == Load32(img[lba], off)
    ensures Abs(g, Put(img, lba, Store32(img[lba], off, v))) == Abs(g, img).(fat1 := Abs(g, img).fat1[c := v])
  {
    hide Store32, Load32, SectorBytes;
    PutWord(img, g.fatStart, g.totalClusters + 2, c, v, lba, off);
    PutInFat(g, img, lba, Store32(img[lba], off, v));
  }

  lemma PutFat2(g: Geometry, img: Disk, c: nat, v: Word, lba: nat, off: nat)
    requires g.Fits(|img|) && c < g.totalClusters + 2 && EntryAt(c, g.fat2Start, lba, off)
    ensures lba < g.dataStart && off + 4 <= BLOCK_SIZE && Abs(g, img).fat2[c] == Load32(img[lba], off)
    ensures Abs(g, Put(img, lba, Store32(img[lba], off, v))) == Abs(g, img).(fat2 := Abs(g, img).fat2[c := v])
  {
    hide Store32, Load32, SectorBytes;
    PutWord(img, g.fat2Start, g.totalClusters + 2, c, v, lba, off);
    PutInFat(g, img, lba, Store32(img[lba], off, v));
  }

  /** Data sectors of cluster `c` hold no FAT word and no byte of another cluster. */
  lemma PutData(g: Geometry, a: Disk, b: Disk, c: nat)
    requires |a| == |b| && g.Fits(|a|) && g.InRange(c)
    requires forall l :: 0 <= l < |a| && !(g.ClusterLba(c) <= l < g.ClusterLba(c) + g.sectorsPerCluster) ==> a[l] == b[l]
    ensures g.dataStart <= g.ClusterLba(c) && g.ClusterLba(c) + g.sectorsPerCluster <= |a|
    ensures Abs(g, b) == Abs(g, a).(data := Abs(g, a).data[c := SectorBytes(b, g.ClusterLba(c), g.sectorsPerCluster)])
  {
    hide FatWords, SectorBytes, Load32;
    ClusterOnDevice(g, |a|, c);
    SameWords(a, b, g.fatStart, g.totalClusters + 2);
    SameWords(a, b, g.fat2Start, g.totalClusters + 2);
    forall e | 2 <= e < g.totalClusters + 2 && e != c ensures ClusterData(g, b)[e] == ClusterData(g, a)[e] {
      ClusterOnDevice(g, |a|, e);
      ClustersApart(g, if c < e then c else e, if c < e then e else c);
      SameSectors(a, b, g.ClusterLba(e), g.sectorsPerCluster);
    }
  }

  /** `n` consecutive sectors replaced by the bytes of `buf`. */
  function PutRun(img: Disk, lba: nat, buf: seq<Byte>, n: nat): (r: Disk)
    requires lba + n <= |img| && n * BLOCK_SIZE <= |buf|
    ensures |r| == |img|
    ensures forall l :: 0 <= l < |img| && !(lba <= l < lba + n) ==> r[l] == img[l]
  {
    if n == 0 then img
    else Put(PutRun(img, lba, buf, n - 1), lba + n - 1, buf[(n - 1) * BLOCK_SIZE..n * BLOCK_SIZE])
  }

  lemma {:induction false} PutRunBytes(img: Disk, lba: nat, buf: seq<Byte>, n: nat)
    requires lba + n <= |img| && n * BLOCK_SIZE <= |buf|
    ensures SectorBytes(PutRun(img, lba, buf, n), lba, n) == buf[..n * BLOCK_SIZE]
  {
    if n > 0 {
      PutRunBytes(img, lba, buf, n - 1);
      SameSectors(PutRun(img, lba, buf, n - 1), PutRun(img, lba, buf, n), lba, n - 1);
    }
  }

  /** `v1` differs from `v0` at most in the bytes of cluster `c`. */
  predicate OnlyCluster(v0: FatImage, v1: FatImage, c: nat) {
    && v1.fat1 == v0.fat1 && v1.fat2 == v0.fat2
    && |v1.data| == |v0.data| && c < |v0.data|
    && v1.data == v0.data[c := v1.data[c]]
    && |v1.data[c]| == |v0.data[c]|
  }

  /** A run of writes inside one cluster: after `n` of its sectors only that cluster may differ,
      and after all of them it holds the buffer. */
  lemma PutRunCluster(g: Geometry, img: Disk, c: nat, buf: seq<Byte>, n: nat)
    requires g.Fits(|img|) && g.InRange(c) && |buf| == g.BytesPerCluster() && n <= g.sectorsPerCluster
    ensures g.dataStart <= g.ClusterLba(c) && g.ClusterLba(c) + g.sectorsPerCluster <= |img|
    ensures var v := Abs(g, PutRun(img, g.ClusterLba(c), buf, n));
      && OnlyCluster(Abs(g, img), v, c)
      && (n == g.sectorsPerCluster ==> v.data[c] == buf)
  {
    ClusterOnDevice(g, |img|, c);
    var img' := PutRun(img, g.ClusterLba(c), buf, n);
    PutData(g, img, img', c);
    if n == g.sectorsPerCluster {
      PutRunBytes(img, g.ClusterLba(c), buf, n);
      assert buf[..n * BLOCK_SIZE] == buf;
    }
  }
}
