/** fat32_dir_find, fat32_dir_create_entry (for 8.3 names), fat32_dir_mark_deleted and
    fat32_update_dir_entry over a directory's cluster chain. */
module Directory {
  import opened Arithmetic
  import opened Blocks
  import opened SectorCache
  import opened FatTable
  import opened VolumeState
  import opened Chains
  import opened FileBytes
  import opened Fat32
  import opened WriteOrder
  import opened ChainIO
  import opened ShortNames
  import opened DirSlots

  /** Sector `s` of a run of sectors. */
  lemma {:induction false} SectorOfRun(img: Disk, lba: nat, n: nat, s: nat)
    requires lba + n <= |img| && s < n
    ensures SectorBytes(img, lba, n)[BLOCK_SIZE * s..BLOCK_SIZE * s + BLOCK_SIZE] == img[lba + s]
  {
    if s < n - 1 {
      SectorOfRun(img, lba, n - 1, s);
      var b := SectorBytes(img, lba, n - 1);
      assert (b + img[lba + n - 1])[BLOCK_SIZE * s..BLOCK_SIZE * s + BLOCK_SIZE] == b[BLOCK_SIZE * s..BLOCK_SIZE * s + BLOCK_SIZE];
    }
  }

  lemma {:induction false} PutInRun(img: Disk, lba: nat, n: nat, s: nat, sector: Sector)
    requires lba + n <= |img| && s < n
    ensures var b := SectorBytes(img, lba, n);
      SectorBytes(Put(img, lba + s, sector), lba, n) == b[..BLOCK_SIZE * s] + sector + b[BLOCK_SIZE * s + BLOCK_SIZE..]
  {
    var img' := Put(img, lba + s, sector);
    var b := SectorBytes(img, lba, n - 1);
    if s < n - 1 {
      PutInRun(img, lba, n - 1, s, sector);
      var whole := SectorBytes(img, lba, n);
      assert whole[..BLOCK_SIZE * s] == b[..BLOCK_SIZE * s];
      assert whole[BLOCK_SIZE * s + BLOCK_SIZE..] == b[BLOCK_SIZE * s + BLOCK_SIZE..] + img[lba + n - 1];
    } else {
      SameSectors(img, img', lba, n - 1);
      assert SectorBytes(img, lba, n)[..BLOCK_SIZE * s] == b;
    }
  }

  /** Sector `s` of cluster `c`, with `piece` laid over it at `at`, as bytes of the cluster. */
  lemma PatchedCluster(g: Geometry, w0: World, w1: World, c: nat, s: nat, at: nat, piece: seq<Byte>)
    requires Mounted(g, w0) && Mounted(g, w1) && g.InRange(c) && s < g.sectorsPerCluster && at + |piece| <= BLOCK_SIZE
    requires g.ClusterLba(c) + g.sectorsPerCluster <= |View(w0, g.dev)|
    requires var was := View(w0, g.dev)[g.ClusterLba(c) + s];
      View(w1, g.dev) == Put(View(w0, g.dev), g.ClusterLba(c) + s, was[..at] + piece + was[at + |piece|..])
    ensures |Seen(g, w0).data[c]| == g.BytesPerCluster() && BLOCK_SIZE * s + at + |piece| <= g.BytesPerCluster()
    ensures Seen(g, w1) == WithSlice(Seen(g, w0), c, BLOCK_SIZE * s + at, piece)
  {
    hide Mounted, Coherent, Abs, View, SectorBytes;
    VolumeBounds(g, w0);
    VolumeBounds(g, w1);
    var img0, img1 := View(w0, g.dev), View(w1, g.dev);
    ClusterBounds(g, w0, c);
    var lba := g.ClusterLba(c);
    var was := img0[lba + s];
    var sector: Sector := was[..at] + piece + was[at + |piece|..];
    SectorOfRun(img0, lba, g.sectorsPerCluster, s);
    PutInRun(img0, lba, g.sectorsPerCluster, s, sector);
    PutData(g, img0, img1, c);
    SliceInSlice(SectorBytes(img0, lba, g.sectorsPerCluster), BLOCK_SIZE * s, was, at, piece);
  }

  lemma SliceInSlice(b: seq<Byte>, x: nat, was: Sector, at: nat, piece: seq<Byte>)
    requires x + BLOCK_SIZE <= |b| && was == b[x..x + BLOCK_SIZE] && at + |piece| <= BLOCK_SIZE
    ensures b[..x] + (was[..at] + piece + was[at + |piece|..]) + b[x + BLOCK_SIZE..]
            == b[..x + at] + piece + b[x + at + |piece|..]
  {
  }

  /** Read one directory sector, lay `piece` over it at `at`, and write it back to the cache. */
  method PatchSector(vol: Volume, lba: nat, at: nat, piece: seq<Byte>, ghost c: nat, ghost s: nat) returns (ok: bool)
    requires vol.Valid() && vol.g.InRange(c) && s < vol.g.sectorsPerCluster && lba == vol.g.ClusterLba(c) + s
    requires at + |piece| <= BLOCK_SIZE
    modifies vol.cache.slots, vol.cache.table
    ensures vol.Valid() && Step(vol.g, old(vol.Now()), vol.Now()) && KeepsClean(vol.g, old(vol.Now()), vol.Now(), {c})
    ensures Fat1Within(vol.g, old(vol.Now()), vol.Now(), Stored(vol.g, old(vol.Now())).fat1, Seen(vol.g, old(vol.Now())).fat1)
    ensures |Seen(vol.g, old(vol.Now())).data[c]| == vol.g.BytesPerCluster() && BLOCK_SIZE * s + at + |piece| <= vol.g.BytesPerCluster()
    ensures Seen(vol.g, vol.Now()) ==
      if ok then WithSlice(Seen(vol.g, old(vol.Now())), c, BLOCK_SIZE * s + at, piece) else Seen(vol.g, old(vol.Now()))
    ensures ok <==> vol.cache.table.failures == old(vol.cache.table.failures)
  {
    hide Mounted, Coherent, ElsewhereSame, Fat1Within, KeepsClean, Abs, FatWords, SameShape, Quiet, Wrote, Step,
         SectorBytes, WithSlice, View;
    var g := vol.g;
    ghost var w0 := vol.Now();
    VolumeBounds(g, w0);
    ClusterBounds(g, w0, c);
    var sector;
    ok, sector := vol.cache.Read(g.dev, lba);
    ghost var w1 := vol.Now();
    QuietVolume(g, w0, w1);
    KeepsLess(g, w0, w1, c);
    if !ok {
      return;
    }
    LookupInView(w0, w1, g.dev, lba);
    ok := vol.WriteSector(c, lba, sector[..at] + piece + sector[at + |piece|..]);
    ghost var w2 := vol.Now();
    DataStep(g, w0, w1, w2);
    KeepsCleanTransitive(g, w0, w1, w2, {c}, {c}, {c});
    if ok {
      PatchedCluster(g, w1, w2, c, s, at, piece);
    }
  }

  /** The bytes of a directory's chain, and its entries. */
  ghost function DirBytes(g: Geometry, w: World, dch: seq<nat>): (b: seq<Byte>)
    requires Mounted(g, w) && IsChain(Seen(g, w).fat1, dch)
  {
    MountedUniform(g, w);
    Content(Seen(g, w), dch, g.BytesPerCluster())
  }

  ghost function Entries(g: Geometry, w: World, dch: seq<nat>): seq<Slot32>
    requires Mounted(g, w) && IsChain(Seen(g, w).fat1, dch)
  {
    Slots(DirBytes(g, w, dch))
  }

  /** Sector `s` of the i-th directory cluster is the (i * spc + s)-th sector of the directory. */
  function SectorNumber(g: Geometry, i: nat, s: nat): nat { g.Span(i) + s }

  lemma {:induction false} SpanInBytes(g: Geometry, i: nat)
    ensures g.Span(i) * BLOCK_SIZE == i * g.BytesPerCluster()
  {
    if i > 0 {
      SpanInBytes(g, i - 1);
      MulAddOne(i - 1, g.BytesPerCluster());
    }
  }

  lemma SlotsOfSector(b: seq<Byte>, t: nat, sector: Sector)
    requires BLOCK_SIZE * t + BLOCK_SIZE <= |b| && b[BLOCK_SIZE * t..BLOCK_SIZE * t + BLOCK_SIZE] == sector
    ensures PER_SECTOR * t + PER_SECTOR <= |Slots(b)|
    ensures Slots(b)[PER_SECTOR * t..PER_SECTOR * t + PER_SECTOR] == Slots(sector)
  {
    SlotsOfPart(b, BLOCK_SIZE * t, sector);
    assert BLOCK_SIZE * t / ENTRY_SIZE == PER_SECTOR * t;
  }

  lemma PlaceOfSector(g: Geometry, i: nat, s: nat)
    requires s < g.sectorsPerCluster
    ensures IsPlace(g.BytesPerCluster(), i, BLOCK_SIZE * s, BLOCK_SIZE * SectorNumber(g, i, s))
  {
    SpanInBytes(g, i);
  }

  /** A directory sector in the byte sequence and among the entries. */
  lemma DirSector(g: Geometry, w: World, dch: seq<nat>, i: nat, s: nat)
    requires Mounted(g, w) && IsChain(Seen(g, w).fat1, dch) && i < |dch| && s < g.sectorsPerCluster
    ensures g.InRange(dch[i]) && g.ClusterLba(dch[i]) + s < |View(w, g.dev)|
    ensures var t := SectorNumber(g, i, s);
      && IsPlace(g.BytesPerCluster(), i, BLOCK_SIZE * s, BLOCK_SIZE * t)
      && PER_SECTOR * t + PER_SECTOR <= |Entries(g, w, dch)|
      && Entries(g, w, dch)[PER_SECTOR * t..PER_SECTOR * t + PER_SECTOR] == Slots(View(w, g.dev)[g.ClusterLba(dch[i]) + s])
  {
    hide Content, SectorBytes, Slots, Abs, Coherent, View, Mounted, IsPlace;
    MountedUniform(g, w);
    VolumeBounds(g, w);
    PlaceOfSector(g, i, s);
    var v, m, t := Seen(g, w), g.BytesPerCluster(), SectorNumber(g, i, s);
    ClusterBounds(g, w, dch[i]);
    var sector := View(w, g.dev)[g.ClusterLba(dch[i]) + s];
    SectorOfRun(View(w, g.dev), g.ClusterLba(dch[i]), g.sectorsPerCluster, s);
    SliceOfContent(v, dch, m, i, BLOCK_SIZE * s, BLOCK_SIZE, BLOCK_SIZE * t);
    SlotsOfSector(Content(v, dch, m), t, sector);
  }

  /** A directory holds 16 entries a sector. */
  lemma DirLength(g: Geometry, w: World, dch: seq<nat>)
    requires Mounted(g, w) && IsChain(Seen(g, w).fat1, dch)
    ensures |Entries(g, w, dch)| == PER_SECTOR * g.Span(|dch|)
  {
    SpanInBytes(g, |dch|);
  }

  /** Where an entry lies: cluster, sector and byte offset. */
  predicate EntryPlaced(g: Geometry, dch: seq<nat>, k: nat, lba: nat, off: nat, i: nat, s: nat) {
    && i < |dch| && s < g.sectorsPerCluster && g.InRange(dch[i])
    && lba == g.ClusterLba(dch[i]) + s && off < BLOCK_SIZE && off % ENTRY_SIZE == 0
    && k == PER_SECTOR * SectorNumber(g, i, s) + off / ENTRY_SIZE
  }

  /** The first `n` entries hold neither the name nor an end marker. */
  ghost predicate SearchedTo(slots: seq<Slot32>, key: Key, n: nat) {
    n <= |slots| && Search(slots[..n], key) == Pass
  }

  lemma SearchExtends(slots: seq<Slot32>, key: Key, n: nat)
    requires n + PER_SECTOR <= |slots| && SearchedTo(slots, key, n)
    ensures var r := Search(slots[n..n + PER_SECTOR], key);
      if r == Pass then SearchedTo(slots, key, n + PER_SECTOR) else Search(slots, key) == Shift(r, n)
  {
    hide Search;
    assert slots[..n + PER_SECTOR] == slots[..n] + slots[n..n + PER_SECTOR];
    SearchConcat(slots[..n], slots[n..n + PER_SECTOR], key);
    assert slots == slots[..n + PER_SECTOR] + slots[n + PER_SECTOR..];
    SearchConcat(slots[..n + PER_SECTOR], slots[n + PER_SECTOR..], key);
  }

  /** The directory `dch` reads as `slots`, and `cluster` is its i-th cluster. */
  ghost predicate ClusterOf(g: Geometry, w: World, dch: seq<nat>, slots: seq<Slot32>, i: nat, cluster: nat) {
    && Mounted(g, w) && IsChain(Seen(g, w).fat1, dch) && slots == Entries(g, w, dch)
    && i < |dch| && cluster == dch[i]
  }

  /** One sector of the i-th cluster: its entries are the next 16. */
  lemma NextSixteen(g: Geometry, w: World, dch: seq<nat>, slots: seq<Slot32>, i: nat, cluster: nat, s: nat)
    requires ClusterOf(g, w, dch, slots, i, cluster) && s < g.sectorsPerCluster
    ensures g.InRange(cluster) && |w.slots| == CACHE_BLOCKS && g.dev < |w.disks| && g.ClusterLba(cluster) + s < |View(w, g.dev)|
    ensures var n := PER_SECTOR * SectorNumber(g, i, s);
      && n + PER_SECTOR <= |slots|
      && slots[n..n + PER_SECTOR] == Slots(View(w, g.dev)[g.ClusterLba(cluster) + s])
  {
    VolumeBounds(g, w);
    DirSector(g, w, dch, i, s);
  }

  datatype Look = At(slot: Slot32, lba: nat, off: nat) | Nowhere | GoOn

  /** A hit at entry `k`, with its value and its place. */
  ghost predicate HitAt(g: Geometry, dch: seq<nat>, slots: seq<Slot32>, key: Key, look: Look, k: nat, i: nat, s: nat)
    requires look.At?
  {
    && Search(slots, key) == Hit(k) && k < |slots| && look.slot == slots[k]
    && EntryPlaced(g, dch, k, look.lba, look.off, i, s)
  }

  lemma HitFound(g: Geometry, dch: seq<nat>, slots: seq<Slot32>, i: nat, cluster: nat, s: nat, e: nat, key: Key, sector: Sector, n: nat)
    requires i < |dch| && cluster == dch[i] && g.InRange(cluster) && s < g.sectorsPerCluster && e < PER_SECTOR
    requires n == PER_SECTOR * SectorNumber(g, i, s) && n + PER_SECTOR <= |slots|
    requires slots[n..n + PER_SECTOR] == Slots(sector) && Search(slots, key) == Hit(n + e)
    ensures HitAt(g, dch, slots, key, At(sector[32 * e..32 * e + 32], g.ClusterLba(cluster) + s, 32 * e), n + e, i, s)
  {
    hide Search;
    assert slots[n + e] == slots[n..n + PER_SECTOR][e] == Slots(sector)[e];
    assert 32 * e % ENTRY_SIZE == 0 && 32 * e / ENTRY_SIZE == e;
  }

  /** What looking at sector `s` of the i-th cluster tells. */
  ghost predicate Looked(g: Geometry, dch: seq<nat>, slots: seq<Slot32>, key: Key, i: nat, s: nat, look: Look, k: nat) {
    && (look.At? ==> HitAt(g, dch, slots, key, look, k, i, s))
    && (look == Nowhere ==> Search(slots, key) == Stop)
    && (look == GoOn ==> SearchedTo(slots, key, PER_SECTOR * SectorNumber(g, i, s + 1)))
  }

  /** One directory sector read and searched; an unreadable one ends the search. */
  method SearchOneSector(vol: Volume, lba: nat, name: CString, ghost dch: seq<nat>, ghost slots: seq<Slot32>,
                         ghost cluster: nat, ghost i: nat, ghost s: nat) returns (look: Look, ghost k: nat)
    requires vol.Valid() && vol.g.InRange(cluster) && s < vol.g.sectorsPerCluster && lba == vol.g.ClusterLba(cluster) + s
    modifies vol.cache.slots, vol.cache.table
    ensures vol.Valid() && Quiet(old(vol.Now()), vol.Now())
    ensures look != Nowhere ==> vol.cache.table.failures == old(vol.cache.table.failures)
    ensures ClusterOf(vol.g, old(vol.Now()), dch, slots, i, cluster) ==>
      SearchedTo(slots, LowerAll(name), PER_SECTOR * SectorNumber(vol.g, i, s)) && vol.cache.table.failures == old(vol.cache.table.failures) ==>
      Looked(vol.g, dch, slots, LowerAll(name), i, s, look, k)
  {
    hide Mounted, Coherent, ElsewhereSame, Fat1Within, KeepsClean, Abs, FatWords, SameShape, Quiet, Wrote, Step,
         SectorBytes, View, ClusterOf, Slots, Search, Looked, SectorNumber, SearchedTo;
    var g := vol.g;
    ghost var w0 := vol.Now();
    ghost var key := LowerAll(name);
    VolumeBounds(g, w0);
    var ok, sector := vol.cache.Read(g.dev, lba);
    ghost var w1 := vol.Now();
    QuietVolume(g, w0, w1);
    k := 0;
    if !ok {
      return Nowhere, 0;
    }
    var r := SearchSector(sector, name);
    look := match r case Hit(e) => At(sector[32 * e..32 * e + 32], lba, 32 * e) case Stop => Nowhere case Pass => GoOn;
    if ClusterOf(g, w0, dch, slots, i, cluster) && SearchedTo(slots, key, PER_SECTOR * SectorNumber(g, i, s)) {
      NextSixteen(g, w0, dch, slots, i, cluster, s);
      LookupInView(w0, w1, g.dev, lba);
      k := LookedIs(g, w0, dch, slots, i, cluster, s, key, sector);
    }
  }

  lemma ClusterInRange(g: Geometry, w: World, dch: seq<nat>, slots: seq<Slot32>, i: nat, cluster: nat)
    requires ClusterOf(g, w, dch, slots, i, cluster)
    ensures i < |dch| && cluster == dch[i] && g.InRange(cluster)
  {
    VolumeBounds(g, w);
  }

  lemma LookedIs(g: Geometry, w: World, dch: seq<nat>, slots: seq<Slot32>, i: nat, cluster: nat, s: nat, key: Key, sector: Sector)
    returns (k: nat)
    requires ClusterOf(g, w, dch, slots, i, cluster) && s < g.sectorsPerCluster && 2 <= cluster
    requires var n := PER_SECTOR * SectorNumber(g, i, s);
      n + PER_SECTOR <= |slots| && slots[n..n + PER_SECTOR] == Slots(sector) && SearchedTo(slots, key, n)
    ensures var look := match Search(Slots(sector), key)
        case Hit(e) => At(sector[32 * e..32 * e + 32], g.ClusterLba(cluster) + s, 32 * e) case Stop => Nowhere case Pass => GoOn;
      Looked(g, dch, slots, key, i, s, look, k)
  {
    hide ClusterOf, Slots, Search;
    var n := PER_SECTOR * SectorNumber(g, i, s);
    SearchExtends(slots, key, n);
    var r := Search(Slots(sector), key);
    k := n;
    if r.Hit? {
      k := n + r.k;
      ClusterInRange(g, w, dch, slots, i, cluster);
      HitFound(g, dch, slots, i, cluster, s, r.k, key, sector, n);
    }
  }

  /** The sectors of one directory cluster, searched in order. */
  method SearchCluster(vol: Volume, cluster: nat, name: CString, ghost dch: seq<nat>, ghost slots: seq<Slot32>, ghost i: nat)
    returns (look: Look, ghost k: nat, ghost at: nat)
    requires vol.Valid() && vol.g.InRange(cluster)
    modifies vol.cache.slots, vol.cache.table
    ensures vol.Valid() && Quiet(old(vol.Now()), vol.Now())
    ensures look != Nowhere ==> vol.cache.table.failures == old(vol.cache.table.failures)
    ensures ClusterOf(vol.g, old(vol.Now()), dch, slots, i, cluster) ==>
      SearchedTo(slots, LowerAll(name), PER_SECTOR * vol.g.Span(i)) && vol.cache.table.failures == old(vol.cache.table.failures) ==>
      && (look.At? ==> HitAt(vol.g, dch, slots, LowerAll(name), look, k, i, at))
      && (look == Nowhere ==> Search(slots, LowerAll(name)) == Stop)
      && (look == GoOn ==> SearchedTo(slots, LowerAll(name), PER_SECTOR * vol.g.Span(i + 1)))
  {
    hide Mounted, Coherent, ElsewhereSame, Fat1Within, KeepsClean, Abs, FatWords, SameShape, Quiet, Wrote, Step,
         SectorBytes, View, ClusterOf, SearchedTo, Slots, Search, HitAt;
    var g := vol.g;
    ghost var w0 := vol.Now();
    ghost var key := LowerAll(name);
    VolumeBounds(g, w0);
    ghost var given := ClusterOf(g, w0, dch, slots, i, cluster) && SearchedTo(slots, key, PER_SECTOR * g.Span(i));
    g.ClusterToLba(cluster);
    var base := g.dataStart + (cluster - 2) * g.sectorsPerCluster;
    k, at := 0, 0;
    for s := 0 to g.sectorsPerCluster
      invariant vol.Valid() && Quiet(w0, vol.Now()) && vol.cache.table.failures == w0.failures
      invariant given ==> SearchedTo(slots, key, PER_SECTOR * SectorNumber(g, i, s))
    {
      ghost var w1 := vol.Now();
      VolumeBounds(g, w1);
      QuietVolume(g, w0, w1);
      if given {
        ClusterOfKept(g, w0, w1, dch, slots, i, cluster);
      }
      at := s;
      look, k := SearchOneSector(vol, base + s, name, dch, slots, cluster, i, s);
      ghost var w2 := vol.Now();
      VolumeBounds(g, w2);
      QuietVolume(g, w1, w2);
      QuietTransitive(w0, w1, w2);
      if look != GoOn {
        return;
      }
    }
    return GoOn, k, at;
  }

  lemma ClusterOfKept(g: Geometry, w0: World, w1: World, dch: seq<nat>, slots: seq<Slot32>, i: nat, cluster: nat)
    requires ClusterOf(g, w0, dch, slots, i, cluster) && Mounted(g, w1) && Seen(g, w1) == Seen(g, w0)
    ensures ClusterOf(g, w1, dch, slots, i, cluster)
  {
  }

  /** A directory and the chain it lives in. */
  ghost predicate IsDir(g: Geometry, w: World, dch: seq<nat>, dirCluster: nat) {
    Mounted(g, w) && ChainFrom(Seen(g, w).fat1, dch, dirCluster)
  }

  /** fat32_dir_find, for directories without long-name entries. `Nowhere` stands for "not found". */
  method DirFind(vol: Volume, dirCluster: nat, name: CString, ghost dch: seq<nat>)
    returns (look: Look, ghost k: nat, ghost i: nat, ghost s: nat)
    requires vol.Valid()
    modifies vol.cache.slots, vol.cache.table
    ensures vol.Valid() && Quiet(old(vol.Now()), vol.Now())
    ensures look == Nowhere || (look.At? && vol.cache.table.failures == old(vol.cache.table.failures))
    ensures IsDir(vol.g, old(vol.Now()), dch, dirCluster) && vol.cache.table.failures == old(vol.cache.table.failures) ==>
      && (look.At? <==> Search(Entries(vol.g, old(vol.Now()), dch), LowerAll(name)).Hit?)
      && (look.At? ==> HitAt(vol.g, dch, Entries(vol.g, old(vol.Now()), dch), LowerAll(name), look, k, i, s))
  {
    hide Mounted, Coherent, ElsewhereSame, Fat1Within, KeepsClean, Abs, FatWords, SameShape, Quiet, Wrote, Step,
         SectorBytes, View, ClusterOf, SearchedTo, Slots, Search, HitAt, Entries, IsChain;
    var g := vol.g;
    ghost var w0 := vol.Now();
    ghost var key := LowerAll(name);
    VolumeBounds(g, w0);
    ghost var given := IsDir(g, w0, dch, dirCluster);
    ghost var slots := if given then Entries(g, w0, dch) else [];
    k, i, s := 0, 0, 0;
    if given {
      FirstCluster(g, w0, dch, dirCluster, slots, key);
    }
    if dirCluster < 2 {
      return Nowhere, k, i, s;
    }
    var cluster: nat := dirCluster;
    var safety := 0;
    while 2 <= cluster <= g.totalClusters + 1
      invariant vol.Valid() && Quiet(w0, vol.Now()) && i == safety <= g.totalClusters
      invariant vol.cache.table.failures == w0.failures
      invariant given ==>
        ClusterOf(g, w0, dch, slots, i, cluster) && SearchedTo(slots, key, PER_SECTOR * g.Span(i)) && g.InRange(cluster)
      decreases g.totalClusters - safety
    {
      ghost var w1 := vol.Now();
      VolumeBounds(g, w1);
      QuietVolume(g, w0, w1);
      if given {
        ClusterOfKept(g, w0, w1, dch, slots, i, cluster);
        ClusterCount(g, w0, dch, slots, i, cluster);
      }
      safety := safety + 1;
      if safety > g.totalClusters {
        return Nowhere, k, i, s;
      }
      look, k, s := SearchCluster(vol, cluster, name, dch, slots, i);
      ghost var w2 := vol.Now();
      VolumeBounds(g, w2);
      QuietVolume(g, w1, w2);
      QuietTransitive(w0, w1, w2);
      if look != GoOn {
        if given && w2.failures == w0.failures && look.At? {
          HitMeans(g, dch, slots, key, look, k, i, s);
        }
        return;
      }
      var next := vol.ReadFat(cluster);
      ghost var w3 := vol.Now();
      VolumeBounds(g, w3);
      QuietVolume(g, w2, w3);
      QuietTransitive(w0, w2, w3);
      if given && w3.failures == w0.failures {
        NextCluster(g, w0, dch, slots, i, cluster, key);
      }
      if IsEoc(next) || next == FAT32_FREE || next == FAT32_BAD {
        return Nowhere, k, i, s;
      }
      cluster := next;
      i := i + 1;
    }
    return Nowhere, k, i, s;
  }

  lemma HitMeans(g: Geometry, dch: seq<nat>, slots: seq<Slot32>, key: Key, look: Look, k: nat, i: nat, s: nat)
    requires look.At? && HitAt(g, dch, slots, key, look, k, i, s)
    ensures Search(slots, key).Hit?
  {
  }

  lemma FirstCluster(g: Geometry, w: World, dch: seq<nat>, dirCluster: nat, slots: seq<Slot32>, key: Key)
    requires IsDir(g, w, dch, dirCluster) && slots == Entries(g, w, dch)
    ensures g.InRange(dirCluster) && ClusterOf(g, w, dch, slots, 0, dirCluster) && SearchedTo(slots, key, PER_SECTOR * g.Span(0))
  {
    assert slots[..0] == [];
  }

  lemma ClusterCount(g: Geometry, w: World, dch: seq<nat>, slots: seq<Slot32>, i: nat, cluster: nat)
    requires ClusterOf(g, w, dch, slots, i, cluster)
    ensures i < |dch| <= g.totalClusters
  {
    ChainFits(dch, |Seen(g, w).fat1|);
  }

  /** After a whole cluster: the link leads to the next one, or the directory ends unfound. */
  lemma NextCluster(g: Geometry, w: World, dch: seq<nat>, slots: seq<Slot32>, i: nat, cluster: nat, key: Key)
    requires ClusterOf(g, w, dch, slots, i, cluster) && SearchedTo(slots, key, PER_SECTOR * g.Span(i + 1))
    ensures var e := Entry(Seen(g, w).fat1, cluster);
      if i < |dch| - 1 then ClusterOf(g, w, dch, slots, i + 1, e) && g.InRange(e) && e < FAT32_BAD
      else IsEoc(e) && !Search(slots, key).Hit?
  {
    hide Search, Entries, IsChain, Mounted, Abs, Coherent;
    VolumeBounds(g, w);
    ChainStep(Seen(g, w).fat1, dch, i);
    DirLength(g, w, dch);
    assert slots[..|slots|] == slots;
  }

  /** The first `n` entries are all in use. */
  ghost predicate FullTo(slots: seq<Slot32>, n: nat) {
    n <= |slots| && FirstFree(slots[..n]) == Pass
  }

  lemma FullExtends(slots: seq<Slot32>, n: nat)
    requires n + PER_SECTOR <= |slots| && FullTo(slots, n)
    ensures var r := FirstFree(slots[n..n + PER_SECTOR]);
      if r == Pass then FullTo(slots, n + PER_SECTOR) else FirstFree(slots) == Shift(r, n)
  {
    hide FirstFree;
    assert slots[..n + PER_SECTOR] == slots[..n] + slots[n..n + PER_SECTOR];
    FirstFreeConcat(slots[..n], slots[n..n + PER_SECTOR]);
    assert slots == slots[..n + PER_SECTOR] + slots[n + PER_SECTOR..];
    FirstFreeConcat(slots[..n + PER_SECTOR], slots[n + PER_SECTOR..]);
  }

  datatype Room32 = RoomAt(lba: nat, off: nat) | NoRoom | Unreadable

  /** What looking for room in sector `s` of the i-th cluster tells. */
  ghost predicate RoomLooked(g: Geometry, dch: seq<nat>, slots: seq<Slot32>, i: nat, s: nat, room: Room32, k: nat) {
    && room != Unreadable
    && (room.RoomAt? ==> FirstFree(slots) == Hit(k) && EntryPlaced(g, dch, k, room.lba, room.off, i, s))
    && (room == NoRoom ==> FullTo(slots, PER_SECTOR * SectorNumber(g, i, s + 1)))
  }

  method RoomInSector(vol: Volume, lba: nat, ghost dch: seq<nat>, ghost slots: seq<Slot32>, ghost cluster: nat, ghost i: nat, ghost s: nat)
    returns (room: Room32, ghost k: nat)
    requires vol.Valid() && vol.g.InRange(cluster) && s < vol.g.sectorsPerCluster && lba == vol.g.ClusterLba(cluster) + s
    modifies vol.cache.slots, vol.cache.table
    ensures vol.Valid() && Quiet(old(vol.Now()), vol.Now())
    ensures room.RoomAt? ==> room.lba == lba && room.off + ENTRY_SIZE <= BLOCK_SIZE
    ensures room == Unreadable <==> vol.cache.table.failures != old(vol.cache.table.failures)
    ensures ClusterOf(vol.g, old(vol.Now()), dch, slots, i, cluster) ==>
      FullTo(slots, PER_SECTOR * SectorNumber(vol.g, i, s)) && vol.cache.table.failures == old(vol.cache.table.failures) ==>
      RoomLooked(vol.g, dch, slots, i, s, room, k)
  {
    hide Mounted, Coherent, ElsewhereSame, Fat1Within, KeepsClean, Abs, FatWords, SameShape, Quiet, Wrote, Step,
         SectorBytes, View, ClusterOf, Slots, FirstFree, RoomLooked, SectorNumber, FullTo;
    var g := vol.g;
    ghost var w0 := vol.Now();
    VolumeBounds(g, w0);
    var ok, sector := vol.cache.Read(g.dev, lba);
    ghost var w1 := vol.Now();
    QuietVolume(g, w0, w1);
    k := 0;
    if !ok {
      return Unreadable, 0;
    }
    var r := FreeInSector(sector);
    FreeBound(sector);
    room := if r.Hit? then RoomAt(lba, 32 * r.k) else NoRoom;
    if ClusterOf(g, w0, dch, slots, i, cluster) && FullTo(slots, PER_SECTOR * SectorNumber(g, i, s)) {
      NextSixteen(g, w0, dch, slots, i, cluster, s);
      LookupInView(w0, w1, g.dev, lba);
      k := RoomLookedIs(g, w0, dch, slots, i, cluster, s, sector);
    }
  }

  lemma FreeBound(sector: Sector)
    ensures FirstFree(Slots(sector)).Hit? ==> FirstFree(Slots(sector)).k < PER_SECTOR
    ensures FirstFree(Slots(sector)) != Stop
  {
  }

  lemma RoomLookedIs(g: Geometry, w: World, dch: seq<nat>, slots: seq<Slot32>, i: nat, cluster: nat, s: nat, sector: Sector)
    returns (k: nat)
    requires ClusterOf(g, w, dch, slots, i, cluster) && s < g.sectorsPerCluster && 2 <= cluster
    requires var n := PER_SECTOR * SectorNumber(g, i, s);
      n + PER_SECTOR <= |slots| && slots[n..n + PER_SECTOR] == Slots(sector) && FullTo(slots, n)
    ensures var r := FirstFree(Slots(sector));
      RoomLooked(g, dch, slots, i, s, if r.Hit? then RoomAt(g.ClusterLba(cluster) + s, 32 * r.k) else NoRoom, k)
  {
    hide Slots, FirstFree, Mounted, Entries;
    var n := PER_SECTOR * SectorNumber(g, i, s);
    FullExtends(slots, n);
    FreeBound(sector);
    var r := FirstFree(Slots(sector));
    k := n;
    if r.Hit? {
      k := n + r.k;
      assert 32 * r.k % ENTRY_SIZE == 0 && 32 * r.k / ENTRY_SIZE == r.k;
    }
  }

  /** The sectors of one directory cluster, searched for room. */
  method RoomInCluster(vol: Volume, cluster: nat, ghost dch: seq<nat>, ghost slots: seq<Slot32>, ghost i: nat)
    returns (room: Room32, ghost k: nat, ghost at: nat)
    requires vol.Valid() && vol.g.InRange(cluster)
    modifies vol.cache.slots, vol.cache.table
    ensures vol.Valid() && Quiet(old(vol.Now()), vol.Now())
    ensures room.RoomAt? ==> at < vol.g.sectorsPerCluster && room.lba == vol.g.ClusterLba(cluster) + at && room.off + ENTRY_SIZE <= BLOCK_SIZE
    ensures room == Unreadable <==> vol.cache.table.failures != old(vol.cache.table.failures)
    ensures ClusterOf(vol.g, old(vol.Now()), dch, slots, i, cluster) ==>
      FullTo(slots, PER_SECTOR * vol.g.Span(i)) && vol.cache.table.failures == old(vol.cache.table.failures) ==>
      && room != Unreadable
      && (room.RoomAt? ==> FirstFree(slots) == Hit(k) && EntryPlaced(vol.g, dch, k, room.lba, room.off, i, at))
      && (room == NoRoom ==> FullTo(slots, PER_SECTOR * vol.g.Span(i + 1)))
  {
    hide Mounted, Coherent, ElsewhereSame, Fat1Within, KeepsClean, Abs, FatWords, SameShape, Quiet, Wrote, Step,
         SectorBytes, View, ClusterOf, FullTo, Slots, FirstFree, EntryPlaced;
    var g := vol.g;
    ghost var w0 := vol.Now();
    VolumeBounds(g, w0);
    ghost var given := ClusterOf(g, w0, dch, slots, i, cluster) && FullTo(slots, PER_SECTOR * g.Span(i));
    g.ClusterToLba(cluster);
    var base := g.dataStart + (cluster - 2) * g.sectorsPerCluster;
    k, at := 0, 0;
    for s := 0 to g.sectorsPerCluster
      invariant vol.Valid() && Quiet(w0, vol.Now()) && vol.cache.table.failures == w0.failures
      invariant given ==> FullTo(slots, PER_SECTOR * SectorNumber(g, i, s))
    {
      ghost var w1 := vol.Now();
      VolumeBounds(g, w1);
      QuietVolume(g, w0, w1);
      if given {
        ClusterOfKept(g, w0, w1, dch, slots, i, cluster);
      }
      at := s;
      room, k := RoomInSector(vol, base + s, dch, slots, cluster, i, s);
      ghost var w2 := vol.Now();
      VolumeBounds(g, w2);
      QuietVolume(g, w1, w2);
      QuietTransitive(w0, w1, w2);
      if room != NoRoom {
        return;
      }
    }
    return NoRoom, k, at;
  }

  /** Where creating an entry stands: the directory chain as it is now, scanned up to cluster `i`.
      It has grown by at most one zeroed cluster, and only because every old entry was in use. */
  ghost predicate DirState(j: Job, slots0: seq<Slot32>, g: Geometry, w: World, dcur: seq<nat>, start: nat, i: nat, cluster: nat) {
    && Mounted(g, w) && OnCourse(j, Seen(g, w), dcur, start) && IsChain(Seen(g, w).fat1, dcur)
    && j.m == g.BytesPerCluster() && j.piece == [] && |slots0| == PER_SECTOR * g.Span(|j.ch0|)
    && i < |dcur| && cluster == dcur[i] && FullTo(Entries(g, w, dcur), PER_SECTOR * g.Span(i))
    && (dcur == j.ch0 ==> Entries(g, w, dcur) == slots0)
    && (dcur != j.ch0 ==>
          && |dcur| == |j.ch0| + 1 && i == |j.ch0| && FirstFree(slots0) == Pass
          && |slots0| < |Entries(g, w, dcur)| && IsEnd(Entries(g, w, dcur)[|slots0|]))
  }

  lemma DirStart(g: Geometry, w: World, dch: seq<nat>, start: nat)
    requires IsDir(g, w, dch, start)
    ensures DirState(Job(Seen(g, w), dch, g.BytesPerCluster(), 0, []), Entries(g, w, dch), g, w, dch, start, 0, start)
    ensures g.InRange(start)
  {
    hide Content, Slots;
    MountedUniform(g, w);
    OnCourseGiven(Job(Seen(g, w), dch, g.BytesPerCluster(), 0, []), Seen(g, w), start);
    DirLength(g, w, dch);
    assert Entries(g, w, dch)[..0] == [];
  }

  lemma DirStateFacts(j: Job, slots0: seq<Slot32>, g: Geometry, w: World, dcur: seq<nat>, start: nat, i: nat, cluster: nat)
    requires DirState(j, slots0, g, w, dcur, start, i, cluster)
    ensures g.InRange(cluster) && IsChain(Seen(g, w).fat1, dcur)
    ensures ClusterOf(g, w, dcur, Entries(g, w, dcur), i, cluster) && FullTo(Entries(g, w, dcur), PER_SECTOR * g.Span(i))
    ensures i < |dcur| <= g.totalClusters && |dcur| + FreeCount(Seen(g, w).fat1) == Room(j)
  {
    ChainFits(dcur, |Seen(g, w).fat1|);
    OnCourseBounds(j, Seen(g, w), dcur, start);
  }

  lemma DirStateKept(j: Job, slots0: seq<Slot32>, g: Geometry, w0: World, w1: World, dcur: seq<nat>, start: nat, i: nat, cluster: nat)
    requires DirState(j, slots0, g, w0, dcur, start, i, cluster) && Mounted(g, w1) && Seen(g, w1) == Seen(g, w0)
    ensures DirState(j, slots0, g, w1, dcur, start, i, cluster)
  {
    assert IsChain(Seen(g, w1).fat1, dcur) ==> Entries(g, w1, dcur) == Entries(g, w0, dcur);
  }

  /** What creating an entry comes to. */
  ghost predicate Created(g: Geometry, v0: FatImage, v1: FatImage, slots0: seq<Slot32>, dch: seq<nat>, dch1: seq<nat>,
                          start: nat, entry: Slot32, k: nat) {
    && Rewritten(v0, v1, dch, dch1, g.BytesPerCluster(), ENTRY_SIZE * k, entry)
    && |dch1| > 0 && dch1[0] == start
    && (if FirstFree(slots0).Hit? then dch1 == dch && k == FirstFree(slots0).k
        else |dch1| == |dch| + 1 && k == |slots0|)
  }

  /** Room was found: writing the entry there finishes the job. */
  lemma DirDone(j: Job, slots0: seq<Slot32>, g: Geometry, w: World, dcur: seq<nat>, start: nat, i: nat, cluster: nat,
                k: nat, lba: nat, off: nat, at: nat, entry: Slot32)
    requires DirState(j, slots0, g, w, dcur, start, i, cluster)
    requires FirstFree(Entries(g, w, dcur)) == Hit(k) && EntryPlaced(g, dcur, k, lba, off, i, at)
    ensures cluster < |Seen(g, w).data| && BLOCK_SIZE * at + off + ENTRY_SIZE <= |Seen(g, w).data[cluster]|
    ensures Created(g, j.v0, WithSlice(Seen(g, w), cluster, BLOCK_SIZE * at + off, entry), slots0, j.ch0, dcur, start, entry, k)
  {
    hide Content, Slots, FirstFree, Mounted, Abs, Rewritten, IsChain, SectorNumber, WithSlice, IsEnd;
    var x := ENTRY_SIZE * k;
    var v := Seen(g, w);
    OffsetAnywhere(j, v, dcur, start, x);
    EntryOffset(g, i, at, off, k);
    RoomInClusterBytes(g, at, off);
    OnCourseSlice(j.(off := x), v, dcur, start, i, BLOCK_SIZE * at + off, entry);
    assert [] + entry == entry;
    FirstFreeOfGrown(slots0, Entries(g, w, dcur), dcur == j.ch0, k);
  }

  /** With nothing written yet, the offset of a job does not matter. */
  lemma OffsetAnywhere(j: Job, v: FatImage, ch: seq<nat>, start: nat, x: nat)
    requires OnCourse(j, v, ch, start) && j.piece == []
    ensures OnCourse(j.(off := x), v, ch, start)
  {
    hide Content;
    assert Patched(Content(j.v0, j.ch0, j.m), |ch| * j.m, j.off, []) == Patched(Content(j.v0, j.ch0, j.m), |ch| * j.m, x, []);
  }

  lemma EntryOffset(g: Geometry, i: nat, at: nat, off: nat, k: nat)
    requires at < g.sectorsPerCluster && off % ENTRY_SIZE == 0 && off < BLOCK_SIZE
    requires k == PER_SECTOR * SectorNumber(g, i, at) + off / ENTRY_SIZE
    ensures IsPlace(g.BytesPerCluster(), i, BLOCK_SIZE * at + off, ENTRY_SIZE * k)
  {
    PlaceOfSector(g, i, at);
  }

  lemma RoomInClusterBytes(g: Geometry, at: nat, off: nat)
    requires at < g.sectorsPerCluster && off % ENTRY_SIZE == 0 && off < BLOCK_SIZE
    ensures BLOCK_SIZE * at + off + ENTRY_SIZE <= g.BytesPerCluster()
  {
  }

  lemma FirstFreeOfGrown(slots0: seq<Slot32>, slots1: seq<Slot32>, same: bool, k: nat)
    requires FirstFree(slots1) == Hit(k)
    requires if same then slots1 == slots0
      else FirstFree(slots0) == Pass && |slots0| < |slots1| && IsEnd(slots1[|slots0|]) && FullTo(slots1, |slots0|)
    ensures if same then FirstFree(slots0) == Hit(k) else k == |slots0| && FirstFree(slots0) == Pass
  {
    if !same {
      hide Live;
      var n := |slots0|;
      assert slots1 == slots1[..n] + slots1[n..];
      FirstFreeConcat(slots1[..n], slots1[n..]);
      EndIsFree(slots1[n..]);
    }
  }

  lemma EndIsFree(slots: seq<Slot32>)
    requires |slots| > 0 && IsEnd(slots[0])
    ensures FirstFree(slots) == Hit(0)
  {
  }

  /** The i-th cluster is full; its link leads on, or the directory is full and may be extended. */
  lemma DirFull(j: Job, slots0: seq<Slot32>, g: Geometry, w: World, dcur: seq<nat>, start: nat, i: nat, cluster: nat)
    requires DirState(j, slots0, g, w, dcur, start, i, cluster)
    requires FullTo(Entries(g, w, dcur), PER_SECTOR * g.Span(i + 1))
    ensures dcur == j.ch0
    ensures var e := Entry(Seen(g, w).fat1, cluster);
      if i < |dcur| - 1 then DirState(j, slots0, g, w, dcur, start, i + 1, e) && g.InRange(e) && e < FAT32_BAD
      else IsEoc(e) && FirstFree(slots0) == Pass
  {
    hide Content, Slots, Search, FirstFree, OnCourse;
    VolumeBounds(g, w);
    DirLength(g, w, dcur);
    var slots := Entries(g, w, dcur);
    ChainStep(Seen(g, w).fat1, dcur, i);
    if dcur != j.ch0 {
      assert slots[..|slots|] == slots;
      EndMeansRoom(slots, |slots0|);
      assert false;
    }
    if i == |dcur| - 1 {
      assert slots[..|slots|] == slots;
    }
  }

  lemma EndMeansRoom(slots: seq<Slot32>, n: nat)
    requires n < |slots| && IsEnd(slots[n])
    ensures FirstFree(slots) != Pass
  {
  }

  /** After an extension the scan goes on in the new, zeroed cluster. */
  lemma DirExtended(j: Job, slots0: seq<Slot32>, g: Geometry, w: World, w': World, dcur: seq<nat>, start: nat, i: nat,
                    cluster: nat, added: nat)
    requires DirState(j, slots0, g, w, dcur, start, i, cluster) && dcur == j.ch0 && i == |dcur| - 1
    requires FirstFree(slots0) == Pass && g.InRange(added) && Entry(Seen(g, w).fat1, added) == FAT32_FREE
    requires Mounted(g, w') && Seen(g, w') == Linked(Seen(g, w), cluster, added, g.BytesPerCluster())
    ensures DirState(j, slots0, g, w', dcur + [added], start, i + 1, added)
  {
    hide Content, Slots, FirstFree, OnCourse, Linked, Abs, Coherent, Grown, Rewritten, Patched, CountFree;
    VolumeBounds(g, w);
    var v, m := Seen(g, w), g.BytesPerCluster();
    MountedUniform(g, w);
    MountedUniform(g, w');
    OnCourseExtend(j, v, dcur, start, added);
    LinkedGrows(v, dcur, added, m);
    OnCourseBounds(j, Seen(g, w'), dcur + [added], start);
    ClusterMultiple(g);
    SlotsOfConcat(Content(v, dcur, m), ZeroBytes(m));
    ZeroSlots(ZeroBytes(m));
    DirLength(g, w, dcur);
    SlotsCount(ZeroBytes(m));
    var slots := Entries(g, w', dcur + [added]);
    assert slots[..|slots0|] == slots0;
  }

  lemma SlotsCount(b: seq<Byte>)
    ensures |Slots(b)| == |b| / ENTRY_SIZE
  {
  }

  lemma ClusterMultiple(g: Geometry)
    ensures g.BytesPerCluster() % ENTRY_SIZE == 0
    ensures forall k: nat {:trigger k * g.BytesPerCluster()} :: k * g.BytesPerCluster() % ENTRY_SIZE == 0
    ensures 1 <= g.sectorsPerCluster ==> g.BytesPerCluster() / ENTRY_SIZE >= 1
  {
    forall k: nat ensures k * g.BytesPerCluster() % ENTRY_SIZE == 0 {
      SpanInBytes(g, k);
      assert g.Span(k) * BLOCK_SIZE % ENTRY_SIZE == 0;
    }
  }
}
