/** The readers of fs/vfs.c that go straight to the device: vfs_read_fat_direct and
    vfs_scan_directory. They tell what the cached readers tell once everything is on the device. */
module Uncached {
  import opened Blocks
  import opened SectorCache
  import opened FatTable
  import opened VolumeState
  import opened Chains
  import opened FileBytes
  import opened Fat32
  import opened ShortNames
  import opened DirSlots
  import opened Directory
  import opened FileSystem

  /** Readers see what the device holds. */
  ghost predicate OnDevice(g: Geometry, w: World) {
    Mounted(g, w) && w.disks[g.dev] == View(w, g.dev)
  }

  /** vfs_read_fat_direct: with everything on the device it reads what fat32_read_fat reads. */
  method ReadFatDirect(vol: Volume, c: nat) returns (v: nat)
    requires vol.Valid() && vol.g.InRange(c)
    modifies vol.cache.table
    ensures vol.Valid() && Quiet(old(vol.Now()), vol.Now()) && vol.cache.table.disks == old(vol.cache.table.disks)
    ensures vol.cache.table.failures != old(vol.cache.table.failures) ==> v == FAT32_BAD
    ensures vol.cache.table.failures == old(vol.cache.table.failures) ==>
      && v == Entry(Stored(vol.g, old(vol.Now())).fat1, c)
      && (OnDevice(vol.g, old(vol.Now())) ==> v == Entry(Seen(vol.g, old(vol.Now())).fat1, c))
  {
    var g := vol.g;
    ghost var w0 := vol.Now();
    var lba := g.fatStart + c * 4 / BLOCK_SIZE;
    var off := c * 4 % BLOCK_SIZE;
    PutFat1(g, w0.disks[g.dev], c, 0, lba, off);
    var ok, sector := vol.cache.DirectRead(g.dev, lba);
    QuietVolume(g, w0, vol.Now());
    if !ok {
      return FAT32_BAD;
    }
    v := Load32(sector, off) % ENTRY_RANGE;
  }

  /** What a caller is told of one entry. */
  datatype Listing = Listing(name: CString, size: Word, isDir: bool, cluster: Word)

  function ListingOf(e: Slot32): Listing {
    Listing(From83(e[..11]), EntrySize(e), IsDirectory(e), EntryCluster(e))
  }

  /** The entries in use before the end marker, in order. */
  function Listed(slots: seq<Slot32>): (r: seq<Listing>)
    ensures |r| <= |slots|
  {
    if slots == [] || IsEnd(slots[0]) then [] else Told(slots[0]) + Listed(slots[1..])
  }

  /** One entry in a listing: nothing of a long-name slot or a deleted one. */
  function Told(e: Slot32): (r: seq<Listing>)
    ensures |r| <= 1
  {
    if IsLfn(e) || IsDeleted(e) then [] else [ListingOf(e)]
  }

  predicate HasEnd(slots: seq<Slot32>) { exists i :: 0 <= i < |slots| && IsEnd(slots[i]) }

  lemma {:induction false} ListedConcat(a: seq<Slot32>, b: seq<Slot32>)
    ensures Listed(a + b) == Listed(a) + if HasEnd(a) then [] else Listed(b)
  {
    hide IsEnd, IsLfn, IsDeleted, ListingOf, HasEnd, Listed, Told;
    EndOfRest(a);
    ListedFirst(a);
    ListedFirst(a + b);
    if a == [] {
      assert a + b == b;
    } else {
      ListedConcat(a[1..], b);
      HeadOff(a, b);
    }
  }

  lemma ListedFirst(a: seq<Slot32>)
    ensures Listed(a) == if a == [] || IsEnd(a[0]) then [] else Told(a[0]) + Listed(a[1..])
  {
  }

  lemma HeadOff(a: seq<Slot32>, b: seq<Slot32>)
    requires a != []
    ensures (a + b)[0] == a[0] && (a + b)[1..] == a[1..] + b
  {
  }

  lemma EndOfRest(a: seq<Slot32>)
    ensures HasEnd(a) <==> a != [] && (IsEnd(a[0]) || HasEnd(a[1..]))
  {
    if a != [] && HasEnd(a[1..]) {
      var i :| 0 <= i < |a[1..]| && IsEnd(a[1..][i]);
      assert a[i + 1] == a[1..][i];
    }
    if HasEnd(a) {
      var i :| 0 <= i < |a| && IsEnd(a[i]);
      assert i > 0 ==> a[1..][i - 1] == a[i];
    }
  }

  /** A listing holds every live entry of a directory of 8.3 names and nothing else. */
  lemma {:induction false} ListedIsLive(slots: seq<Slot32>, i: nat)
    requires Tidy(slots) && i < |slots| && Live(slots[i])
    ensures ListingOf(slots[i]) in Listed(slots)
  {
    hide ListingOf;
    assert !IsEnd(slots[0]);
    if i > 0 {
      var rest := slots[1..];
      assert Tidy(rest) by {
        assert forall k :: 0 <= k < |rest| ==> rest[k] == slots[k + 1];
      }
      ListedIsLive(rest, i - 1);
    }
  }

  /** What a listing tells of one entry. */
  lemma ListingFields(e: Slot32)
    ensures var l := ListingOf(e);
      l.name == From83(e[..11]) && l.size == EntrySize(e) && l.cluster == EntryCluster(e) && (l.isDir <==> e[11] / 16 % 2 == 1)
  {
  }

  /** A listing goes through the directory in order, once: it tells of the entries at the places `ix`,
      which are all places before the first end marker that hold neither a deleted nor a long-name entry. */
  lemma {:induction false} ListedInOrder(slots: seq<Slot32>) returns (ix: seq<nat>)
    ensures Points(slots, Listed(slots), ix) && Rising(ix)
    ensures forall i: nat :: i in ix <==> Shown(slots, i)
  {
    hide IsEnd, IsLfn, IsDeleted, ListingOf, Shown, WithFirst, Told;
    if slots == [] || IsEnd(slots[0]) {
      NothingShown(slots);
      return [];
    }
    var ix1 := ListedInOrder(slots[1..]);
    ix := WithFirst(slots, ix1);
    forall i: nat ensures i in ix <==> Shown(slots, i) {
      FirstShown(slots, ix1, i);
    }
    PointsFollow(slots, Listed(slots[1..]), ix1);
    RisingFollows(slots, ix1);
  }

  /** The places in the rest of the entries, told in all of them, behind the first place if it is shown. */
  function WithFirst(slots: seq<Slot32>, ix1: seq<nat>): seq<nat>
    requires slots != []
  {
    (if IsLfn(slots[0]) || IsDeleted(slots[0]) then [] else [0]) + Raised(ix1)
  }

  lemma FirstShown(slots: seq<Slot32>, ix1: seq<nat>, i: nat)
    requires slots != [] && !IsEnd(slots[0]) && forall k: nat :: k in ix1 <==> Shown(slots[1..], k)
    ensures i in WithFirst(slots, ix1) <==> Shown(slots, i)
  {
    hide IsEnd, IsLfn, IsDeleted, Shown, Raised;
    ShownFirst(slots);
    if i > 0 {
      ShownLater(slots, i);
    }
  }

  /** Listing `l` tells of the entries at the places `ix`. */
  predicate Points(slots: seq<Slot32>, l: seq<Listing>, ix: seq<nat>) {
    |ix| == |l| && forall k :: 0 <= k < |ix| ==> ix[k] < |slots| && l[k] == ListingOf(slots[ix[k]])
  }

  predicate Rising(ix: seq<nat>) { forall a, b :: 0 <= a < b < |ix| ==> ix[a] < ix[b] }

  lemma PointsFollow(slots: seq<Slot32>, l: seq<Listing>, ix1: seq<nat>)
    requires slots != [] && Points(slots[1..], l, ix1)
    ensures Points(slots, Told(slots[0]) + l, WithFirst(slots, ix1))
  {
    hide IsEnd, IsLfn, IsDeleted, ListingOf, Raised;
    var ix, all, n := WithFirst(slots, ix1), Told(slots[0]) + l, |Told(slots[0])|;
    var up := Raised(ix1);
    forall k | 0 <= k < |ix| ensures ix[k] < |slots| && all[k] == ListingOf(slots[ix[k]]) {
      if k >= n {
        assert ix[k] == up[k - n] == ix1[k - n] + 1 && all[k] == l[k - n];
        assert slots[ix[k]] == slots[1..][ix1[k - n]];
      }
    }
  }

  lemma RisingFollows(slots: seq<Slot32>, ix1: seq<nat>)
    requires slots != [] && Rising(ix1)
    ensures Rising(WithFirst(slots, ix1))
  {
    hide IsLfn, IsDeleted, Raised;
    var ix, up := WithFirst(slots, ix1), Raised(ix1);
    var n := |ix| - |up|;
    forall a, b | 0 <= a < b < |ix| ensures ix[a] < ix[b] {
      assert ix[b] == up[b - n] == ix1[b - n] + 1;
      if a >= n {
        assert ix[a] == up[a - n] == ix1[a - n] + 1;
      }
    }
  }

  lemma NothingShown(slots: seq<Slot32>)
    requires slots == [] || IsEnd(slots[0])
    ensures forall i: nat :: !Shown(slots, i)
  {
    hide IsEnd;
  }

  lemma ShownFirst(slots: seq<Slot32>)
    requires slots != [] && !IsEnd(slots[0])
    ensures Shown(slots, 0) <==> !IsLfn(slots[0]) && !IsDeleted(slots[0])
  {
  }

  /** The same places, one further on. */
  function Raised(ix: seq<nat>): (up: seq<nat>)
    ensures |up| == |ix| && (forall k :: 0 <= k < |ix| ==> up[k] == ix[k] + 1)
    ensures 0 !in up && forall i: nat :: i > 0 ==> (i in up <==> i - 1 in ix)
  {
    if ix == [] then [] else [ix[0] + 1] + Raised(ix[1..])
  }

  /** An entry that a listing tells of. */
  predicate Shown(slots: seq<Slot32>, i: nat) {
    i < |slots| && !IsDeleted(slots[i]) && !IsLfn(slots[i]) && forall j :: 0 <= j <= i ==> !IsEnd(slots[j])
  }

  lemma ShownLater(slots: seq<Slot32>, i: nat)
    requires slots != [] && !IsEnd(slots[0]) && i > 0
    ensures Shown(slots, i) <==> Shown(slots[1..], i - 1)
  {
    hide IsEnd, IsLfn, IsDeleted;
    var rest := slots[1..];
    assert forall j :: 0 < j < |slots| ==> slots[j] == rest[j - 1];
    if Shown(rest, i - 1) {
      forall j | 0 <= j <= i ensures !IsEnd(slots[j]) {
        if j > 0 {
          assert !IsEnd(rest[j - 1]);
        }
      }
    }
    if Shown(slots, i) {
      forall j | 0 <= j <= i - 1 ensures !IsEnd(rest[j]) {
        assert !IsEnd(slots[j + 1]);
      }
    }
  }

  lemma {:induction false} ListedComesFrom(slots: seq<Slot32>, l: Listing) returns (i: nat)
    requires l in Listed(slots)
    ensures i < |slots| && Live(slots[i]) && !IsLfn(slots[i]) && l == ListingOf(slots[i])
  {
    hide ListingOf;
    if !IsLfn(slots[0]) && !IsDeleted(slots[0]) && l == ListingOf(slots[0]) {
      i := 0;
    } else {
      i := ListedComesFrom(slots[1..], l);
      i := i + 1;
    }
  }

  function FirstOf(r: seq<Listing>, max: nat): seq<Listing> { if |r| > max then r[..max] else r }

  /** A listing is cut off behind the number of entries the caller has room for, and nowhere else. */
  lemma LimitKept(r: seq<Listing>, max: nat)
    ensures FirstOf(r, max) <= r && |FirstOf(r, max)| <= max && (|FirstOf(r, max)| < max ==> FirstOf(r, max) == r)
  {
  }

  /** The first `n` entries have been listed, and no end marker was among them. */
  ghost predicate ScannedTo(slots: seq<Slot32>, n: nat, max: nat, acc: seq<Listing>) {
    n <= |slots| && !HasEnd(slots[..n]) && acc == FirstOf(Listed(slots[..n]), max)
  }

  /** The scan is over: the end marker was seen, or the directory ended. */
  ghost predicate ScanDone(slots: seq<Slot32>, max: nat, acc: seq<Listing>) {
    acc == FirstOf(Listed(slots), max)
  }

  lemma ScanExtends(slots: seq<Slot32>, n: nat, n': nat, max: nat, acc: seq<Listing>)
    requires n <= n' <= |slots| && ScannedTo(slots, n, max, acc)
    ensures var part := slots[n..n'];
      if HasEnd(part) then ScanDone(slots, max, FirstOf(acc + Listed(part), max))
      else ScannedTo(slots, n', max, FirstOf(acc + Listed(part), max))
  {
    hide Listed, HasEnd;
    var a, part, rest := slots[..n], slots[n..n'], slots[n'..];
    assert slots[..n'] == a + part;
    assert slots == a + (part + rest);
    ListedConcat(a, part);
    ListedConcat(a, part + rest);
    ListedConcat(part, rest);
    EndOfConcat(a, part);
  }

  lemma EndOfConcat(a: seq<Slot32>, b: seq<Slot32>)
    ensures HasEnd(a + b) <==> HasEnd(a) || HasEnd(b)
  {
    if HasEnd(a) {
      var i :| 0 <= i < |a| && IsEnd(a[i]);
      assert IsEnd((a + b)[i]);
    }
    if HasEnd(b) {
      var i :| 0 <= i < |b| && IsEnd(b[i]);
      assert IsEnd((a + b)[|a| + i]);
    }
  }

  /** One entry more. */
  lemma OneMore(slots: seq<Slot32>, e: nat, max: nat, acc: seq<Listing>, acc1: seq<Listing>)
    requires e < |slots| && !HasEnd(slots[..e]) && |acc1| <= max && acc1 == FirstOf(acc + Listed(slots[..e]), max)
    ensures var slot := slots[e];
      if IsEnd(slot) then HasEnd(slots) && acc1 == FirstOf(acc + Listed(slots), max)
      else
        && !HasEnd(slots[..e + 1])
        && FirstOf(acc + Listed(slots[..e + 1]), max)
           == if !IsLfn(slot) && !IsDeleted(slot) && |acc1| < max then acc1 + [ListingOf(slot)] else acc1
  {
    hide ListingOf, HasEnd, IsLfn, IsDeleted, IsEnd, Listed, FirstOf;
    var a, slot, rest := slots[..e], slots[e], slots[e..];
    if IsEnd(slot) {
      assert slots == a + rest;
      EndHere(a, rest);
    } else {
      assert slots[..e + 1] == a + [slot];
      PassesHere(a, slot);
      FirstOfMore(acc, Listed(a), ListingOf(slot), max);
    }
  }

  lemma EndHere(a: seq<Slot32>, rest: seq<Slot32>)
    requires !HasEnd(a) && rest != [] && IsEnd(rest[0])
    ensures HasEnd(a + rest) && Listed(a + rest) == Listed(a)
  {
    hide ListingOf, HasEnd, IsLfn, IsDeleted, IsEnd, Listed;
    ListedConcat(a, rest);
    EndOfConcat(a, rest);
    ListedHead(rest);
  }

  lemma PassesHere(a: seq<Slot32>, slot: Slot32)
    requires !HasEnd(a) && !IsEnd(slot)
    ensures !HasEnd(a + [slot])
    ensures Listed(a + [slot]) == if IsLfn(slot) || IsDeleted(slot) then Listed(a) else Listed(a) + [ListingOf(slot)]
  {
    hide ListingOf, HasEnd, IsLfn, IsDeleted, IsEnd, Listed;
    ListedConcat(a, [slot]);
    EndOfConcat(a, [slot]);
    ListedHead([slot]);
  }

  lemma FirstOfMore(acc: seq<Listing>, l: seq<Listing>, x: Listing, max: nat)
    ensures var r := FirstOf(acc + l, max);
      FirstOf(acc + (l + [x]), max) == if |r| < max then r + [x] else r
  {
    assert acc + (l + [x]) == acc + l + [x];
  }

  lemma ListedHead(slots: seq<Slot32>)
    requires slots != []
    ensures IsEnd(slots[0]) ==> HasEnd(slots) && Listed(slots) == []
    ensures |slots| == 1 && !IsEnd(slots[0]) ==>
      && !HasEnd(slots)
      && Listed(slots) == if IsLfn(slots[0]) || IsDeleted(slots[0]) then [] else [ListingOf(slots[0])]
  {
    hide ListingOf, IsLfn, IsDeleted, IsEnd;
    if |slots| == 1 {
      assert slots[1..] == [];
    }
  }

  /** The inner loop of vfs_scan_directory over one sector. */
  method ScanSector(sector: Sector, max: nat, acc: seq<Listing>) returns (ended: bool, acc1: seq<Listing>)
    requires |acc| <= max
    ensures |acc1| <= max
    ensures ended <==> HasEnd(Slots(sector))
    ensures acc1 == FirstOf(acc + Listed(Slots(sector)), max)
  {
    hide ListingOf, HasEnd, Listed, IsEnd, IsLfn, IsDeleted;
    ghost var slots := Slots(sector);
    acc1 := acc;
    EndOfRest([]);
    ListedNone();
    assert slots[..0] == [] && acc + [] == acc;
    for e := 0 to PER_SECTOR
      invariant |acc1| <= max && !HasEnd(slots[..e])
      invariant acc1 == FirstOf(acc + Listed(slots[..e]), max)
    {
      var slot: Slot32 := sector[32 * e..32 * e + 32];
      assert slots[e] == slot;
      OneMore(slots, e, max, acc, acc1);
      if IsEnd(slot) {
        return true, acc1;
      }
      if !IsLfn(slot) && !IsDeleted(slot) && |acc1| < max {
        acc1 := acc1 + [ListingOf(slot)];
      }
    }
    assert slots[..PER_SECTOR] == slots;
    return false, acc1;
  }

  lemma ListedNone()
    ensures Listed([]) == []
  {
  }

  /** The sectors of one directory cluster. */
  method ScanCluster(vol: Volume, cluster: nat, max: nat, acc: seq<Listing>, ghost dch: seq<nat>, ghost slots: seq<Slot32>, ghost i: nat)
    returns (ok: bool, ended: bool, acc1: seq<Listing>)
    requires vol.Valid() && vol.g.InRange(cluster) && |acc| <= max
    modifies vol.cache.table
    ensures vol.Valid() && Quiet(old(vol.Now()), vol.Now()) && vol.cache.table.disks == old(vol.cache.table.disks)
    ensures ok <==> vol.cache.table.failures == old(vol.cache.table.failures)
    ensures |acc1| <= max
    ensures OnDevice(vol.g, old(vol.Now())) && ClusterOf(vol.g, old(vol.Now()), dch, slots, i, cluster) && ok ==>
      ScannedTo(slots, PER_SECTOR * vol.g.Span(i), max, acc) ==>
      if ended then ScanDone(slots, max, acc1) else ScannedTo(slots, PER_SECTOR * vol.g.Span(i + 1), max, acc1)
  {
    hide Mounted, Coherent, ElsewhereSame, Fat1Within, KeepsClean, Abs, FatWords, SameShape, Quiet, Step,
         SectorBytes, View, ClusterOf, Slots, Listed, FirstOf, ScannedTo, ScanDone, HasEnd;
    var g := vol.g;
    ghost var w0 := vol.Now();
    VolumeBounds(g, w0);
    ghost var given := OnDevice(g, w0) && ClusterOf(g, w0, dch, slots, i, cluster) && ScannedTo(slots, PER_SECTOR * g.Span(i), max, acc);
    g.ClusterToLba(cluster);
    var base := g.dataStart + (cluster - 2) * g.sectorsPerCluster;
    acc1 := acc;
    for s := 0 to g.sectorsPerCluster
      invariant vol.Valid() && Quiet(w0, vol.Now()) && vol.cache.table.disks == w0.disks
      invariant vol.cache.table.failures == w0.failures && |acc1| <= max
      invariant given ==> ScannedTo(slots, PER_SECTOR * SectorNumber(g, i, s), max, acc1)
    {
      ghost var w1 := vol.Now();
      VolumeBounds(g, w1);
      var sector;
      ok, sector := vol.cache.DirectRead(g.dev, base + s);
      ghost var w2 := vol.Now();
      QuietVolume(g, w1, w2);
      QuietTransitive(w0, w1, w2);
      if !ok {
        return false, false, acc1;
      }
      ghost var before := acc1;
      ended, acc1 := ScanSector(sector, max, acc1);
      if given {
        NextSixteen(g, w0, dch, slots, i, cluster, s);
        ScanExtends(slots, PER_SECTOR * SectorNumber(g, i, s), PER_SECTOR * SectorNumber(g, i, s) + PER_SECTOR, max, before);
      }
      if ended {
        return true, true, acc1;
      }
    }
    return true, false, acc1;
  }

  /** vfs_scan_directory. A failing transfer gives an error or cuts the listing short; otherwise the
      listing is the directory's, up to `max` entries. */
  method ScanDirectory(vol: Volume, dirCluster: nat, max: nat, ghost dch: seq<nat>) returns (ok: bool, acc: seq<Listing>)
    requires vol.Valid()
    modifies vol.cache.table
    ensures vol.Valid() && Quiet(old(vol.Now()), vol.Now()) && vol.cache.table.disks == old(vol.cache.table.disks)
    ensures OnDevice(vol.g, old(vol.Now())) && IsDir(vol.g, old(vol.Now()), dch, dirCluster) ==>
      vol.cache.table.failures == old(vol.cache.table.failures) ==>
      ok && acc == FirstOf(Listed(Entries(vol.g, old(vol.Now()), dch)), max)
  {
    hide Mounted, Coherent, ElsewhereSame, Fat1Within, KeepsClean, Abs, FatWords, SameShape, Quiet, Step,
         SectorBytes, View, ClusterOf, Slots, Listed, FirstOf, ScannedTo, HasEnd, Entries, IsChain;
    var g := vol.g;
    ghost var w0 := vol.Now();
    VolumeBounds(g, w0);
    ghost var given := OnDevice(g, w0) && IsDir(g, w0, dch, dirCluster);
    ghost var slots := if given then Entries(g, w0, dch) else [];
    acc := [];
    if given {
      ScanStart(g, w0, dch, dirCluster, slots, max);
    }
    var cluster: nat := dirCluster;
    var safety: nat := 0;
    while 2 <= cluster <= g.totalClusters + 1
      invariant vol.Valid() && Quiet(w0, vol.Now()) && vol.cache.table.disks == w0.disks
      invariant safety <= g.totalClusters && |acc| <= max
      invariant given && vol.cache.table.failures == w0.failures ==>
        ClusterOf(g, w0, dch, slots, safety, cluster) && ScannedTo(slots, PER_SECTOR * g.Span(safety), max, acc) && g.InRange(cluster)
      decreases g.totalClusters - safety
    {
      ghost var w1 := vol.Now();
      VolumeBounds(g, w1);
      QuietVolume(g, w0, w1);
      if given && w1.failures == w0.failures {
        ClusterOfKept(g, w0, w1, dch, slots, safety, cluster);
        ClusterCount(g, w0, dch, slots, safety, cluster);
      }
      safety := safety + 1;
      if safety > g.totalClusters {
        return false, acc;
      }
      var ended;
      ok, ended, acc := ScanCluster(vol, cluster, max, acc, dch, slots, safety - 1);
      ghost var w2 := vol.Now();
      VolumeBounds(g, w2);
      QuietVolume(g, w1, w2);
      QuietTransitive(w0, w1, w2);
      if !ok || ended {
        return;
      }
      var next := ReadFatDirect(vol, cluster);
      ghost var w3 := vol.Now();
      VolumeBounds(g, w3);
      QuietVolume(g, w2, w3);
      QuietTransitive(w0, w2, w3);
      if given && w3.failures == w0.failures {
        NextScanned(g, w0, dch, slots, safety - 1, cluster, max, acc);
      }
      if IsEoc(next) || next == FAT32_FREE || next == FAT32_BAD {
        return true, acc;
      }
      cluster := next;
    }
    return true, acc;
  }

  lemma ScanStart(g: Geometry, w: World, dch: seq<nat>, dirCluster: nat, slots: seq<Slot32>, max: nat)
    requires IsDir(g, w, dch, dirCluster) && slots == Entries(g, w, dch)
    ensures g.InRange(dirCluster) && ClusterOf(g, w, dch, slots, 0, dirCluster) && ScannedTo(slots, PER_SECTOR * g.Span(0), max, [])
  {
    hide Entries;
    VolumeBounds(g, w);
    assert slots[..0] == [];
  }

  lemma NextScanned(g: Geometry, w: World, dch: seq<nat>, slots: seq<Slot32>, i: nat, cluster: nat, max: nat, acc: seq<Listing>)
    requires ClusterOf(g, w, dch, slots, i, cluster) && ScannedTo(slots, PER_SECTOR * g.Span(i + 1), max, acc)
    ensures var e := Entry(Seen(g, w).fat1, cluster);
      if i < |dch| - 1 then ClusterOf(g, w, dch, slots, i + 1, e) && g.InRange(e) && e < FAT32_BAD
      else IsEoc(e) && ScanDone(slots, max, acc)
  {
    hide Listed, HasEnd, Entries, FirstOf, IsChain, Mounted, Abs, Coherent;
    VolumeBounds(g, w);
    ChainStep(Seen(g, w).fat1, dch, i);
    DirLength(g, w, dch);
    assert slots[..|slots|] == slots;
  }
}
