/** A flat file system as a value: one directory, the files its entries name, and the cluster
    chains that hold them. The directory-entry fields follow include/fat32.h. */
module FileSystem {
  import opened Arithmetic
  import opened Blocks
  import opened FatTable
  import opened Chains
  import opened FileBytes
  import opened ShortNames
  import opened DirSlots

  const ATTR_ARCHIVE: Byte := 0x20

  function Join16(lo: Byte, hi: Byte): nat { lo + 0x100 * hi }

  function Split16(v: nat): (b: seq<Byte>)
    requires v < 0x1_0000
    ensures |b| == 2 && Join16(b[0], b[1]) == v
  {
    [v % 0x100, v / 0x100]
  }

  function Split32(v: Word): (b: seq<Byte>)
    ensures |b| == 4 && Join32(b[0], b[1], b[2], b[3]) == v
  {
    SplitJoin32(v);
    [v % 0x100, v / 0x100 % 0x100, v / 0x1_0000 % 0x100, v / 0x100_0000]
  }

  /** fat32_entry_cluster: the high half is at byte 20, the low half at byte 26. */
  function EntryCluster(e: Slot32): Word { Join16(e[20], e[21]) * 0x1_0000 + Join16(e[26], e[27]) }

  function EntrySize(e: Slot32): Word { Join32(e[28], e[29], e[30], e[31]) }

  predicate IsDirectory(e: Slot32) { e[11] / 0x10 % 2 == 1 }

  /** An entry of a file, neither a directory nor the volume label. */
  predicate IsPlain(e: Slot32) { !IsDirectory(e) && e[11] / 0x08 % 2 == 0 }

  /** fat32_set_entry_cluster and the new size, as vfs_sync_open_file stores them. */
  function Restart(e: Slot32, start: Word, size: Word): (r: Slot32)
    ensures EntryCluster(r) == start && EntrySize(r) == size && r[..12] == e[..12]
    ensures r[12..20] == e[12..20] && r[22..26] == e[22..26]
  {
    e[..20] + Split16(start / 0x1_0000) + e[22..26] + Split16(start % 0x1_0000) + Split32(size)
  }

  /** The entry vfs_open makes for a new file. */
  function NewEntry(name: CString, start: Word): (e: Slot32) {
    Restart(To83(name) + [ATTR_ARCHIVE] + ZeroBytes(20), start, 0)
  }

  lemma NewEntryFields(name: CString, start: Word)
    ensures var e := NewEntry(name, start);
      e[..11] == To83(name) && e[11] == ATTR_ARCHIVE && EntryCluster(e) == start && EntrySize(e) == 0
  {
    hide To83, Restart, EntryCluster, EntrySize;
    var blank: Slot32 := To83(name) + [ATTR_ARCHIVE] + ZeroBytes(20);
    PrefixOfTwelve(blank, To83(name));
    SamePrefix(NewEntry(name, start), blank);
  }

  lemma PrefixOfTwelve(b: Slot32, name: seq<Byte>)
    requires |name| == 11 && b[..12] == name + [ATTR_ARCHIVE]
    ensures b[..11] == name && b[11] == ATTR_ARCHIVE
  {
    assert b[..11] == b[..12][..11];
    assert b[11] == b[..12][11];
  }

  lemma SamePrefix(a: Slot32, b: Slot32)
    requires a[..12] == b[..12]
    ensures a[..11] == b[..11] && a[11] == b[11]
  {
    assert a[..11] == a[..12][..11] && b[..11] == b[..12][..11];
    assert a[11] == a[..12][11] && b[11] == b[..12][11];
  }

  /** An 8.3 name is found under itself again, unless it begins with the byte that marks deleted
      entries: fat32 lets that byte through, and the new entry counts as deleted at once. */
  lemma NewEntryIsFound(name: CString, start: Word)
    requires IsShort(name) && name != []
    ensures var e := NewEntry(name, start);
      && KeyOf(e) == LowerAll(name) && !IsLfn(e) && IsPlain(e)
      && (Live(e) <==> name[0] != DELETED_MARK)
  {
    hide NewEntry, To83, From83, LowerAll, EntryCluster, EntrySize;
    NewEntryFields(name, start);
    var e := NewEntry(name, start);
    FirstLetter(name);
    assert e[0] == e[..11][0];
  }

  /** The first byte of the 8.3 form of an 8.3 name. */
  lemma FirstLetter(name: CString)
    requires IsShort(name) && name != []
    ensures To83(name)[0] != END_MARK && (To83(name)[0] == DELETED_MARK <==> name[0] == DELETED_MARK)
  {
    hide To83, Before;
    var n := To83(name);
    var text := Before(n[..8], SPACE) + if n[8] == SPACE then [] else [DOT] + Before(n[8..], SPACE);
    var printed := From83(n);
    assert printed == Before(text, 0);
    assert LowerAll(printed)[0] == LowerAll(name)[0];
    assert |printed| == |name|;
    assert printed[0] == text[0] != 0;
    FirstBefore(n[..8], SPACE);
    assert n[..8][0] == n[0];
  }

  lemma FirstBefore(s: seq<Byte>, stop: Byte)
    requires |s| > 0
    ensures if s[0] == stop then Before(s, stop) == [] else |Before(s, stop)| > 0 && Before(s, stop)[0] == s[0]
  {
  }

  /** A file: its chain of clusters and its bytes. */
  datatype Node = Node(ch: seq<nat>, bytes: seq<Byte>)

  /** The directory's chain and map, and the files behind its entries. */
  datatype FileSys = FileSys(dch: seq<nat>, dir: map<Key, Slot32>, nodes: map<Key, Node>)

  /** The clusters of a file hold its bytes, then zeros. */
  ghost predicate DataOk(v: FatImage, m: nat, n: Node)
    requires Uniform(v, m)
  {
    && IsChain(v.fat1, n.ch)
    && |n.bytes| <= |n.ch| * m
    && Content(v, n.ch, m) == Patched(n.bytes, |n.ch| * m, 0, [])
  }

  /** The entry names the file's first cluster and size. */
  ghost predicate EntryNames(e: Slot32, n: Node) {
    |n.ch| > 0 && EntryCluster(e) == n.ch[0] && EntrySize(e) == |n.bytes|
  }

  /** No two files share a cluster, and none shares one with the directory. */
  ghost predicate Apart(fs: FileSys) {
    && (forall key :: key in fs.nodes ==> Disjoint(fs.dch, fs.nodes[key].ch))
    && (forall a, b :: a in fs.nodes && b in fs.nodes && a != b ==> Disjoint(fs.nodes[a].ch, fs.nodes[b].ch))
  }

  ghost predicate DirOk(v: FatImage, m: nat, root: nat, fs: FileSys)
    requires Uniform(v, m)
  {
    ChainFrom(v.fat1, fs.dch, root) && Represents(Slots(Content(v, fs.dch, m)), fs.dir)
  }

  /** Files are the plain entries. */
  ghost predicate Filed(fs: FileSys) {
    forall key :: key in fs.nodes <==> key in fs.dir && IsPlain(fs.dir[key])
  }

  /** The image `v` holds the file system `fs`; the entry of a file in `stale` may lag behind. */
  ghost predicate FsOk(v: FatImage, m: nat, root: nat, fs: FileSys, stale: set<Key>) {
    && Uniform(v, m) && ENTRY_SIZE <= m && m % ENTRY_SIZE == 0 && |v.fat1| <= FAT32_BAD
    && DirOk(v, m, root, fs) && Filed(fs) && Apart(fs)
    && (forall key :: key in fs.nodes ==> DataOk(v, m, fs.nodes[key]))
    && (forall key :: key in fs.nodes && key !in stale ==> EntryNames(fs.dir[key], fs.nodes[key]))
  }

  /** The clusters of `ch` look the same in both images. */
  ghost predicate SameOn(v0: FatImage, v1: FatImage, ch: seq<nat>) {
    && |v0.fat1| == |v1.fat1| && |v0.data| == |v1.data|
    && forall i :: 0 <= i < |ch| && ch[i] < |v0.fat1| && ch[i] < |v0.data| ==>
         v1.fat1[ch[i]] == v0.fat1[ch[i]] && v1.data[ch[i]] == v0.data[ch[i]]
  }

  lemma SameContent(v0: FatImage, v1: FatImage, m: nat, ch: seq<nat>)
    requires Uniform(v0, m) && Uniform(v1, m) && SameOn(v0, v1, ch) && IsChain(v0.fat1, ch)
    ensures IsChain(v1.fat1, ch) && Content(v1, ch, m) == Content(v0, ch, m)
  {
    ChainKept(v0.fat1, v1.fat1, ch);
    forall i | 0 <= i < |ch| * m ensures Content(v1, ch, m)[i] == Content(v0, ch, m)[i] {
      var q, r := Place(i, |ch|, m);
      ContentAt(v0, ch, m, q, r);
      ContentAt(v1, ch, m, q, r);
    }
  }

  /** A file none of whose clusters changed is still there. */
  lemma NodeKept(v0: FatImage, v1: FatImage, m: nat, n: Node)
    requires Uniform(v0, m) && Uniform(v1, m) && SameOn(v0, v1, n.ch) && DataOk(v0, m, n)
    ensures DataOk(v1, m, n)
  {
    SameContent(v0, v1, m, n.ch);
  }

  /** The directory reads as `slots`. */
  ghost predicate DirReads(v: FatImage, m: nat, dch: seq<nat>, slots: seq<Slot32>) {
    Uniform(v, m) && IsChain(v.fat1, dch) && Slots(Content(v, dch, m)) == slots
  }

  lemma DirReadsKept(v0: FatImage, v1: FatImage, ch0: seq<nat>, ch1: seq<nat>, m: nat, dch: seq<nat>, slots: seq<Slot32>)
    requires Grown(v0, v1, ch0, ch1, m) && DirReads(v0, m, dch, slots) && Disjoint(ch0, dch)
    ensures DirReads(v1, m, dch, slots)
  {
    GrownSame(v0, v1, ch0, ch1, m, dch);
    SameContent(v0, v1, m, dch);
  }

  lemma DirKept(v0: FatImage, v1: FatImage, m: nat, root: nat, fs: FileSys)
    requires Uniform(v0, m) && Uniform(v1, m) && SameOn(v0, v1, fs.dch) && DirOk(v0, m, root, fs)
    ensures DirOk(v1, m, root, fs)
  {
    SameContent(v0, v1, m, fs.dch);
  }

  /** A chain that shares nothing with a growing one does not notice. */
  lemma GrownSame(v0: FatImage, v1: FatImage, ch0: seq<nat>, ch1: seq<nat>, m: nat, other: seq<nat>)
    requires Grown(v0, v1, ch0, ch1, m) && IsChain(v0.fat1, other) && Disjoint(ch0, other)
    ensures SameOn(v0, v1, other) && Disjoint(ch1, other)
  {
    OtherChainUntouched(v0, v1, ch0, ch1, m, other);
    forall j | 0 <= j < |other| ensures other[j] !in ch1 {
    }
  }

  /** The bytes of a file after a write: cut nowhere, zero-filled up to the write, then patched. */
  function Overwritten(bytes: seq<Byte>, off: nat, piece: seq<Byte>): (r: seq<Byte>)
    ensures piece != [] && off + |piece| > |bytes| ==> |r| == off + |piece|
  {
    if piece == [] then bytes
    else Patched(bytes, if off + |piece| > |bytes| then off + |piece| else |bytes|, off, piece)
  }

  lemma PatchOfPatch(bytes: seq<Byte>, n0: nat, n1: nat, off: nat, piece: seq<Byte>)
    requires |bytes| <= n0 <= n1 && off + |piece| <= n1
    ensures Patched(Patched(bytes, n0, 0, []), n1, off, piece) == Patched(Overwritten(bytes, off, piece), n1, 0, [])
  {
  }

  /** The file `key` with new bytes and perhaps a longer chain. */
  function WithNode(fs: FileSys, key: Key, n: Node): FileSys { fs.(nodes := fs.nodes[key := n]) }

  /** One file replaced, everything else left as it was. */
  lemma NodeReplaced(v0: FatImage, v1: FatImage, m: nat, root: nat, fs: FileSys, key: Key, n: Node)
    requires FsOk(v0, m, root, fs, {}) && key in fs.nodes && Uniform(v1, m) && |v1.fat1| == |v0.fat1|
    requires SameOn(v0, v1, fs.dch) && Disjoint(fs.dch, n.ch) && DataOk(v1, m, n)
    requires forall other :: other in fs.nodes && other != key ==>
      SameOn(v0, v1, fs.nodes[other].ch) && Disjoint(fs.nodes[other].ch, n.ch)
    ensures FsOk(v1, m, root, WithNode(fs, key, n), {key})
  {
    hide Content, Patched, Represents, Slots, IsChain, Uniform, Disjoint, SameOn, IsPlain, EntryCluster, EntrySize;
    DirKept(v0, v1, m, root, fs);
    forall other | other in fs.nodes && other != key
      ensures DataOk(v1, m, fs.nodes[other]) && Disjoint(n.ch, fs.nodes[other].ch)
    {
      NodeKept(v0, v1, m, fs.nodes[other]);
      DisjointSymmetric(fs.nodes[other].ch, n.ch);
    }
  }

  /** Writing into one file's chain changes that file and no other, nor the directory. */
  lemma NodeRewritten(v0: FatImage, v1: FatImage, m: nat, root: nat, fs: FileSys, key: Key, ch1: seq<nat>, off: nat, piece: seq<Byte>)
    requires FsOk(v0, m, root, fs, {}) && key in fs.nodes
    requires Rewritten(v0, v1, fs.nodes[key].ch, ch1, m, off, piece) && off + |piece| <= |ch1| * m
    ensures FsOk(v1, m, root, WithNode(fs, key, Node(ch1, Overwritten(fs.nodes[key].bytes, off, piece))), {key})
    ensures Disjoint(fs.dch, ch1)
  {
    hide Content, Patched, Grown, Represents, IsChain, Slots, Uniform, NibblesKept, CopiesAgree, Overwritten,
         Disjoint, SameOn, IsPlain, EntryCluster, EntrySize;
    var ch0 := fs.nodes[key].ch;
    GrownUniform(v0, v1, ch0, ch1, m);
    DisjointSymmetric(fs.dch, ch0);
    GrownSame(v0, v1, ch0, ch1, m, fs.dch);
    DisjointSymmetric(ch1, fs.dch);
    NewData(v0, v1, m, fs.nodes[key], ch1, off, piece);
    forall other | other in fs.nodes && other != key
      ensures SameOn(v0, v1, fs.nodes[other].ch) && Disjoint(fs.nodes[other].ch, ch1)
    {
      GrownSame(v0, v1, ch0, ch1, m, fs.nodes[other].ch);
      DisjointSymmetric(ch1, fs.nodes[other].ch);
    }
    NodeReplaced(v0, v1, m, root, fs, key, Node(ch1, Overwritten(fs.nodes[key].bytes, off, piece)));
  }

  lemma NewData(v0: FatImage, v1: FatImage, m: nat, n: Node, ch1: seq<nat>, off: nat, piece: seq<Byte>)
    requires Uniform(v0, m) && Uniform(v1, m) && DataOk(v0, m, n)
    requires Rewritten(v0, v1, n.ch, ch1, m, off, piece) && off + |piece| <= |ch1| * m
    ensures DataOk(v1, m, Node(ch1, Overwritten(n.bytes, off, piece)))
  {
    hide Content, Uniform, NibblesKept, CopiesAgree;
    MulLe(|n.ch|, |ch1|, m);
    PatchOfPatch(n.bytes, |n.ch| * m, |ch1| * m, off, piece);
  }

  lemma GrownUniform(v0: FatImage, v1: FatImage, ch0: seq<nat>, ch1: seq<nat>, m: nat)
    requires Grown(v0, v1, ch0, ch1, m)
    ensures Uniform(v1, m) && |v1.fat1| == |v0.fat1| && ch0 <= ch1
  {
  }

  lemma DisjointSymmetric(a: seq<nat>, b: seq<nat>)
    requires Disjoint(a, b)
    ensures Disjoint(b, a)
  {
  }

  /** Rewriting the stale entry of a file to its new first cluster and size settles it. */
  lemma EntryStamped(v0: FatImage, v1: FatImage, m: nat, root: nat, fs: FileSys, key: Key,
                     slots: seq<Slot32>, k: nat, e: Slot32)
    requires FsOk(v0, m, root, fs, {key}) && key in fs.nodes
    requires Grown(v0, v1, fs.dch, fs.dch, m)
    requires k < |slots| && Live(slots[k]) && slots[k] == fs.dir[key] && KeyOf(slots[k]) == key
    requires DirReads(v0, m, fs.dch, slots) && DirReads(v1, m, fs.dch, slots[k := e])
    requires e[..12] == fs.dir[key][..12] && EntryNames(e, fs.nodes[key])
    ensures FsOk(v1, m, root, fs.(dir := fs.dir[key := e]), {})
  {
    hide Content, Patched, Represents, Slots, IsChain, Uniform, Disjoint;
    UpdateReplaces(slots, fs.dir, k, e);
    SameName(slots[k], e);
    SameKind(slots[k], e);
    GrownChain(v0, v1, fs.dch, fs.dch, m);
    forall other | other in fs.nodes ensures DataOk(v1, m, fs.nodes[other]) {
      GrownSame(v0, v1, fs.dch, fs.dch, m, fs.nodes[other].ch);
      NodeKept(v0, v1, m, fs.nodes[other]);
    }
  }

  lemma GrownChain(v0: FatImage, v1: FatImage, ch0: seq<nat>, ch1: seq<nat>, m: nat)
    requires Grown(v0, v1, ch0, ch1, m)
    ensures IsChain(v1.fat1, ch1) && Uniform(v1, m) && |v1.fat1| == |v0.fat1| && ch0 <= ch1 && Names(v1, ch1)
  {
  }

  lemma SameKind(a: Slot32, b: Slot32)
    requires a[..12] == b[..12]
    ensures IsPlain(a) <==> IsPlain(b)
  {
    assert a[11] == a[..12][11] && b[11] == b[..12][11];
  }

  /** A file that no entry names yet: its chain is apart from everything else. */
  ghost predicate Spare(v: FatImage, m: nat, fs: FileSys, n: Node) {
    && Uniform(v, m) && DataOk(v, m, n) && Disjoint(fs.dch, n.ch)
    && forall key :: key in fs.nodes ==> Disjoint(fs.nodes[key].ch, n.ch)
  }

  /** A zeroed free cluster taken leaves the file system as it is. */
  lemma SpareTaken(v: FatImage, m: nat, root: nat, fs: FileSys, c: nat)
    requires FsOk(v, m, root, fs, {}) && 2 <= c < |v.fat1| == |v.fat2| == |v.data| && Entry(v.fat1, c) == FAT32_FREE
    ensures FsOk(Taken(v, c, m), m, root, fs, {}) && Spare(Taken(v, c, m), m, fs, Node([c], []))
    ensures forall slots :: DirReads(v, m, fs.dch, slots) ==> DirReads(Taken(v, c, m), m, fs.dch, slots)
  {
    hide Content, Patched, Represents, Slots, Taken, IsChain;
    var v1 := Taken(v, c, m);
    TakenStarts(v, c, m);
    GrownChain(v, v1, [], [c], m);
    GrownSame(v, v1, [], [c], m, fs.dch);
    DisjointSymmetric([c], fs.dch);
    DirKept(v, v1, m, root, fs);
    ZerosAreEmpty(v1, m, c);
    forall slots | DirReads(v, m, fs.dch, slots) ensures DirReads(v1, m, fs.dch, slots) {
      DirReadsKept(v, v1, [], [c], m, fs.dch, slots);
    }
    forall key | key in fs.nodes ensures DataOk(v1, m, fs.nodes[key]) && Disjoint(fs.nodes[key].ch, [c]) {
      GrownSame(v, v1, [], [c], m, fs.nodes[key].ch);
      DisjointSymmetric([c], fs.nodes[key].ch);
      NodeKept(v, v1, m, fs.nodes[key]);
    }
  }

  lemma ZerosAreEmpty(v: FatImage, m: nat, c: nat)
    requires Uniform(v, m) && IsChain(v.fat1, [c]) && Content(v, [c], m) == ZeroBytes(m)
    ensures DataOk(v, m, Node([c], []))
  {
    assert 1 * m == m;
  }

  /** Writing the entry of a spare file into the directory, which may grow, files it. */
  lemma SpareFiled(v0: FatImage, v1: FatImage, m: nat, root: nat, fs: FileSys, n: Node, e: Slot32, dch1: seq<nat>, slots: seq<Slot32>)
    requires FsOk(v0, m, root, fs, {}) && Spare(v0, m, fs, n) && EntryNames(e, n)
    requires Live(e) && !IsLfn(e) && IsPlain(e) && KeyOf(e) !in fs.dir
    requires Grown(v0, v1, fs.dch, dch1, m)
    requires DirReads(v0, m, fs.dch, slots) && DirReads(v1, m, dch1, Inserted(slots, e, m))
    ensures FsOk(v1, m, root, FileSys(dch1, fs.dir[KeyOf(e) := e], fs.nodes[KeyOf(e) := n]), {})
  {
    hide Content, Patched, Represents, Slots, IsChain, Inserted, Uniform, Disjoint, Live, IsLfn, KeyOf, IsPlain,
         EntryCluster, EntrySize, Grown;
    GrownChain(v0, v1, fs.dch, dch1, m);
    ChainStarts(v0, fs.dch);
    InsertedRepresents(slots, fs.dir, e, m);
    GrownSame(v0, v1, fs.dch, dch1, m, n.ch);
    NodeKept(v0, v1, m, n);
    forall other | other in fs.nodes
      ensures DataOk(v1, m, fs.nodes[other]) && Disjoint(dch1, fs.nodes[other].ch) && Disjoint(n.ch, fs.nodes[other].ch)
    {
      GrownSame(v0, v1, fs.dch, dch1, m, fs.nodes[other].ch);
      NodeKept(v0, v1, m, fs.nodes[other]);
      DisjointSymmetric(fs.nodes[other].ch, n.ch);
    }
  }

  lemma ChainInRange(v: FatImage, ch: seq<nat>)
    requires IsChain(v.fat1, ch)
    ensures forall i :: 0 <= i < |ch| ==> ch[i] < |v.fat1|
  {
  }

  lemma ChainStarts(v: FatImage, ch: seq<nat>)
    requires IsChain(v.fat1, ch)
    ensures |ch| > 0
  {
  }

  /** vfs_open with truncation, on the image: a free cluster taken, the old chain freed, the new
      cluster zeroed. */
  function Truncated(v: FatImage, m: nat, c: nat, was: seq<nat>): FatImage
    requires |v.fat1| == |v.fat2| == |v.data| && c < |v.fat1| && forall i :: 0 <= i < |was| ==> was[i] < |v.fat1|
  {
    FreeAll(SetEntry(v, c, FAT32_EOC), was).(data := v.data[c := ZeroBytes(m)])
  }

  lemma TruncatedSame(v: FatImage, m: nat, c: nat, was: seq<nat>, other: seq<nat>)
    requires Uniform(v, m) && 2 <= c < |v.fat1| && Entry(v.fat1, c) == FAT32_FREE
    requires IsChain(v.fat1, was) && IsChain(v.fat1, other) && Disjoint(was, other)
    ensures SameOn(v, Truncated(v, m, c, was), other) && Disjoint(other, [c])
  {
    FreeNotInChain(v.fat1, other, c);
    forall i | 0 <= i < |other| ensures other[i] !in was {
    }
  }

  lemma TruncatedStarts(v: FatImage, m: nat, c: nat, was: seq<nat>)
    requires Uniform(v, m) && 2 <= c < |v.fat1| <= FAT32_BAD && Entry(v.fat1, c) == FAT32_FREE && IsChain(v.fat1, was)
    ensures var v1 := Truncated(v, m, c, was); Uniform(v1, m) && DataOk(v1, m, Node([c], []))
  {
    hide Content;
    var v1 := Truncated(v, m, c, was);
    FreeNotInChain(v.fat1, was, c);
    forall i | 0 <= i < 1 * m ensures Content(v1, [c], m)[i] == ZeroBytes(m)[i] {
      ContentAt(v1, [c], m, 0, i);
    }
    ZerosAreEmpty(v1, m, c);
  }

  /** The truncated file is empty; every other file and the directory are as before. */
  lemma NodeTruncated(v: FatImage, m: nat, root: nat, fs: FileSys, key: Key, c: nat)
    requires FsOk(v, m, root, fs, {}) && key in fs.nodes && |v.fat1| == |v.fat2| == |v.data|
    requires 2 <= c < |v.fat1| && Entry(v.fat1, c) == FAT32_FREE && IsChain(v.fat1, fs.nodes[key].ch)
    ensures FsOk(Truncated(v, m, c, fs.nodes[key].ch), m, root, WithNode(fs, key, Node([c], [])), {key})
    ensures forall slots :: DirReads(v, m, fs.dch, slots) ==> DirReads(Truncated(v, m, c, fs.nodes[key].ch), m, fs.dch, slots)
    ensures c !in fs.dch
  {
    hide Content, Patched, Represents, Slots, Truncated, IsChain, Uniform, Disjoint, SameOn, IsPlain,
         EntryCluster, EntrySize;
    var was := fs.nodes[key].ch;
    ChainInRange(v, was);
    var v1 := Truncated(v, m, c, was);
    TruncatedStarts(v, m, c, was);
    TruncatedSize(v, m, c, was);
    DisjointSymmetric(fs.dch, was);
    TruncatedSame(v, m, c, was, fs.dch);
    NotIn(fs.dch, c);
    forall slots | DirReads(v, m, fs.dch, slots) ensures DirReads(v1, m, fs.dch, slots) {
      SameContent(v, v1, m, fs.dch);
    }
    forall other | other in fs.nodes && other != key
      ensures SameOn(v, v1, fs.nodes[other].ch) && Disjoint(fs.nodes[other].ch, [c])
    {
      TruncatedSame(v, m, c, was, fs.nodes[other].ch);
    }
    NodeReplaced(v, v1, m, root, fs, key, Node([c], []));
  }

  lemma NotIn(ch: seq<nat>, c: nat)
    requires Disjoint(ch, [c])
    ensures c !in ch
  {
    forall i | 0 <= i < |ch| ensures ch[i] != c {
      assert [c][0] == c;
    }
  }

  lemma TruncatedSize(v: FatImage, m: nat, c: nat, was: seq<nat>)
    requires Uniform(v, m) && c < |v.fat1| && IsChain(v.fat1, was)
    ensures |Truncated(v, m, c, was).fat1| == |v.fat1|
  {
  }

  /** vfs_delete: the file's chain freed, then its entry marked. */
  lemma NodeRemoved(v0: FatImage, v1: FatImage, m: nat, root: nat, fs: FileSys, key: Key, slots: seq<Slot32>)
    requires FsOk(v0, m, root, fs, {}) && key in fs.nodes && |v0.fat1| == |v0.fat2|
    requires IsChain(v0.fat1, fs.nodes[key].ch)
    requires DirReads(v0, m, fs.dch, slots)
    requires Grown(FreeAll(v0, fs.nodes[key].ch), v1, fs.dch, fs.dch, m)
    requires DirReads(v1, m, fs.dch, Erased(slots, key))
    ensures FsOk(v1, m, root, FileSys(fs.dch, fs.dir - {key}, fs.nodes - {key}), {})
  {
    hide Content, Patched, Represents, Slots, IsChain, Uniform, Disjoint, FreeAll, Erased, IsPlain,
         EntryCluster, EntrySize, Grown;
    var ch := fs.nodes[key].ch;
    ChainInRange(v0, ch);
    var mid := FreeAll(v0, ch);
    FreedUniform(v0, m, ch);
    GrownChain(mid, v1, fs.dch, fs.dch, m);
    ErasedRepresents(slots, fs.dir, key);
    forall other | other in fs.nodes && other != key ensures DataOk(v1, m, fs.nodes[other]) {
      FreedSame(v0, ch, fs.nodes[other].ch);
      NodeKept(v0, mid, m, fs.nodes[other]);
      GrownSame(mid, v1, fs.dch, fs.dch, m, fs.nodes[other].ch);
      NodeKept(mid, v1, m, fs.nodes[other]);
    }
  }

  lemma FreedUniform(v: FatImage, m: nat, ch: seq<nat>)
    requires Uniform(v, m) && IsChain(v.fat1, ch)
    ensures Uniform(FreeAll(v, ch), m) && |FreeAll(v, ch).fat1| == |v.fat1|
  {
  }

  lemma FreedSame(v: FatImage, ch: seq<nat>, other: seq<nat>)
    requires |v.fat1| == |v.fat2| && IsChain(v.fat1, ch) && Disjoint(ch, other)
    ensures SameOn(v, FreeAll(v, ch), other)
  {
    forall i | 0 <= i < |other| ensures other[i] !in ch {
    }
  }

  lemma ErasedRepresents(slots: seq<Slot32>, dir: map<Key, Slot32>, key: Key)
    requires Represents(slots, dir)
    ensures Represents(Erased(slots, key), dir - {key})
  {
    DoRepresents(slots, dir, Delete(key), ENTRY_SIZE);
  }
}
