/** How the links of a FAT run: none dangles, no two lead to one cluster, and none leads to the head of
    a file or of the directory. Every operation on files keeps that, freeing whole chains included. */
module Threading {
  import opened Blocks
  import opened FatTable
  import opened Chains
  import opened FileBytes
  import opened WriteOrder
  import opened DirSlots
  import opened FileSystem

  predicate IsLink(f: seq<Word>, c: nat) { 2 <= c < |f| && 2 <= Entry(f, c) < |f| }

  /** No two links lead to the same cluster. */
  ghost predicate OneWay(f: seq<Word>) {
    forall a, b :: IsLink(f, a) && IsLink(f, b) && Entry(f, a) == Entry(f, b) ==> a == b
  }

  /** No link leads to `h`. */
  ghost predicate IsHead(f: seq<Word>, h: nat) {
    forall c :: IsLink(f, c) ==> Entry(f, c) != h
  }

  /** The links are sound, and none leads to one of the clusters `hs`. */
  ghost predicate Threaded(f: seq<Word>, hs: set<nat>) {
    NoDangling(f) && OneWay(f) && forall h :: h in hs ==> IsHead(f, h)
  }

  /** Where the chains of a file system begin. */
  ghost function Heads(fs: FileSys): set<nat> {
    (if fs.dch == [] then {} else {fs.dch[0]}) + set key | key in fs.nodes && fs.nodes[key].ch != [] :: fs.nodes[key].ch[0]
  }

  /** No link leads to a free cluster. */
  lemma FreeIsHead(f: seq<Word>, c: nat)
    requires NoDangling(f) && 2 <= c < |f| && Entry(f, c) == FAT32_FREE
    ensures IsHead(f, c)
  {
    forall x | IsLink(f, x) ensures Entry(f, x) != c {
      assert LinkHeld(f, x);
    }
  }

  /** Links that are only removed stay sound, if none that stays leads to a cluster freed. */
  ghost predicate Thinned(f0: seq<Word>, f1: seq<Word>) {
    |f0| == |f1| && forall c :: IsLink(f1, c) ==> Entry(f1, c) == Entry(f0, c)
  }

  lemma ThinnedKeeps(f0: seq<Word>, f1: seq<Word>)
    requires Thinned(f0, f1) && OneWay(f0)
    ensures OneWay(f1) && forall h :: IsHead(f0, h) ==> IsHead(f1, h)
  {
  }

  /** A free cluster marked end-of-chain. */
  lemma TakeThreads(v: FatImage, c: nat)
    requires |v.fat1| == |v.fat2| <= FAT32_BAD && 2 <= c < |v.fat1| && Entry(v.fat1, c) == FAT32_FREE
    requires NoDangling(v.fat1) && OneWay(v.fat1)
    ensures var f := SetEntry(v, c, FAT32_EOC).fat1;
      NoDangling(f) && OneWay(f) && IsHead(f, c) && forall h :: IsHead(v.fat1, h) ==> IsHead(f, h)
  {
    var f := SetEntry(v, c, FAT32_EOC).fat1;
    TakeKeepsLinks(v, c);
    FreeIsHead(v.fat1, c);
    assert Thinned(v.fat1, f);
    ThinnedKeeps(v.fat1, f);
  }

  /** Nothing leads into a chain but its own links: each is the only one to its cluster, and none leads
      to the head. */
  lemma NotFromOutside(f: seq<Word>, ch: seq<nat>, c: nat, i: nat)
    requires IsChain(f, ch) && OneWay(f) && IsHead(f, ch[0]) && IsLink(f, c) && i < |ch|
    requires i > 0 ==> c != ch[i - 1]
    ensures Entry(f, c) != ch[i]
  {
    if i > 0 {
      assert Entry(f, ch[i - 1]) == ch[i] && IsLink(f, ch[i - 1]);
    }
  }

  /** Freeing a chain from its head, all of it or the part that a misread leaves, makes no link dangle:
      what led into the part freed was in it. */
  lemma FreeThreads(v: FatImage, ch: seq<nat>, k: nat)
    requires |v.fat1| == |v.fat2| && IsChain(v.fat1, ch) && k <= |ch|
    requires NoDangling(v.fat1) && OneWay(v.fat1) && IsHead(v.fat1, ch[0])
    ensures var f := FreeAll(v, ch[..k]).fat1;
      NoDangling(f) && OneWay(f) && forall h :: IsHead(v.fat1, h) ==> IsHead(f, h)
  {
    hide FreeAll;
    var f := FreeAll(v, ch[..k]).fat1;
    FreedThins(v, ch[..k]);
    ThinnedKeeps(v.fat1, f);
    forall c | 2 <= c < |f| ensures LinkHeld(f, c) {
      if IsLink(f, c) {
        assert LinkHeld(v.fat1, c);
        forall i | 0 <= i < k ensures ch[i] != Entry(v.fat1, c) {
          assert i > 0 ==> ch[i - 1] in ch[..k];
          NotFromOutside(v.fat1, ch, c, i);
        }
        assert Entry(v.fat1, c) !in ch[..k];
      }
    }
  }

  lemma FreedThins(v: FatImage, cs: seq<nat>)
    requires |v.fat1| == |v.fat2| && forall i :: 0 <= i < |cs| ==> cs[i] < |v.fat1|
    ensures Thinned(v.fat1, FreeAll(v, cs).fat1)
  {
  }

  /** A chain that grew into free clusters. */
  lemma GrownThreads(v0: FatImage, v1: FatImage, ch0: seq<nat>, ch1: seq<nat>, m: nat)
    requires |v0.fat1| <= FAT32_BAD && Grown(v0, v1, ch0, ch1, m) && (ch0 == [] || (IsChain(v0.fat1, ch0) && IsHead(v0.fat1, ch0[0])))
    requires NoDangling(v0.fat1) && OneWay(v0.fat1)
    ensures NoDangling(v1.fat1) && OneWay(v1.fat1) && IsHead(v1.fat1, ch1[0])
    ensures forall h: nat :: h < |v0.fat1| && h !in ch1 && IsHead(v0.fat1, h) ==> IsHead(v1.fat1, h)
  {
    hide FreeCount;
    var f0, f1 := v0.fat1, v1.fat1;
    forall c | IsLink(f1, c) ensures Comes(f0, f1, ch1, c) {
      GrownLink(v0, v1, ch0, ch1, m, c);
    }
    forall c | 2 <= c < |f1| ensures LinkHeld(f1, c) {
      if IsLink(f1, c) {
        assert Comes(f0, f1, ch1, c);
        GrownTarget(v0, v1, ch0, ch1, m, c);
      }
    }
    forall a, b | IsLink(f1, a) && IsLink(f1, b) && Entry(f1, a) == Entry(f1, b) ensures a == b {
      GrownOneWay(v0, v1, ch0, ch1, m, a, b);
    }
    forall c | IsLink(f1, c) ensures Entry(f1, c) != ch1[0] {
      GrownHead(v0, v1, ch0, ch1, m, c);
    }
    forall h: nat, c: nat | h < |f0| && h !in ch1 && IsHead(f0, h) && IsLink(f1, c) ensures Entry(f1, c) != h {
      assert Comes(f0, f1, ch1, c);
    }
  }

  /** A link of the grown FAT: an old one from outside the chain, or one of the chain's own. */
  ghost predicate Comes(f0: seq<Word>, f1: seq<Word>, ch1: seq<nat>, c: nat) {
    && c < |f0| == |f1|
    && if c in ch1 then exists i: nat :: InChain(f1, ch1, c, i) else IsLink(f0, c) && Entry(f0, c) == Entry(f1, c)
  }

  ghost predicate InChain(f1: seq<Word>, ch1: seq<nat>, c: nat, i: nat) {
    i + 1 < |ch1| && c < |f1| && ch1[i] == c && Entry(f1, c) == ch1[i + 1]
  }

  lemma GrownLink(v0: FatImage, v1: FatImage, ch0: seq<nat>, ch1: seq<nat>, m: nat, c: nat)
    requires |v0.fat1| <= FAT32_BAD && Grown(v0, v1, ch0, ch1, m) && IsLink(v1.fat1, c)
    ensures Comes(v0.fat1, v1.fat1, ch1, c)
  {
    if c in ch1 {
      var i :| 0 <= i < |ch1| && ch1[i] == c;
      ChainStep(v1.fat1, ch1, i);
      assert InChain(v1.fat1, ch1, c, i);
    }
  }

  lemma GrownTarget(v0: FatImage, v1: FatImage, ch0: seq<nat>, ch1: seq<nat>, m: nat, c: nat)
    requires |v0.fat1| <= FAT32_BAD && Grown(v0, v1, ch0, ch1, m) && IsLink(v1.fat1, c) && Comes(v0.fat1, v1.fat1, ch1, c) && NoDangling(v0.fat1)
    ensures Entry(v1.fat1, Entry(v1.fat1, c)) != FAT32_FREE
  {
    var x := Entry(v1.fat1, c);
    if c in ch1 {
      var i: nat :| InChain(v1.fat1, ch1, c, i);
      ChainIsLive(v1.fat1, ch1, i + 1);
    } else if x in ch1 {
      var i :| 0 <= i < |ch1| && ch1[i] == x;
      ChainIsLive(v1.fat1, ch1, i);
    } else {
      assert LinkHeld(v0.fat1, c);
    }
  }

  /** From outside, no old link leads into the grown chain. */
  lemma NotInto(v0: FatImage, v1: FatImage, ch0: seq<nat>, ch1: seq<nat>, m: nat, c: nat, i: nat)
    requires |v0.fat1| <= FAT32_BAD && Grown(v0, v1, ch0, ch1, m) && (ch0 == [] || (IsChain(v0.fat1, ch0) && IsHead(v0.fat1, ch0[0])))
    requires NoDangling(v0.fat1) && OneWay(v0.fat1) && IsLink(v0.fat1, c) && c !in ch1 && i < |ch1|
    ensures Entry(v0.fat1, c) != ch1[i]
  {
    if i < |ch0| {
      NotFromOutside(v0.fat1, ch0, c, i);
    } else {
      FreeIsHead(v0.fat1, ch1[i]);
    }
  }

  lemma GrownOneWay(v0: FatImage, v1: FatImage, ch0: seq<nat>, ch1: seq<nat>, m: nat, a: nat, b: nat)
    requires |v0.fat1| <= FAT32_BAD && Grown(v0, v1, ch0, ch1, m) && (ch0 == [] || (IsChain(v0.fat1, ch0) && IsHead(v0.fat1, ch0[0])))
    requires NoDangling(v0.fat1) && OneWay(v0.fat1)
    requires IsLink(v1.fat1, a) && IsLink(v1.fat1, b) && Entry(v1.fat1, a) == Entry(v1.fat1, b)
    ensures a == b
  {
    GrownLink(v0, v1, ch0, ch1, m, a);
    GrownLink(v0, v1, ch0, ch1, m, b);
    if a in ch1 && b in ch1 {
      var i: nat :| InChain(v1.fat1, ch1, a, i);
      var j: nat :| InChain(v1.fat1, ch1, b, j);
      Distinct(v1.fat1, ch1, i + 1, j + 1);
    } else if a in ch1 {
      var i: nat :| InChain(v1.fat1, ch1, a, i);
      NotInto(v0, v1, ch0, ch1, m, b, i + 1);
    } else if b in ch1 {
      var j: nat :| InChain(v1.fat1, ch1, b, j);
      NotInto(v0, v1, ch0, ch1, m, a, j + 1);
    }
  }

  lemma Distinct(f: seq<Word>, ch: seq<nat>, i: nat, j: nat)
    requires IsChain(f, ch) && i < |ch| && j < |ch| && ch[i] == ch[j]
    ensures i == j
  {
  }

  lemma Different(f: seq<Word>, ch: seq<nat>, i: nat, j: nat)
    requires IsChain(f, ch) && i < |ch| && j < |ch| && i != j
    ensures ch[i] != ch[j]
  {
  }

  lemma GrownHead(v0: FatImage, v1: FatImage, ch0: seq<nat>, ch1: seq<nat>, m: nat, c: nat)
    requires |v0.fat1| <= FAT32_BAD && Grown(v0, v1, ch0, ch1, m) && (ch0 == [] || (IsChain(v0.fat1, ch0) && IsHead(v0.fat1, ch0[0])))
    requires NoDangling(v0.fat1) && OneWay(v0.fat1) && IsLink(v1.fat1, c)
    ensures Entry(v1.fat1, c) != ch1[0]
  {
    GrownLink(v0, v1, ch0, ch1, m, c);
    if c in ch1 {
      var i: nat :| InChain(v1.fat1, ch1, c, i);
      Different(v1.fat1, ch1, i + 1, 0);
    } else {
      NotInto(v0, v1, ch0, ch1, m, c, 0);
    }
  }

  /** A chain of the file system grew: the heads are heads still. */
  lemma GrownHeads(v0: FatImage, v1: FatImage, ch0: seq<nat>, ch1: seq<nat>, m: nat, hs: set<nat>)
    requires |v0.fat1| <= FAT32_BAD && Grown(v0, v1, ch0, ch1, m) && IsChain(v0.fat1, ch0)
    requires Threaded(v0.fat1, hs) && ch0[0] in hs
    requires forall h :: h in hs && h != ch0[0] ==> h < |v0.fat1| && Entry(v0.fat1, h) != FAT32_FREE && h !in ch0
    ensures Threaded(v1.fat1, hs)
  {
    hide FreeCount, NoDangling, OneWay, IsHead;
    GrownThreads(v0, v1, ch0, ch1, m);
    forall h | h in hs ensures IsHead(v1.fat1, h) {
      if h != ch0[0] {
        assert h !in ch1;
      }
    }
  }

  lemma ChainsBegin(v: FatImage, m: nat, root: nat, fs: FileSys, stale: set<Key>)
    requires FsOk(v, m, root, fs, stale)
    ensures Apart(fs) && fs.dch != [] && IsChain(v.fat1, fs.dch)
    ensures forall key :: key in fs.nodes ==> fs.nodes[key].ch != [] && IsChain(v.fat1, fs.nodes[key].ch)
  {
    hide Represents, Content, Slots, Patched, EntryNames;
  }

  /** The heads of the other chains lie outside a chain, and are in use. */
  lemma OtherHeads(v: FatImage, m: nat, root: nat, fs: FileSys, stale: set<Key>, h: nat)
    requires FsOk(v, m, root, fs, stale) && h in Heads(fs)
    ensures 2 <= h < |v.fat1| && Entry(v.fat1, h) != FAT32_FREE
    ensures fs.dch != [] && (h != fs.dch[0] ==> h !in fs.dch)
    ensures forall key :: key in fs.nodes ==> fs.nodes[key].ch != [] && (h != fs.nodes[key].ch[0] ==> h !in fs.nodes[key].ch)
  {
    hide FsOk, IsChain;
    ChainsBegin(v, m, root, fs, stale);
    if h == fs.dch[0] {
      HeadInUse(v.fat1, fs.dch);
      assert h in fs.dch;
    } else {
      var key :| key in fs.nodes && fs.nodes[key].ch != [] && fs.nodes[key].ch[0] == h;
      HeadInUse(v.fat1, fs.nodes[key].ch);
      assert h in fs.nodes[key].ch;
    }
  }

  lemma HeadInUse(f: seq<Word>, ch: seq<nat>)
    requires IsChain(f, ch)
    ensures ch != [] && 2 <= ch[0] < |f| && Entry(f, ch[0]) != FAT32_FREE
  {
    ChainIsLive(f, ch, 0);
  }

  lemma FileGrown(v0: FatImage, v1: FatImage, m: nat, root: nat, fs: FileSys, stale: set<Key>, key: Key, ch1: seq<nat>)
    requires FsOk(v0, m, root, fs, stale) && key in fs.nodes && Threaded(v0.fat1, Heads(fs))
    requires Grown(v0, v1, fs.nodes[key].ch, ch1, m)
    ensures Threaded(v1.fat1, Heads(fs))
  {
    hide Represents, Content, Slots, Patched, Grown, Threaded, IsChain, EntryNames;
    var ch0 := fs.nodes[key].ch;
    ChainsBegin(v0, m, root, fs, stale);
    OtherHeads(v0, m, root, fs, stale, ch0[0]);
    forall h | h in Heads(fs) && h != ch0[0] ensures h < |v0.fat1| && Entry(v0.fat1, h) != FAT32_FREE && h !in ch0 {
      OtherHeads(v0, m, root, fs, stale, h);
    }
    GrownHeads(v0, v1, ch0, ch1, m, Heads(fs));
  }

  /** The directory grew, beside its files and a spare cluster `c` that is about to be filed. */
  lemma DirGrown(v0: FatImage, v1: FatImage, m: nat, root: nat, fs: FileSys, stale: set<Key>, dch1: seq<nat>, spare: set<nat>)
    requires FsOk(v0, m, root, fs, stale) && Threaded(v0.fat1, Heads(fs) + spare) && Grown(v0, v1, fs.dch, dch1, m)
    requires forall c :: c in spare ==> 2 <= c < |v0.fat1| && Entry(v0.fat1, c) != FAT32_FREE && c !in fs.dch
    ensures Threaded(v1.fat1, Heads(fs) + spare)
  {
    hide Represents, Content, Slots, Patched, Grown, Threaded, IsChain, EntryNames;
    ChainsBegin(v0, m, root, fs, stale);
    OtherHeads(v0, m, root, fs, stale, fs.dch[0]);
    forall h | h in Heads(fs) && h != fs.dch[0] ensures h < |v0.fat1| && Entry(v0.fat1, h) != FAT32_FREE && h !in fs.dch {
      OtherHeads(v0, m, root, fs, stale, h);
    }
    GrownHeads(v0, v1, fs.dch, dch1, m, Heads(fs) + spare);
  }
}
