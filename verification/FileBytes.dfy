/** The byte sequence a cluster chain stands for, and how chain writes change it. */
module FileBytes {
  import opened Arithmetic
  import opened Blocks
  import opened FatTable
  import opened Chains

  /** Which cluster of a chain holds byte `x`, and where in it. */
  function Index(m: nat, x: nat): nat
    requires m > 0
  {
    x / m
  }

  function Offset(m: nat, x: nat): nat
    requires m > 0
  {
    x % m
  }

  predicate IsPlace(m: nat, idx: nat, at: nat, x: nat) {
    x == idx * m + at && at < m
  }

  lemma IndexOffset(m: nat, x: nat)
    requires m > 0
    ensures IsPlace(m, Index(m, x), Offset(m, x), x) && Offset(m, x) < m
  {
    Locate(x, m);
  }

  lemma IndexMonotone(m: nat, a: nat, b: nat)
    requires m > 0 && a <= b
    ensures Index(m, a) <= Index(m, b)
  {
    Locate(a, m);
    Locate(b, m);
    if b / m < a / m {
      MulAddOne(b / m, m);
      MulLe(b / m + 1, a / m, m);
    }
  }

  /** Bytes from `x` to the next cluster border, but no more than `left`. */
  function ChunkSize(m: nat, x: nat, left: nat): nat
    requires m > 0
  {
    if m - Offset(m, x) > left then left else m - Offset(m, x)
  }

  /** A chunk ends at the next cluster border or at the last byte `e`. */
  lemma NextIndex(m: nat, x: nat, e: nat, chunk: nat)
    requires m > 0 && x <= e
    requires chunk == ChunkSize(m, x, e + 1 - x)
    ensures 0 < chunk
    ensures if x + chunk <= e then Index(m, x + chunk) == Index(m, x) + 1 <= Index(m, e) else Index(m, x) == Index(m, e)
  {
    hide Index, Offset;
    var q, r := Index(m, x), Offset(m, x);
    IndexOffset(m, x);
    if x + chunk <= e {
      MulAddOne(q, m);
      IndexUnique(m, q + 1, 0);
      IndexMonotone(m, x + chunk, e);
    } else {
      IndexUnique(m, q, r + chunk - 1);
    }
  }

  lemma IndexUnique(m: nat, q: nat, r: nat)
    requires r < m
    ensures Index(m, q * m + r) == q && Offset(m, q * m + r) == r
  {
    DivUnique(q, r, m);
  }

  /** Every cluster of the volume has `m` bytes. */
  ghost predicate Uniform(v: FatImage, m: nat) {
    && m > 0
    && |v.data| == |v.fat1| == |v.fat2|
    && forall c :: 2 <= c < |v.data| ==> |v.data[c]| == m
  }

  ghost predicate Names(v: FatImage, ch: seq<nat>) {
    forall i :: 0 <= i < |ch| ==> 2 <= ch[i] < |v.data|
  }

  /** The bytes of the clusters `ch`, one cluster after the other. */
  ghost function Content(v: FatImage, ch: seq<nat>, m: nat): (b: seq<Byte>)
    requires Uniform(v, m) && Names(v, ch)
    ensures |b| == |ch| * m
  {
    seq(|ch| * m, i requires 0 <= i < |ch| * m => InCluster(i, |ch|, m); v.data[ch[i / m]][i % m])
  }

  /** Byte `r` of the q-th cluster. */
  lemma ContentAt(v: FatImage, ch: seq<nat>, m: nat, q: nat, r: nat)
    requires Uniform(v, m) && Names(v, ch) && q < |ch| && r < m
    ensures q * m + r < |ch| * m && Content(v, ch, m)[q * m + r] == v.data[ch[q]][r]
  {
    MulLe(q + 1, |ch|, m);
    MulAddOne(q, m);
    DivUnique(q, r, m);
  }

  /** A place in a run of `n` clusters, as cluster index and offset. */
  lemma Place(i: nat, n: nat, m: nat) returns (q: nat, r: nat)
    requires m > 0 && i < n * m
    ensures q < n && r < m && i == q * m + r
  {
    q, r := i / m, i % m;
    Locate(i, m);
    InCluster(i, n, m);
  }

  /** `base` cut or zero-extended to `n` bytes, with `piece` laid over it at `off`. */
  function Patched(base: seq<Byte>, n: nat, off: nat, piece: seq<Byte>): (b: seq<Byte>)
    ensures |b| == n
  {
    seq(n, i requires 0 <= i < n =>
      if off <= i < off + |piece| then piece[i - off] else if i < |base| then base[i] else 0)
  }

  /** The patched bytes in words: the old contents, then zeros, with one slice replaced. */
  lemma PatchedReads(base: seq<Byte>, n: nat, off: nat, piece: seq<Byte>)
    requires |base| <= n && off + |piece| <= n
    ensures var b := Patched(base, n, off, piece);
      && b[off..off + |piece|] == piece
      && (off <= |base| ==> b[..off] == base[..off])
      && (off + |piece| <= |base| ==> b[off + |piece|..|base|] == base[off + |piece|..])
      && (forall i :: |base| <= i < n && !(off <= i < off + |piece|) ==> b[i] == 0)
  {
  }

  /** A chain grew from `ch0` to `ch1`: it took free clusters only, and nothing outside it moved. */
  ghost predicate Grown(v0: FatImage, v1: FatImage, ch0: seq<nat>, ch1: seq<nat>, m: nat) {
    && Uniform(v0, m) && Uniform(v1, m) && |v1.fat1| == |v0.fat1|
    && ch0 <= ch1 && IsChain(v1.fat1, ch1)
    && (forall i :: |ch0| <= i < |ch1| ==> Entry(v0.fat1, ch1[i]) == FAT32_FREE)
    && (forall c :: 0 <= c < |v0.fat1| && c !in ch1 ==>
          v1.fat1[c] == v0.fat1[c] && v1.fat2[c] == v0.fat2[c] && v1.data[c] == v0.data[c])
    && FreeCount(v1.fat1) + |ch1| == FreeCount(v0.fat1) + |ch0|
  }

  /** The low 28 bits of both FAT copies agree. */
  ghost predicate CopiesAgree(v: FatImage) {
    |v.fat1| == |v.fat2| && forall c :: 0 <= c < |v.fat1| ==> Low28(v.fat1[c]) == Low28(v.fat2[c])
  }

  /** Each copy keeps the reserved nibble of each entry. */
  ghost predicate NibblesKept(v0: FatImage, v1: FatImage) {
    && |v0.fat1| == |v1.fat1| && |v0.fat2| == |v1.fat2|
    && (forall c :: 0 <= c < |v0.fat1| ==> v1.fat1[c] / ENTRY_RANGE == v0.fat1[c] / ENTRY_RANGE)
    && (forall c :: 0 <= c < |v0.fat2| ==> v1.fat2[c] / ENTRY_RANGE == v0.fat2[c] / ENTRY_RANGE)
  }

  /** Freeing keeps the reserved nibbles of both copies and their agreement. */
  lemma {:induction false} FreeAllKeeps(v: FatImage, cs: seq<nat>)
    requires |v.fat1| == |v.fat2| && forall i :: 0 <= i < |cs| ==> cs[i] < |v.fat1|
    ensures NibblesKept(v, FreeAll(v, cs)) && (CopiesAgree(v) ==> CopiesAgree(FreeAll(v, cs)))
    decreases |cs|
  {
    if cs != [] {
      var init := cs[..|cs| - 1];
      assert cs == init + [cs[|cs| - 1]];
      FreeAllKeeps(v, init);
    }
  }

  /** A stranger's chain neither moves nor changes a byte when another chain grows. */
  lemma OtherChainUntouched(v0: FatImage, v1: FatImage, ch0: seq<nat>, ch1: seq<nat>, m: nat, other: seq<nat>)
    requires Grown(v0, v1, ch0, ch1, m)
    requires IsChain(v0.fat1, other) && Disjoint(ch0, other)
    ensures IsChain(v1.fat1, other) && Disjoint(ch1, other)
    ensures Content(v1, other, m) == Content(v0, other, m)
  {
    forall i, j | 0 <= i < |ch1| && 0 <= j < |other| ensures ch1[i] != other[j] {
      if i < |ch0| {
        assert ch1[i] == ch0[i];
      } else {
        ChainIsLive(v0.fat1, other, j);
      }
    }
    forall j | 0 <= j < |other| ensures other[j] !in ch1 {
    }
    ChainKept(v0.fat1, v1.fat1, other);
    forall i | 0 <= i < |other| * m ensures Content(v1, other, m)[i] == Content(v0, other, m)[i] {
      var q, r := Place(i, |other|, m);
      ContentAt(v0, other, m, q, r);
      ContentAt(v1, other, m, q, r);
    }
  }

  lemma GrownTransitive(v0: FatImage, v1: FatImage, v2: FatImage,
                        ch0: seq<nat>, ch1: seq<nat>, ch2: seq<nat>, m: nat)
    requires Grown(v0, v1, ch0, ch1, m) && Grown(v1, v2, ch1, ch2, m)
    ensures Grown(v0, v2, ch0, ch2, m)
  {
    forall i | |ch0| <= i < |ch2| ensures Entry(v0.fat1, ch2[i]) == FAT32_FREE {
      if i < |ch1| {
        assert ch2[i] == ch1[i];
      } else {
        assert ch2[i] !in ch1 by {
          assert forall j :: 0 <= j < |ch1| ==> ch1[j] == ch2[j];
        }
      }
    }
    forall c | c !in ch2 ensures c !in ch1 {
    }
  }

  function ZeroBytes(m: nat): (z: seq<Byte>)
    ensures |z| == m && forall i :: 0 <= i < m ==> z[i] == 0
  {
    seq(m, _ => 0)
  }

  /** `added` taken as a zeroed end-of-chain cluster. */
  function Taken(v: FatImage, added: nat, m: nat): (r: FatImage)
    requires added < |v.fat1| == |v.fat2| == |v.data|
  {
    SetEntry(v, added, FAT32_EOC).(data := v.data[added := ZeroBytes(m)])
  }

  /** `added` taken, then linked behind `cur`. */
  function Linked(v: FatImage, cur: nat, added: nat, m: nat): (r: FatImage)
    requires cur < |v.fat1| && added < |v.fat1| == |v.fat2| == |v.data|
  {
    SetEntry(Taken(v, added, m), cur, added)
  }

  /** A zeroed free cluster taken as a chain of its own. */
  lemma TakenStarts(v0: FatImage, added: nat, m: nat)
    requires Uniform(v0, m) && 2 <= added < |v0.fat1| && Entry(v0.fat1, added) == FAT32_FREE
    ensures var v1 := Taken(v0, added, m);
      && Grown(v0, v1, [], [added], m) && NibblesKept(v0, v1) && (CopiesAgree(v0) ==> CopiesAgree(v1))
      && Content(v1, [added], m) == ZeroBytes(m)
  {
    var v1 := Taken(v0, added, m);
    CountAfterSet(v0.fat1, |v0.fat1|, added, Merge28(v0.fat1[added], FAT32_EOC));
    forall i | 0 <= i < 1 * m ensures Content(v1, [added], m)[i] == ZeroBytes(m)[i] {
      ContentAt(v1, [added], m, 0, i);
    }
  }

  /** Taking and linking keep the reserved nibbles and the agreement of the copies. */
  lemma LinkedKeeps(v0: FatImage, cur: nat, added: nat, m: nat)
    requires Uniform(v0, m) && cur < |v0.fat1| && added < |v0.fat1|
    ensures var v1 := Linked(v0, cur, added, m);
      NibblesKept(v0, v1) && (CopiesAgree(v0) ==> CopiesAgree(v1))
  {
  }

  lemma LinkedCounts(v0: FatImage, cur: nat, added: nat, m: nat)
    requires Uniform(v0, m) && 2 <= cur < |v0.fat1| && 2 <= added < |v0.fat1| <= FAT32_BAD
    requires Entry(v0.fat1, added) == FAT32_FREE && Entry(v0.fat1, cur) != FAT32_FREE
    ensures FreeCount(Linked(v0, cur, added, m).fat1) + 1 == FreeCount(v0.fat1)
  {
    hide CountFree;
    var mid := Taken(v0, added, m);
    CountAfterSet(v0.fat1, |v0.fat1|, added, Merge28(v0.fat1[added], FAT32_EOC));
    CountAfterSet(mid.fat1, |v0.fat1|, cur, Merge28(mid.fat1[cur], added));
  }

  /** Extending a chain by one zeroed free cluster appends one cluster of zeros. */
  lemma LinkedGrows(v0: FatImage, ch: seq<nat>, added: nat, m: nat)
    requires Uniform(v0, m) && IsChain(v0.fat1, ch)
    requires 2 <= added < |v0.fat1| <= FAT32_BAD && Entry(v0.fat1, added) == FAT32_FREE
    ensures var v1 := Linked(v0, ch[|ch| - 1], added, m);
      && Grown(v0, v1, ch, ch + [added], m)
      && Content(v1, ch + [added], m) == Content(v0, ch, m) + ZeroBytes(m)
  {
    hide Content, CountFree;
    var v1 := Linked(v0, ch[|ch| - 1], added, m);
    LinkedIsChain(v0, ch, added, m);
    ChainIsLive(v0.fat1, ch, |ch| - 1);
    LinkedCounts(v0, ch[|ch| - 1], added, m);
    LinkedContent(v0, v1, ch, added, m);
  }

  lemma LinkedIsChain(v0: FatImage, ch: seq<nat>, added: nat, m: nat)
    requires Uniform(v0, m) && IsChain(v0.fat1, ch)
    requires 2 <= added < |v0.fat1| <= FAT32_BAD && Entry(v0.fat1, added) == FAT32_FREE
    ensures added !in ch && IsChain(Linked(v0, ch[|ch| - 1], added, m).fat1, ch + [added])
  {
    var mid := Taken(v0, added, m);
    FreeNotInChain(v0.fat1, ch, added);
    ChainKept(v0.fat1, mid.fat1, ch);
    LinkJoins(mid, ch, added);
  }

  lemma LinkedContent(v0: FatImage, v1: FatImage, ch: seq<nat>, added: nat, m: nat)
    requires Uniform(v0, m) && Uniform(v1, m) && |v1.data| == |v0.data| && Names(v0, ch) && 2 <= added < |v0.data|
    requires v1.data == v0.data[added := ZeroBytes(m)] && added !in ch
    ensures Names(v1, ch + [added])
    ensures Content(v1, ch + [added], m) == Content(v0, ch, m) + ZeroBytes(m)
  {
    hide Content;
    var all := ch + [added];
    MulAddOne(|ch|, m);
    forall i | 0 <= i < |all| * m ensures Content(v1, all, m)[i] == (Content(v0, ch, m) + ZeroBytes(m))[i] {
      var q, r := Place(i, |all|, m);
      ContentAt(v1, all, m, q, r);
      if q < |ch| {
        ContentAt(v0, ch, m, q, r);
      }
    }
  }

  /** A slice of one cluster replaced. */
  function WithSlice(v: FatImage, c: nat, at: nat, piece: seq<Byte>): FatImage
    requires c < |v.data| && at + |piece| <= |v.data[c]|
  {
    v.(data := v.data[c := v.data[c][..at] + piece + v.data[c][at + |piece|..]])
  }

  /** Replacing a slice inside the idx-th cluster patches the byte sequence at that place. */
  lemma SlicePatches(v0: FatImage, ch: seq<nat>, idx: nat, at: nat, piece: seq<Byte>, m: nat)
    requires Uniform(v0, m) && IsChain(v0.fat1, ch) && idx < |ch| && at + |piece| <= m
    ensures var v1 := WithSlice(v0, ch[idx], at, piece);
      && Grown(v0, v1, ch, ch, m)
      && Content(v1, ch, m) == Patched(Content(v0, ch, m), |ch| * m, idx * m + at, piece)
  {
    hide Content;
    var v1 := WithSlice(v0, ch[idx], at, piece);
    forall i | 0 <= i < |ch| * m
      ensures Content(v1, ch, m)[i] == Patched(Content(v0, ch, m), |ch| * m, idx * m + at, piece)[i]
    {
      var q, r := Place(i, |ch|, m);
      ContentAt(v1, ch, m, q, r);
      ContentAt(v0, ch, m, q, r);
      if q < idx {
        MulLe(q + 1, idx, m);
        MulAddOne(q, m);
      } else if q > idx {
        MulLe(idx + 1, q, m);
        MulAddOne(idx, m);
      }
    }
  }

  lemma PatchTwice(base: seq<Byte>, n: nat, off: nat, p: seq<Byte>, q: seq<Byte>)
    ensures Patched(Patched(base, n, off, p), n, off + |p|, q) == Patched(base, n, off, p + q)
  {
  }

  lemma PatchExtend(base: seq<Byte>, n: nat, off: nat, p: seq<Byte>, k: nat)
    requires |base| <= n && (p == [] || off + |p| <= n)
    ensures Patched(base, n, off, p) + ZeroBytes(k) == Patched(base, n + k, off, p)
  {
  }

  /** `v1` is `v0` after the chain `ch0`, now `ch1`, had `piece` written over it at `off`: the old
      bytes, zero-extended, with that slice replaced; nothing outside the chain moved. */
  ghost predicate Rewritten(v0: FatImage, v1: FatImage, ch0: seq<nat>, ch1: seq<nat>, m: nat, off: nat, piece: seq<Byte>) {
    && Grown(v0, v1, ch0, ch1, m) && Names(v0, ch0)
    && NibblesKept(v0, v1) && (CopiesAgree(v0) ==> CopiesAgree(v1))
    && Content(v1, ch1, m) == Patched(Content(v0, ch0, m), |ch1| * m, off, piece)
  }

  /** The slice written so far lies inside the chain. */
  ghost predicate Covers(ch: seq<nat>, m: nat, off: nat, piece: seq<Byte>) {
    piece == [] || off + |piece| <= |ch| * m
  }

  lemma RewrittenStart(v: FatImage, ch: seq<nat>, m: nat, off: nat)
    requires Uniform(v, m) && IsChain(v.fat1, ch)
    ensures Rewritten(v, v, ch, ch, m, off, [])
  {
    assert Content(v, ch, m) == Patched(Content(v, ch, m), |ch| * m, off, []);
  }

  lemma RewrittenTaken(v: FatImage, added: nat, m: nat, off: nat)
    requires Uniform(v, m) && 2 <= added < |v.fat1| && Entry(v.fat1, added) == FAT32_FREE
    ensures Rewritten(v, Taken(v, added, m), [], [added], m, off, [])
  {
    hide Grown, NibblesKept, CopiesAgree, Content, Taken;
    TakenStarts(v, added, m);
    assert ZeroBytes(m) == Patched(Content(v, [], m), 1 * m, off, []);
  }

  lemma RewrittenExtend(v0: FatImage, v1: FatImage, ch0: seq<nat>, ch1: seq<nat>, m: nat, off: nat, piece: seq<Byte>, added: nat)
    requires Rewritten(v0, v1, ch0, ch1, m, off, piece) && Covers(ch1, m, off, piece)
    requires 2 <= added < |v1.fat1| <= FAT32_BAD && Entry(v1.fat1, added) == FAT32_FREE
    ensures IsChain(v1.fat1, ch1) && Uniform(v1, m)
    ensures Rewritten(v0, Linked(v1, ch1[|ch1| - 1], added, m), ch0, ch1 + [added], m, off, piece)
    ensures Covers(ch1 + [added], m, off, piece)
  {
    hide Content, Linked, CopiesAgree, NibblesKept;
    assert IsChain(v1.fat1, ch1) && Uniform(v1, m);
    var v2 := Linked(v1, ch1[|ch1| - 1], added, m);
    LinkedGrows(v1, ch1, added, m);
    LinkedKeeps(v1, ch1[|ch1| - 1], added, m);
    GrownTransitive(v0, v1, v2, ch0, ch1, ch1 + [added], m);
    NibblesTransitive(v0, v1, v2);
    MulLe(|ch0|, |ch1|, m);
    MulAddOne(|ch1|, m);
    PatchExtend(Content(v0, ch0, m), |ch1| * m, off, piece, m);
  }

  lemma NibblesTransitive(v0: FatImage, v1: FatImage, v2: FatImage)
    requires NibblesKept(v0, v1) && NibblesKept(v1, v2)
    ensures NibblesKept(v0, v2)
  {
  }

  lemma RewrittenSlice(v0: FatImage, v1: FatImage, ch0: seq<nat>, ch1: seq<nat>, m: nat, off: nat, piece: seq<Byte>,
                       idx: nat, at: nat, more: seq<Byte>)
    requires Rewritten(v0, v1, ch0, ch1, m, off, piece)
    requires idx < |ch1| && IsPlace(m, idx, at, off + |piece|) && at + |more| <= m
    ensures IsChain(v1.fat1, ch1) && Uniform(v1, m)
    ensures Rewritten(v0, WithSlice(v1, ch1[idx], at, more), ch0, ch1, m, off, piece + more)
    ensures Covers(ch1, m, off, piece + more)
  {
    hide Content, CopiesAgree, NibblesKept;
    assert IsChain(v1.fat1, ch1) && Uniform(v1, m);
    var v2 := WithSlice(v1, ch1[idx], at, more);
    SlicePatches(v1, ch1, idx, at, more, m);
    GrownTransitive(v0, v1, v2, ch0, ch1, ch1, m);
    SliceKeeps(v0, v1, v2);
    PatchTwice(Content(v0, ch0, m), |ch1| * m, off, piece, more);
    MulLe(idx + 1, |ch1|, m);
    MulAddOne(idx, m);
  }

  lemma SliceKeeps(v0: FatImage, v1: FatImage, v2: FatImage)
    requires v2.fat1 == v1.fat1 && v2.fat2 == v1.fat2 && NibblesKept(v0, v1) && (CopiesAgree(v0) ==> CopiesAgree(v1))
    ensures NibblesKept(v0, v2) && (CopiesAgree(v0) ==> CopiesAgree(v2))
  {
  }

  /** A slice of one cluster is a slice of the byte sequence. */
  lemma SliceOfContent(v: FatImage, ch: seq<nat>, m: nat, idx: nat, at: nat, n: nat, x: nat)
    requires Uniform(v, m) && Names(v, ch) && idx < |ch| && at + n <= m && IsPlace(m, idx, at, x)
    ensures x + n <= |ch| * m && |v.data[ch[idx]]| == m
    ensures v.data[ch[idx]][at..at + n] == Content(v, ch, m)[x..x + n]
  {
    hide Content;
    MulLe(idx + 1, |ch|, m);
    MulAddOne(idx, m);
    forall i | at <= i < at + n ensures v.data[ch[idx]][i] == Content(v, ch, m)[x - at + i] {
      ContentAt(v, ch, m, idx, i);
    }
  }

  /** A position lies in the chain exactly when its cluster index does. */
  lemma InsideChain(m: nat, x: nat, n: nat)
    requires m > 0
    ensures x < n * m <==> Index(m, x) < n
  {
    IndexOffset(m, x);
    if Index(m, x) < n {
      MulAddOne(Index(m, x), m);
      MulLe(Index(m, x) + 1, n, m);
    } else {
      MulLe(n, Index(m, x), m);
    }
  }
}
