/** Inputs at which reading and writing chains do not do what their callers expect: the limits of the
    conditions proved beside the operations, each with a case that exceeds it. */
module ChainLimits {
  import opened Arithmetic
  import opened Blocks
  import opened FatTable
  import opened Chains
  import opened FileBytes
  import opened ChainIO

  /** A link misread short of the chain's end: what is left is the part before it and a cluster of
      zeros; the rest stays allocated and belongs to no file. */
  lemma MisreadCutsTail(v: FatImage, ch: seq<nat>, idx: nat, added: nat, m: nat)
    requires Uniform(v, m) && IsChain(v.fat1, ch) && idx + 1 < |ch| && |v.fat1| <= FAT32_BAD
    requires 2 <= added < |v.fat1| && Entry(v.fat1, added) == FAT32_FREE
    ensures ch[idx] < |v.fat1| && (idx + 1) * m <= |ch| * m
    ensures var v1, ch1 := Linked(v, ch[idx], added, m), ch[..idx + 1] + [added];
      && Uniform(v1, m) && IsChain(v1.fat1, ch1) && !IsChain(v1.fat1, ch)
      && Content(v1, ch1, m) == Content(v, ch, m)[..(idx + 1) * m] + ZeroBytes(m)
      && forall i :: idx < i < |ch| ==> Entry(v1.fat1, ch[i]) != FAT32_FREE && ch[i] !in ch1
  {
    hide Content, CountFree, Merge28, Linked;
    var v1, ch1 := Linked(v, ch[idx], added, m), ch[..idx + 1] + [added];
    CutIsChain(v, ch, idx, added, m);
    LinkTears(v, ch, idx, added, m);
    TornIsNoChain(v1, ch);
    CutData(v, ch, idx, added, m);
    CutContent(v, v1, ch, ch1, idx, m);
  }

  lemma CutData(v: FatImage, ch: seq<nat>, idx: nat, added: nat, m: nat)
    requires Uniform(v, m) && IsChain(v.fat1, ch) && idx < |ch|
    requires 2 <= added < |v.fat1| && Entry(v.fat1, added) == FAT32_FREE
    ensures ch[idx] < |v.fat1|
    ensures var v1 := Linked(v, ch[idx], added, m);
      |v1.data| == |v.data| && v1.data[added] == ZeroBytes(m) && forall i :: 0 <= i < |ch| ==> v1.data[ch[i]] == v.data[ch[i]]
  {
    hide Merge28;
    FreeNotInChain(v.fat1, ch, added);
  }

  /** The bytes of a chain that begins with `idx + 1` clusters of another and ends in a cluster of zeros. */
  lemma CutContent(v: FatImage, v1: FatImage, ch: seq<nat>, ch1: seq<nat>, idx: nat, m: nat)
    requires Uniform(v, m) && Uniform(v1, m) && Names(v, ch) && Names(v1, ch1) && idx + 1 < |ch| && |ch1| == idx + 2
    requires ch1[..idx + 1] == ch[..idx + 1] && v1.data[ch1[idx + 1]] == ZeroBytes(m)
    requires |v1.data| == |v.data| && forall i :: 0 <= i < |ch| ==> v1.data[ch[i]] == v.data[ch[i]]
    ensures (idx + 1) * m <= |ch| * m
    ensures Content(v1, ch1, m) == Content(v, ch, m)[..(idx + 1) * m] + ZeroBytes(m)
  {
    hide Content, Uniform;
    MulLe(idx + 1, |ch|, m);
    MulAddOne(idx + 1, m);
    var cut := Content(v, ch, m)[..(idx + 1) * m];
    forall i | 0 <= i < |ch1| * m ensures Content(v1, ch1, m)[i] == (cut + ZeroBytes(m))[i] {
      CutByte(v, v1, ch, ch1, idx, m, i);
    }
    assert |Content(v1, ch1, m)| == |cut + ZeroBytes(m)|;
  }

  lemma CutByte(v: FatImage, v1: FatImage, ch: seq<nat>, ch1: seq<nat>, idx: nat, m: nat, i: nat)
    requires Uniform(v, m) && Uniform(v1, m) && Names(v, ch) && Names(v1, ch1) && idx + 1 < |ch| && |ch1| == idx + 2
    requires ch1[..idx + 1] == ch[..idx + 1] && v1.data[ch1[idx + 1]] == ZeroBytes(m)
    requires |v1.data| == |v.data| && forall i :: 0 <= i < |ch| ==> v1.data[ch[i]] == v.data[ch[i]]
    requires i < |ch1| * m && (idx + 1) * m <= |ch| * m && |ch1| * m == (idx + 1) * m + m
    ensures Content(v1, ch1, m)[i] == (Content(v, ch, m)[..(idx + 1) * m] + ZeroBytes(m))[i]
  {
    hide Content;
    var q, r := Place(i, idx + 2, m);
    ContentAt(v1, ch1, m, q, r);
    if q <= idx {
      ContentAt(v, ch, m, q, r);
      assert ch1[q] == ch1[..idx + 1][q] == ch[..idx + 1][q] == ch[q];
      MulLe(q + 1, idx + 1, m);
      MulAddOne(q, m);
    }
  }

  lemma CutIsChain(v: FatImage, ch: seq<nat>, idx: nat, added: nat, m: nat)
    requires Uniform(v, m) && IsChain(v.fat1, ch) && idx + 1 < |ch| && |v.fat1| <= FAT32_BAD
    requires 2 <= added < |v.fat1| && Entry(v.fat1, added) == FAT32_FREE
    ensures ch[idx] < |v.fat1|
    ensures var v1, ch1 := Linked(v, ch[idx], added, m), ch[..idx + 1] + [added];
      && Uniform(v1, m) && IsChain(v1.fat1, ch1)
      && forall i :: idx < i < |ch| ==> Entry(v1.fat1, ch[i]) != FAT32_FREE && ch[i] !in ch1
  {
    hide Merge28;
    FreeNotInChain(v.fat1, ch, added);
    LinkedEntries(v, ch[idx], added, m);
    forall i | idx < i < |ch| ensures Entry(v.fat1, ch[i]) != FAT32_FREE {
      ChainIsLive(v.fat1, ch, i);
    }
  }

  /** Three clusters in a row, 2, 3 and 4, on a volume whose cluster 5 is free. */
  function ThreeClusters(m: nat): FatImage {
    FatImage([0, 0, 3, 4, FAT32_EOC, 0], [0, 0, 3, 4, FAT32_EOC, 0], [[], [], ZeroBytes(m), ZeroBytes(m), ZeroBytes(m), ZeroBytes(m)])
  }

  /** One failed read of the entry of cluster 2, in a write to the second cluster: the file is 2 and 5
      from now on, and clusters 3 and 4 are lost. */
  lemma OneMisread()
    ensures var v := ThreeClusters(512);
      var v1 := Linked(v, 2, 5, 512);
      && IsChain(v.fat1, [2, 3, 4]) && IsChain(v1.fat1, [2, 5]) && !IsChain(v1.fat1, [2, 3, 4])
      && Entry(v1.fat1, 3) == 4 && IsEoc(Entry(v1.fat1, 4))
  {
    hide ZeroBytes, Linked, IsChain, ThreeClusters;
    var v := ThreeClusters(512);
    ThreeAreChain(512);
    CutIsChain(v, [2, 3, 4], 0, 5, 512);
    assert [2, 3, 4][..1] + [5] == [2, 5];
    LinkedEntries(v, 2, 5, 512);
    LinkTears(v, [2, 3, 4], 0, 5, 512);
    TornIsNoChain(Linked(v, 2, 5, 512), [2, 3, 4]);
    assert Linked(v, 2, 5, 512).fat1[3] == v.fat1[3] && Linked(v, 2, 5, 512).fat1[4] == v.fat1[4];
  }

  lemma ThreeAreChain(m: nat)
    requires m > 0
    ensures var v := ThreeClusters(m);
      && Uniform(v, m) && |v.fat1| == |v.fat2| == |v.data| == 6 && IsChain(v.fat1, [2, 3, 4])
      && Entry(v.fat1, 5) == FAT32_FREE && Entry(v.fat1, 3) == 4 && IsEoc(Entry(v.fat1, 4))
  {
    hide ZeroBytes;
    EocIsEoc();
    var f := ThreeClusters(m).fat1;
    assert Entry(f, 2) == 3 && Entry(f, 3) == 4 && Entry(f, 4) == FAT32_EOC && Entry(f, 5) == FAT32_FREE;
  }

  lemma EocIsEoc()
    ensures IsEoc(FAT32_EOC) && FAT32_EOC % 0x1000_0000 == FAT32_EOC
  {
  }

  /** A write that has all the clusters it needs and is refused: 2048 bytes at the start of a file on a
      volume of four clusters of 512 bytes take six link steps, two more than the limit. */
  lemma EnoughRoomAndRefused()
    ensures LastIndex(512, 0, 2048) < 4 && LinkSteps(Index(512, 0), LastIndex(512, 0, 2048)) == 6
    ensures !CanFinish(4, 4, 512, 0, 2048)
  {
    assert LinkSteps(4, 3) == 0 && LinkSteps(3, 3) == 3 && LinkSteps(2, 3) == 5 && LinkSteps(1, 3) == 6;
  }

  /** A read that gives up: one byte more than a chain that takes all four clusters of a volume. */
  lemma OneByteTooMany(v: FatImage, ch: seq<nat>, r: int, buf: seq<Byte>)
    requires |ch| == 4 && ReadOutcome(4, v, ch, 512, 0, 2049, r, buf)
    ensures r == -1 && Readable(4, 512, 0, 2049) == 2048
  {
    assert Overrun(4, 4, 512, 0, 2049);
  }

  /** The answer -1 means that the read gave up, or that it returned 2^32 - 1 bytes: C's signed result
      cannot tell the two apart. */
  lemma MinusOne(total: nat, v: FatImage, ch: seq<nat>, m: nat, off: nat, len: Word, r: int, buf: seq<Byte>)
    requires m > 0 && ReadOutcome(total, v, ch, m, off, len, r, buf)
    ensures r == -1 <==> Overrun(total, |ch|, m, off, len) || Readable(|ch|, m, off, len) == U32_RANGE - 1
  {
  }

  /** Every byte of a transfer lies where the caller counts it exactly if the transfer ends by 2^32.
      Beyond it positions begin anew at the start of the file. */
  lemma InPlaceExactly(off: Word, len: nat)
    ensures (forall i: nat :: i < len ==> Absolute(off, i) == off + i) <==> off + len <= U32_RANGE
    ensures forall i: nat :: U32_RANGE <= off + i < 2 * U32_RANGE ==> Absolute(off, i) == off + i - U32_RANGE
  {
    if off + len > U32_RANGE {
      assert Absolute(off, U32_RANGE - off) == 0;
    }
  }

  /** Two bytes written at the last position of all: the second becomes the first byte of the file, and
      the position that vfs_write computes is 1. */
  lemma LastPositionWraps()
    ensures Absolute(0xFFFF_FFFF, 0) == 0xFFFF_FFFF && Absolute(0xFFFF_FFFF, 1) == 0 && Absolute(0xFFFF_FFFF, 2) == 1
    ensures Index(512, Absolute(0xFFFF_FFFF, 1)) == 0 == Offset(512, Absolute(0xFFFF_FFFF, 1))
  {
  }
}
