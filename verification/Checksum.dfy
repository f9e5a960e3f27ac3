/** The one's-complement checksum of net/ip.c (section 1 of RFC 1071) and why it verifies itself. */
module Checksum {
  import opened Blocks
  import opened FatTable

  const ALL_ONES: nat := 0xFFFF

  /** The sum of big-endian 16-bit words; an odd last byte counts as the high half of a word. */
  function WordSum(b: seq<Byte>): nat {
    if |b| == 0 then 0
    else if |b| == 1 then 0x100 * b[0]
    else 0x100 * b[0] + b[1] + WordSum(b[2..])
  }

  /** The carries added back in until none is left. */
  function Fold(n: nat): nat {
    if n < 0x1_0000 then n else Fold(n % 0x1_0000 + n / 0x1_0000)
  }

  function ChecksumOf(b: seq<Byte>): (c: nat)
    ensures c <= ALL_ONES
  {
    FoldIs(WordSum(b));
    ALL_ONES - Fold(WordSum(b))
  }

  /** Folding keeps a sum modulo 65535, and only zero folds to zero. */
  lemma {:induction false} FoldIs(n: nat)
    ensures Fold(n) == if n == 0 then 0 else if n % ALL_ONES == 0 then ALL_ONES else n % ALL_ONES
  {
    if n >= 0x1_0000 {
      var m := n % 0x1_0000 + n / 0x1_0000;
      FoldIs(m);
      assert n == m + n / 0x1_0000 * ALL_ONES;
      SameRemainder(m, n / 0x1_0000);
    }
  }

  lemma SameRemainder(m: nat, k: nat)
    ensures (m + k * ALL_ONES) % ALL_ONES == m % ALL_ONES
  {
  }

  /** A sum of at most 32768 words fits 32 bits. */
  lemma {:induction false} SumBound(b: seq<Byte>)
    ensures WordSum(b) <= (|b| + 1) / 2 * ALL_ONES
  {
    if |b| >= 2 {
      SumBound(b[2..]);
    }
  }

  /** ip_checksum. The accumulator is a 32-bit word: nothing overflows for any 16-bit length. */
  method IpChecksum(b: seq<Byte>) returns (c: nat)
    requires |b| <= ALL_ONES
    ensures c == ChecksumOf(b)
  {
    var sum: Word := 0;
    var i := 0;
    while i + 1 < |b|
      invariant i <= |b| && i % 2 == 0
      invariant WordSum(b) == sum + WordSum(b[i..]) && sum <= i / 2 * ALL_ONES
    {
      assert b[i..][2..] == b[i + 2..];
      sum := sum + 0x100 * b[i] as int + b[i + 1] as int;
      i := i + 2;
    }
    if |b| % 2 != 0 {
      sum := sum + 0x100 * b[|b| - 1] as int;
    }
    assert sum == WordSum(b);
    while sum / 0x1_0000 != 0
      invariant Fold(sum) == Fold(WordSum(b))
      decreases sum
    {
      sum := sum % 0x1_0000 + sum / 0x1_0000;
    }
    return ALL_ONES - sum;
  }

  /** A byte string read as one big-endian number. */
  function BigEndian(b: seq<Byte>): nat {
    if b == [] then 0 else 0x100 * BigEndian(b[..|b| - 1]) + b[|b| - 1]
  }

  /** An odd string has the checksum of the same string with a zero byte behind it. */
  lemma {:induction false} OddIsPadded(b: seq<Byte>)
    requires |b| % 2 == 1
    ensures WordSum(b + [0]) == WordSum(b) && ChecksumOf(b + [0]) == ChecksumOf(b)
  {
    if |b| > 2 {
      OddIsPadded(b[2..]);
      assert (b + [0])[2..] == b[2..] + [0];
    }
  }

  /** The checksum of a string, padded to an even length, is what its number leaves to a multiple of
      65535; only the number zero, and no other multiple, has the checksum 65535. */
  lemma ChecksumOfNumber(b: seq<Byte>)
    ensures var n := BigEndian(if |b| % 2 == 1 then b + [0] else b);
      ChecksumOf(b) == if n == 0 then 0xFFFF else if n % 0xFFFF == 0 then 0 else 0xFFFF - n % 0xFFFF
  {
    hide WordSum, Fold, BigEndian;
    if |b| % 2 == 1 {
      OddIsPadded(b);
    }
    var even := if |b| % 2 == 1 then b + [0] else b;
    SumOfNumber(even);
    FoldIs(WordSum(even));
  }

  lemma {:induction false} SumOfNumber(b: seq<Byte>)
    requires |b| % 2 == 0
    ensures BigEndian(b) % ALL_ONES == WordSum(b) % ALL_ONES && (BigEndian(b) == 0 <==> WordSum(b) == 0)
  {
    if b != [] {
      var n := |b|;
      var front, word := b[..n - 2], 0x100 * b[n - 2] as int + b[n - 1] as int;
      SumOfNumber(front);
      WordLast(front, b[n - 2], b[n - 1]);
      assert front + [b[n - 2], b[n - 1]] == b;
      assert b[..n - 1][..n - 2] == front;
      assert BigEndian(b) == (BigEndian(front) + word) + BigEndian(front) * ALL_ONES;
      SameRemainder(BigEndian(front) + word, BigEndian(front));
      SumsAlike(BigEndian(front), WordSum(front), word);
    }
  }

  lemma SumsAlike(x: nat, y: nat, w: nat)
    requires x % ALL_ONES == y % ALL_ONES
    ensures (x + w) % ALL_ONES == (y + w) % ALL_ONES
  {
    SameRemainder(x % ALL_ONES + w, x / ALL_ONES);
    SameRemainder(y % ALL_ONES + w, y / ALL_ONES);
  }

  lemma {:induction false} WordLast(b: seq<Byte>, x: Byte, y: Byte)
    requires |b| % 2 == 0
    ensures WordSum(b + [x, y]) == WordSum(b) + 0x100 * x + y
  {
    if b == [] {
      assert b + [x, y] == [x, y];
    } else {
      WordLast(b[2..], x, y);
      assert (b + [x, y])[2..] == b[2..] + [x, y];
    }
  }

  /** The eight bytes of the example in section 3 of RFC 1071, and a single byte. */
  lemma WorkedExamples()
    ensures ChecksumOf([0x00, 0x01, 0xF2, 0x03, 0xF4, 0xF5, 0xF6, 0xF7]) == 0x220D
    ensures ChecksumOf([0x01]) == 0xFEFF
    ensures BigEndian([0x01, 0x02, 0x03]) == 0x01_0203
  {
    var b: seq<Byte> := [0x00, 0x01, 0xF2, 0x03, 0xF4, 0xF5, 0xF6, 0xF7];
    assert b[2..] == [0xF2, 0x03, 0xF4, 0xF5, 0xF6, 0xF7] && b[2..][2..] == [0xF4, 0xF5, 0xF6, 0xF7];
    assert b[2..][2..][2..] == [0xF6, 0xF7] && b[2..][2..][2..][2..] == [];
    assert WordSum(b) == 0x2_DDF0;
    FoldIs(0x2_DDF0);
    FoldIs(0x100);
    var c: seq<Byte> := [0x01, 0x02, 0x03];
    assert c[..2] == [0x01, 0x02] && c[..2][..1] == [0x01] && c[..2][..1][..0] == [];
  }

  /** Two bytes at an even place, big-endian. */
  function WithField(b: seq<Byte>, f: nat, v: nat): (r: seq<Byte>)
    requires f + 2 <= |b| && v <= ALL_ONES
    ensures |r| == |b|
  {
    b[f := v / 0x100][f + 1 := v % 0x100]
  }

  /** Storing a value in a zeroed even-aligned field adds it to the sum. */
  lemma {:induction false} FieldAdds(b: seq<Byte>, f: nat, v: nat)
    requires f % 2 == 0 && f + 2 <= |b| && b[f] == 0 && b[f + 1] == 0 && v <= ALL_ONES
    ensures WordSum(WithField(b, f, v)) == WordSum(b) + v
  {
    var r := WithField(b, f, v);
    if f == 0 {
      assert r[2..] == b[2..];
    } else {
      FieldAdds(b[2..], f - 2, v);
      assert r[2..] == WithField(b[2..], f - 2, v);
    }
  }

  /** A checksum of zero means a positive sum divisible by 65535. */
  lemma ZeroMeans(b: seq<Byte>)
    ensures ChecksumOf(b) == 0 <==> WordSum(b) > 0 && WordSum(b) % ALL_ONES == 0
  {
    FoldIs(WordSum(b));
  }

  /** For every byte string, storing its checksum in a zeroed even-aligned field makes the checksum
      of the result zero. */
  lemma SelfVerifies(b: seq<Byte>, f: nat)
    requires f % 2 == 0 && f + 2 <= |b| && b[f] == 0 && b[f + 1] == 0
    ensures ChecksumOf(WithField(b, f, ChecksumOf(b))) == 0
  {
    var n := WordSum(b);
    FoldIs(n);
    FieldAdds(b, f, ChecksumOf(b));
    Complement(n);
    ZeroMeans(WithField(b, f, ChecksumOf(b)));
  }

  /** The only values in the field that make the checksum of the whole zero are the checksum itself
      and, where that is zero, its other representation. */
  lemma VerifiesExactly(b: seq<Byte>, f: nat, v: nat)
    requires f % 2 == 0 && f + 2 <= |b| && b[f] == 0 && b[f + 1] == 0 && v <= ALL_ONES
    ensures ChecksumOf(WithField(b, f, v)) == 0 <==> v == ChecksumOf(b) || (v == ALL_ONES && ChecksumOf(b) == 0)
  {
    var n := WordSum(b);
    FoldIs(n);
    FieldAdds(b, f, v);
    ZeroMeans(WithField(b, f, v));
    var c := ChecksumOf(b);
    Complement(n);
    if (n + v) % ALL_ONES == 0 {
      SameClass(n + v, n + c);
    } else {
      assert v != c;
      if v == ALL_ONES && c == 0 {
        SameRemainder(n, 1);
        assert false;
      }
    }
  }

  /** Two multiples of 65535 less than that apart are equal, or lie exactly one step apart. */
  lemma SameClass(x: nat, y: nat)
    requires x % ALL_ONES == 0 && y % ALL_ONES == 0 && x <= y + ALL_ONES && y <= x + ALL_ONES
    ensures x == y || x == y + ALL_ONES || y == x + ALL_ONES
  {
    var p, q := x / ALL_ONES, y / ALL_ONES;
    assert x - y == (p - q) * ALL_ONES;
  }

  lemma Complement(n: nat)
    ensures var c := ALL_ONES - (if n == 0 then 0 else if n % ALL_ONES == 0 then ALL_ONES else n % ALL_ONES);
      n + c > 0 && (n + c) % ALL_ONES == 0
  {
    var k := n / ALL_ONES;
    SameRemainder(0, k);
    SameRemainder(0, k + 1);
  }
}
