/** The 32-bit words of a page directory or page table (section 4.3, 32-bit paging, of the Intel SDM
    Volume 3A), with the software copy-on-write bit of mm/paging.h. */
module PageEntry {
  import opened Arithmetic

  const WORD_RANGE: nat := 0x1_0000_0000
  const FRAME_RANGE: nat := 0x10_0000
  const FRAME_BYTES: nat := 4096

  type Word = w: nat | w < WORD_RANGE

  /** The bits of an entry that the code uses. */
  datatype Flag = PRESENT | WRITABLE | USER | COW

  function Value(f: Flag): nat {
    match f case PRESENT => 1 case WRITABLE => 2 case USER => 4 case COW => 0x200
  }

  predicate Has(w: Word, f: Flag) {
    match f case PRESENT => w % 2 == 1 case WRITABLE => w / 2 % 2 == 1 case USER => w / 4 % 2 == 1 case COW => w / 0x200 % 2 == 1
  }

  /** `w | bit` and `w & ~bit`. */
  function With(w: Word, f: Flag): Word { if Has(w, f) then w else BitFits(w, f); w + Value(f) }

  function Without(w: Word, f: Flag): Word { if Has(w, f) then w - Value(f) else w }

  lemma BitFits(w: Word, f: Flag)
    requires !Has(w, f)
    ensures w + Value(f) < WORD_RANGE
  {
  }

  /** A word put together from its frame number, its used bits and the bits between them. */
  function Build(frame: nat, high: nat, cow: nat, middle: nat, user: nat, writable: nat, present: nat): nat {
    frame * 4096 + high * 1024 + cow * 512 + middle * 8 + user * 4 + writable * 2 + present
  }

  lemma ReadBuild(w: Word, frame: nat, high: nat, cow: nat, middle: nat, user: nat, writable: nat, present: nat)
    requires high < 4 && cow < 2 && middle < 64 && user < 2 && writable < 2 && present < 2
    requires w == Build(frame, high, cow, middle, user, writable, present)
    ensures w / FRAME_BYTES == frame
    ensures (Has(w, PRESENT) <==> present == 1) && (Has(w, WRITABLE) <==> writable == 1)
    ensures (Has(w, USER) <==> user == 1) && (Has(w, COW) <==> cow == 1)
  {
    var at1 := frame * 2048 + high * 512 + cow * 256 + middle * 4 + user * 2 + writable;
    var at2 := frame * 1024 + high * 256 + cow * 128 + middle * 2 + user;
    var at9 := frame * 8 + high * 2 + cow;
    DivUnique(frame, w - frame * 4096, 4096);
    DivUnique(at1, present, 2);
    DivUnique(at2, writable * 2 + present, 4);
    DivUnique(at9, w - at9 * 512, 512);
    DivUnique(at2, writable, 2);
    DivUnique(frame * 512 + high * 128 + cow * 64 + middle, user, 2);
    DivUnique(frame * 4 + high, cow, 2);
  }

  lemma SplitWord(w: Word) returns (frame: nat, high: nat, cow: nat, middle: nat, user: nat, writable: nat, present: nat)
    ensures high < 4 && cow < 2 && middle < 64 && user < 2 && writable < 2 && present < 2
    ensures w == Build(frame, high, cow, middle, user, writable, present)
  {
    present := w % 2;
    var a := w / 2;
    writable := a % 2;
    var b := a / 2;
    user := b % 2;
    var c := b / 2;
    middle := c % 64;
    var d := c / 64;
    cow := d % 2;
    var e := d / 2;
    high := e % 4;
    frame := e / 4;
  }

  /** Setting or clearing one bit changes that bit and nothing else. */
  lemma OneBit(w: Word, f: Flag, other: Flag)
    ensures Has(With(w, f), other) <==> other == f || Has(w, other)
    ensures Has(Without(w, f), other) <==> other != f && Has(w, other)
    ensures With(w, f) / FRAME_BYTES == w / FRAME_BYTES == Without(w, f) / FRAME_BYTES
  {
    hide Has;
    var fr, hi, c, mid, u, wr, p := SplitWord(w);
    ReadBuild(w, fr, hi, c, mid, u, wr, p);
    match f {
      case PRESENT =>
        ReadBuild(With(w, f), fr, hi, c, mid, u, wr, 1);
        ReadBuild(Without(w, f), fr, hi, c, mid, u, wr, 0);
      case WRITABLE =>
        ReadBuild(With(w, f), fr, hi, c, mid, u, 1, p);
        ReadBuild(Without(w, f), fr, hi, c, mid, u, 0, p);
      case USER =>
        ReadBuild(With(w, f), fr, hi, c, mid, 1, wr, p);
        ReadBuild(Without(w, f), fr, hi, c, mid, 0, wr, p);
      case COW =>
        ReadBuild(With(w, f), fr, hi, 1, mid, u, wr, p);
        ReadBuild(Without(w, f), fr, hi, 0, mid, u, wr, p);
    }
  }

  /** An entry: the frame it names and its bits. */
  datatype Entry = Entry(frame: nat, present: bool, writable: bool, user: bool, cow: bool)

  const NO_ENTRY := Entry(0, false, false, false, false)

  function Decode(w: Word): (e: Entry)
    ensures e.frame < FRAME_RANGE
  {
    Entry(w / FRAME_BYTES, Has(w, PRESENT), Has(w, WRITABLE), Has(w, USER), Has(w, COW))
  }

  function BitIf(b: bool, f: Flag): nat { if b then Value(f) else 0 }

  function Encode(e: Entry): Word
    requires e.frame < FRAME_RANGE
  {
    e.frame * FRAME_BYTES + BitIf(e.present, PRESENT) + BitIf(e.writable, WRITABLE) + BitIf(e.user, USER) + BitIf(e.cow, COW)
  }

  /** Writing an entry and reading it back gives the entry. */
  lemma DecodeEncode(e: Entry)
    requires e.frame < FRAME_RANGE
    ensures Decode(Encode(e)) == e
  {
    hide Has;
    ReadBuild(Encode(e), e.frame, 0, Bit(e.cow), 0, Bit(e.user), Bit(e.writable), Bit(e.present));
  }

  function Bit(b: bool): nat { if b then 1 else 0 }

  lemma DecodeWith(w: Word, f: Flag)
    ensures Decode(With(w, f)) == match f
      case PRESENT => Decode(w).(present := true)
      case WRITABLE => Decode(w).(writable := true)
      case USER => Decode(w).(user := true)
      case COW => Decode(w).(cow := true)
    ensures Decode(Without(w, f)) == match f
      case PRESENT => Decode(w).(present := false)
      case WRITABLE => Decode(w).(writable := false)
      case USER => Decode(w).(user := false)
      case COW => Decode(w).(cow := false)
  {
    hide Has, With, Without;
    OneBit(w, f, PRESENT);
    OneBit(w, f, WRITABLE);
    OneBit(w, f, USER);
    OneBit(w, f, COW);
  }

  /** Bit `k` of a number, counted from the lowest. */
  predicate BitAt(w: nat, k: nat) {
    if k == 0 then w % 2 == 1 else BitAt(w / 2, k - 1)
  }

  function Power2(k: nat): nat { if k == 0 then 1 else 2 * Power2(k - 1) }

  lemma {:induction false} BitSetAt(w: nat, p: nat, k: nat)
    requires !BitAt(w, p)
    ensures BitAt(w + Power2(p), k) <==> k == p || BitAt(w, k)
  {
    if p > 0 {
      assert (w + Power2(p)) / 2 == w / 2 + Power2(p - 1);
      if k > 0 {
        BitSetAt(w / 2, p - 1, k - 1);
      }
    }
  }

  lemma {:induction false} LowBitsClear(x: nat, n: nat, k: nat)
    requires k < n
    ensures !BitAt(x * Power2(n), k)
  {
    assert x * Power2(n) == 2 * (x * Power2(n - 1));
    if k > 0 {
      LowBitsClear(x, n - 1, k - 1);
    }
  }

  lemma HalfFirst(w: nat, m: nat)
    requires m > 0
    ensures w / 2 / m == w / (2 * m)
  {
    var q, r := w / 2 / m, w / 2 % m;
    Locate(w / 2, m);
    calc {
      w;
      2 * (q * m + r) + w % 2;
      q * (2 * m) + (2 * r + w % 2);
    }
    DivUnique(q, 2 * r + w % 2, 2 * m);
  }

  lemma {:induction false} BitIs(w: nat, k: nat)
    ensures Power2(k) > 0 && (BitAt(w, k) <==> w / Power2(k) % 2 == 1)
  {
    if k > 0 {
      BitIs(w / 2, k - 1);
      HalfFirst(w, Power2(k - 1));
    }
  }

  lemma FlagBit(w: Word, f: Flag)
    ensures Value(f) == Power2(match f case PRESENT => 0 case WRITABLE => 1 case USER => 2 case COW => 9)
    ensures Has(w, f) <==> BitAt(w, match f case PRESENT => 0 case WRITABLE => 1 case USER => 2 case COW => 9)
  {
    assert Power2(9) == 512 && Power2(2) == 4;
    BitIs(w, match f case PRESENT => 0 case WRITABLE => 1 case USER => 2 case COW => 9);
  }

  /** What is read from any word, whatever its other bits. */
  lemma DecodeBits(w: Word)
    ensures var e := Decode(w);
      && e.frame == w / 4096 && (e.present <==> BitAt(w, 0)) && (e.writable <==> BitAt(w, 1))
      && (e.user <==> BitAt(w, 2)) && (e.cow <==> BitAt(w, 9))
  {
    hide Has, BitAt;
    FlagBit(w, PRESENT);
    FlagBit(w, WRITABLE);
    FlagBit(w, USER);
    FlagBit(w, COW);
  }

  /** Setting and clearing a flag is a bitwise or, and an and with the complement, of bit 0, 1, 2 or 9. */
  lemma WithIsOr(w: Word, f: Flag, k: nat)
    ensures var p := match f case PRESENT => 0 case WRITABLE => 1 case USER => 2 case COW => 9;
      && (BitAt(With(w, f), k) <==> k == p || BitAt(w, k))
      && (BitAt(Without(w, f), k) <==> k != p && BitAt(w, k))
  {
    hide Has, BitAt, Value;
    var p := match f case PRESENT => 0 case WRITABLE => 1 case USER => 2 case COW => 9;
    FlagBit(w, f);
    if Has(w, f) {
      OneBit(w, f, f);
      FlagBit(Without(w, f), f);
      BitSetAt(Without(w, f), p, k);
    } else {
      BitSetAt(w, p, k);
    }
  }

  /** The word of an entry as section 4.3 of the Intel SDM Volume 3A lays it out: the frame's address,
      bit 0 present, bit 1 writable, bit 2 user, and bit 9, which the processor ignores, for copy-on-write. */
  lemma EntryBits(e: Entry, k: nat)
    requires e.frame < FRAME_RANGE && k < 12
    ensures Encode(e) / 4096 == e.frame
    ensures BitAt(Encode(e), k) <==>
      (k == 0 && e.present) || (k == 1 && e.writable) || (k == 2 && e.user) || (k == 9 && e.cow)
  {
    hide BitAt;
    DecodeEncode(e);
    assert Power2(12) == 4096 && Power2(9) == 512 && Power2(2) == 4;
    var w0 := e.frame * 4096;
    var w1 := w0 + BitIf(e.present, PRESENT);
    var w2 := w1 + BitIf(e.writable, WRITABLE);
    var w3 := w2 + BitIf(e.user, USER);
    LowBitsClear(e.frame, 12, k);
    forall j: nat | j < 12 ensures !BitAt(w0, j) { LowBitsClear(e.frame, 12, j); }
    forall j: nat | j < 12 ensures BitAt(w1, j) <==> j == 0 && e.present { if e.present { BitSetAt(w0, 0, j); } }
    forall j: nat | j < 12 ensures BitAt(w2, j) <==> (j == 0 && e.present) || (j == 1 && e.writable) {
      if e.writable { BitSetAt(w1, 1, j); }
    }
    forall j: nat | j < 12 ensures BitAt(w3, j) <==> (j == 0 && e.present) || (j == 1 && e.writable) || (j == 2 && e.user) {
      if e.user { BitSetAt(w2, 2, j); }
    }
    if e.cow { BitSetAt(w3, 9, k); }
  }
}
