/** FAT 8.3 names: vfs_to_83, fat32_from_83 and the case-insensitive comparison. */
module ShortNames {
  import opened Blocks

  /** A C string without its terminator. */
  type CString = s: seq<Byte> | 0 !in s witness []

  const SPACE: Byte := 0x20
  const NAME_MAX: nat := 256        // VFS_NAME_MAX
  const DOT: Byte := 0x2E

  function Lower(c: Byte): Byte { if 0x41 <= c <= 0x5A then c + 0x20 else c }

  function Upper(c: Byte): Byte { if 0x61 <= c <= 0x7A then c - 0x20 else c }

  function LowerAll(s: seq<Byte>): (r: seq<Byte>)
    ensures |r| == |s| && forall i :: 0 <= i < |s| ==> r[i] == Lower(s[i])
  {
    seq(|s|, i requires 0 <= i < |s| => Lower(s[i]))
  }

  /** fat32_name_eq_ci, whose loop stops at the first difference or end. */
  method NameEqCi(a: CString, b: CString) returns (same: bool)
    ensures same <==> LowerAll(a) == LowerAll(b)
  {
    var i := 0;
    while i < |a| && i < |b|
      invariant i <= |a| && i <= |b|
      invariant LowerAll(a)[..i] == LowerAll(b)[..i]
    {
      if Lower(a[i]) != Lower(b[i]) {
        assert LowerAll(a)[i] != LowerAll(b)[i];
        return false;
      }
      assert LowerAll(a)[..i + 1] == LowerAll(a)[..i] + [LowerAll(a)[i]];
      i := i + 1;
    }
    if i == |a| && i == |b| {
      assert LowerAll(a)[..i] == LowerAll(a) && LowerAll(b)[..i] == LowerAll(b);
      return true;
    }
    return false;
  }

  /** The part of a byte string before the first byte `stop`. */
  function Before(s: seq<Byte>, stop: Byte): (r: seq<Byte>)
    ensures |r| <= |s| && r == s[..|r|] && stop !in r
    ensures |r| < |s| ==> s[|r|] == stop
  {
    if s == [] || s[0] == stop then [] else [s[0]] + Before(s[1..], stop)
  }

  /** fat32_from_83: the printable form of an 11-byte name, cut at a NUL as C strings are. */
  function From83(n: seq<Byte>): (s: CString)
    requires |n| == 11
  {
    Before(Before(n[..8], SPACE) + (if n[8] == SPACE then [] else [DOT] + Before(n[8..], SPACE)), 0)
  }

  /** A character as vfs_to_83 stores it. */
  function Folded(c: Byte): Byte {
    Upper(if c == 0x2B || c == 0x2C || c == 0x3B || c == 0x3D || c == 0x5B || c == 0x5D then 0x5F else c)
  }

  /** Index of the last dot, or -1. */
  function LastDot(s: seq<Byte>): (d: int)
    ensures -1 <= d < |s|
    ensures d >= 0 ==> s[d] == DOT
    ensures forall i :: d < i < |s| ==> s[i] != DOT
  {
    if s == [] then -1 else if s[|s| - 1] == DOT then |s| - 1 else LastDot(s[..|s| - 1])
  }

  /** `s` without dots, each character as folded. */
  function Squeezed(s: seq<Byte>): (r: seq<Byte>)
    ensures |r| <= |s|
  {
    if s == [] then [] else Squeezed(s[..|s| - 1]) + if s[|s| - 1] == DOT then [] else [Folded(s[|s| - 1])]
  }

  function Cut(s: seq<Byte>, n: nat): seq<Byte> { if |s| > n then s[..n] else s }

  function Padded(s: seq<Byte>, n: nat): (r: seq<Byte>)
    requires |s| <= n
    ensures |r| == n
  {
    s + seq(n - |s|, _ => SPACE)
  }

  /** The characters before the last dot, or all of them, and those behind it. */
  function BasePart(s: seq<Byte>): seq<Byte> { if LastDot(s) < 0 then Squeezed(s) else Squeezed(s[..LastDot(s)]) }

  function ExtPart(s: seq<Byte>): seq<Byte> { if LastDot(s) < 0 then [] else Squeezed(s[LastDot(s) + 1..]) }

  /** The 8.3 form of a name: the characters before the last dot, then those after it. */
  function To83(s: seq<Byte>): (r: seq<Byte>)
    ensures |r| == 11
  {
    Padded(Cut(BasePart(s), 8), 8) + Padded(Cut(ExtPart(s), 3), 3)
  }

  method FindLastDot(s: seq<Byte>) returns (lastDot: int)
    ensures lastDot == LastDot(s)
  {
    lastDot := -1;
    for k := 0 to |s|
      invariant lastDot == LastDot(s[..k])
    {
      assert s[..k + 1][..k] == s[..k];
      if s[k] == DOT {
        lastDot := k;
      }
    }
    assert s[..|s|] == s;
  }

  /** vfs_to_83, filling the 11 bytes in place. It looks at no more than 255 characters. */
  method ComputeTo83(name: CString) returns (r: seq<Byte>)
    ensures r == To83(Cut(name, NAME_MAX - 1))
  {
    hide Field, Base, Ext, Folded, To83, LastDot;
    var s := Cut(name, NAME_MAX - 1);
    var out := new Byte[11](_ => SPACE);
    var lastDot := FindLastDot(s);
    var baseLen, extLen := 0, 0;
    BlankFields(s, lastDot, out[..8], out[8..]);
    for i := 0 to |s|
      invariant Field(out[..8], Base(s, lastDot, i), 8) && baseLen == Fill(Base(s, lastDot, i), 8)
      invariant Field(out[8..], Ext(s, lastDot, i), 3) && extLen == Fill(Ext(s, lastDot, i), 3)
    {
      var c := s[i];
      NextChar(s, lastDot, i);
      assert Base(s, lastDot, i) + [] == Base(s, lastDot, i) && Ext(s, lastDot, i) + [] == Ext(s, lastDot, i);
      if c != DOT {
        c := Folded(c);
        ghost var was := out[..];
        if lastDot < 0 || i <= lastDot {
          FieldGrows(out[..8], Base(s, lastDot, i), 8, c);
          if baseLen < 8 {
            out[baseLen] := c;
            baseLen := baseLen + 1;
            assert out[..8] == was[..8][baseLen - 1 := c] && out[8..] == was[8..];
          }
        } else {
          FieldGrows(out[8..], Ext(s, lastDot, i), 3, c);
          if extLen < 3 {
            out[8 + extLen] := c;
            extLen := extLen + 1;
            assert out[8..] == was[8..][extLen - 1 := c] && out[..8] == was[..8];
          }
        }
      }
    }
    WholeName(s, lastDot, out[..8], out[8..]);
    r := out[..];
    assert r == out[..8] + out[8..];
  }

  /** A field of `n` bytes holds `s`, cut to fit and padded. */
  predicate Field(f: seq<Byte>, s: seq<Byte>, n: nat) { f == Padded(Cut(s, n), n) }

  function Fill(s: seq<Byte>, n: nat): nat { if |s| > n then n else |s| }

  lemma BlankFields(s: seq<Byte>, d: int, base: seq<Byte>, ext: seq<Byte>)
    requires -1 <= d < |s| && |base| == 8 && |ext| == 3
    requires (forall i :: 0 <= i < 8 ==> base[i] == SPACE) && forall i :: 0 <= i < 3 ==> ext[i] == SPACE
    ensures Field(base, Base(s, d, 0), 8) && Fill(Base(s, d, 0), 8) == 0
    ensures Field(ext, Ext(s, d, 0), 3) && Fill(Ext(s, d, 0), 3) == 0
  {
    assert s[..0] == [];
  }

  lemma FieldGrows(f: seq<Byte>, s: seq<Byte>, n: nat, c: Byte)
    requires Field(f, s, n)
    ensures |f| == n && Fill(s, n) <= n
    ensures Fill(s, n) < n ==> Field(f[Fill(s, n) := c], s + [c], n) && Fill(s + [c], n) == Fill(s, n) + 1
    ensures Fill(s, n) == n ==> Field(f, s + [c], n) && Fill(s + [c], n) == n
  {
  }

  lemma NextChar(s: seq<Byte>, d: int, i: nat)
    requires i < |s| && d == LastDot(s)
    ensures var more := if s[i] == DOT then [] else [Folded(s[i])];
      if d < 0 || i <= d then Base(s, d, i + 1) == Base(s, d, i) + more && Ext(s, d, i + 1) == Ext(s, d, i)
      else Base(s, d, i + 1) == Base(s, d, i) && Ext(s, d, i + 1) == Ext(s, d, i) + more
  {
    hide Squeezed, LastDot;
    if d < 0 || i <= d {
      SqueezeNext(s, i);
      NoTail(s, d, i);
    } else {
      var t := s[d + 1..];
      SqueezeNext(t, i - d - 1);
      assert t[..i - d - 1] == s[d + 1..i] && t[..i - d] == s[d + 1..i + 1];
    }
  }

  lemma SqueezeNext(s: seq<Byte>, i: nat)
    requires i < |s|
    ensures Squeezed(s[..i + 1]) == Squeezed(s[..i]) + if s[i] == DOT then [] else [Folded(s[i])]
  {
    assert s[..i + 1][..i] == s[..i];
  }

  lemma NoTail(s: seq<Byte>, d: int, i: nat)
    requires i < |s| && d == LastDot(s) && (d < 0 || i <= d)
    ensures d == i ==> s[i] == DOT && Squeezed(s[d + 1..i + 1]) == []
    ensures d < 0 ==> s[i] != DOT
  {
  }

  lemma WholeName(s: seq<Byte>, d: int, base: seq<Byte>, ext: seq<Byte>)
    requires d == LastDot(s) && Field(base, Base(s, d, |s|), 8) && Field(ext, Ext(s, d, |s|), 3)
    ensures base + ext == To83(s)
  {
    hide Squeezed, Padded, Cut, LastDot;
    assert s[..|s|] == s;
    if d >= 0 {
      assert s[d + 1..|s|] == s[d + 1..];
    }
  }

  /** The base characters among the first `i`. */
  function Base(s: seq<Byte>, d: int, i: nat): seq<Byte>
    requires i <= |s| && d < |s|
  {
    if d < 0 || i <= d then Squeezed(s[..i]) else Squeezed(s[..d])
  }

  function Ext(s: seq<Byte>, d: int, i: nat): seq<Byte>
    requires i <= |s| && d < |s|
  {
    if d < 0 || i <= d then [] else Squeezed(s[d + 1..i])
  }

  /** Names that need no long-name entry: they read back from their 8.3 form. */
  predicate IsShort(name: CString) { LowerAll(From83(To83(name))) == LowerAll(name) }

  /** A character that may stand in an 8.3 name: neither dot nor space nor one of + , ; = [ and ]. */
  predicate Kept(c: Byte) { c != DOT && c != SPACE && !(c == 0x2B || c == 0x2C || c == 0x3B || c == 0x3D || c == 0x5B || c == 0x5D) }

  /** Up to eight characters, then nothing or a dot and one to three characters. */
  predicate InShape(name: seq<Byte>) {
    var n := |Before(name, DOT)|;
    && n <= 8 && (n < |name| ==> 2 <= |name| - n <= 4)
    && forall i :: 0 <= i < |name| && i != n ==> Kept(name[i])
  }

  /** Exactly the names of that shape are 8.3 names. */
  lemma ShortExactly(name: CString)
    ensures IsShort(name) <==> InShape(name)
  {
    hide To83, From83, InShape, Before;
    Reprinted(name);
    if IsShort(name) {
      ShortHasShape(name);
    }
    if InShape(name) {
      ShapeIsShort(name);
    }
  }

  lemma ShortHasShape(name: CString)
    requires IsShort(name)
    ensures InShape(name)
  {
    hide To83, From83, Before, LastDot, Squeezed, Padded, InShape, Kept;
    Reprinted(name);
    PartsKept(name);
    var base, ext := BasePart(name), ExtPart(name);
    ShapeOfPrinted(name, From83(To83(name)), Before(Cut(base, 8), SPACE), Before(Cut(ext, 3), SPACE));
  }

  lemma ShapeIsShort(name: CString)
    requires InShape(name)
    ensures IsShort(name)
  {
    hide To83, From83, Before, LastDot, Squeezed, Padded, InShape, Kept;
    Reprinted(name);
    ShapeSplits(name);
    var base, ext := BasePart(name), ExtPart(name);
    NoSpace(base);
    NoSpace(ext);
    assert Cut(base, 8) == base && Cut(ext, 3) == ext;
    SameLetters(name, LastDot(name), base, ext);
  }

  lemma SameLetters(name: seq<Byte>, d: int, base: seq<Byte>, ext: seq<Byte>)
    requires -1 <= d < |name| && |base| == (if d < 0 then |name| else d) && (d >= 0 ==> name[d] == DOT && |ext| == |name| - d - 1 > 0)
    requires d < 0 ==> ext == []
    requires forall i :: 0 <= i < |base| ==> base[i] == Upper(name[i])
    requires d >= 0 ==> forall i :: 0 <= i < |ext| ==> ext[i] == Upper(name[d + 1..][i])
    ensures LowerAll(if ext == [] then base else base + [DOT] + ext) == LowerAll(name)
  {
    var printed := if ext == [] then base else base + [DOT] + ext;
    assert |printed| == |name|;
    forall i | 0 <= i < |name| ensures Lower(printed[i]) == Lower(name[i]) {
      if d >= 0 && i > d {
        assert printed[i] == ext[i - d - 1] && name[d + 1..][i - d - 1] == name[i];
      }
    }
    assert LowerAll(printed) == LowerAll(name);
  }

  /** What the 8.3 form of a name prints as. */
  lemma Reprinted(name: CString)
    ensures var d := LastDot(name);
      var base, ext := BasePart(name), ExtPart(name);
      var p, e := Before(Cut(base, 8), SPACE), Before(Cut(ext, 3), SPACE);
      From83(To83(name)) == if e == [] then p else p + [DOT] + e
  {
    hide LastDot, Squeezed, Before, Padded;
    var d := LastDot(name);
    var base, ext := BasePart(name), ExtPart(name);
    SqueezedChars(if d < 0 then name else name[..d]);
    if d >= 0 {
      SqueezedChars(name[d + 1..]);
    }
    var b, x := Cut(base, 8), Cut(ext, 3);
    var n := To83(name);
    assert n[..8] == Padded(b, 8) && n[8..] == Padded(x, 3) && n[8] == Padded(x, 3)[0];
    BeforePadded(b, 8);
    BeforePadded(x, 3);
    var text := Before(n[..8], SPACE) + if n[8] == SPACE then [] else [DOT] + Before(n[8..], SPACE);
    assert 0 !in text;
    assert Before(text, 0) == text;
  }

  lemma BeforePadded(s: seq<Byte>, n: nat)
    requires |s| <= n && n > 0
    ensures Before(Padded(s, n), SPACE) == Before(s, SPACE)
    ensures Before(s, SPACE) == [] <==> Padded(s, n)[0] == SPACE
  {
    hide Before;
    var a := Before(s, SPACE);
    assert a == Padded(s, n)[..|a|];
    BeforeIs(Padded(s, n), SPACE, |a|);
    assert a != [] ==> a[0] == Padded(s, n)[0];
  }

  lemma {:induction false} BeforeIs(s: seq<Byte>, stop: Byte, n: nat)
    requires n <= |s| && stop !in s[..n] && (n < |s| ==> s[n] == stop)
    ensures Before(s, stop) == s[..n]
  {
    if n > 0 {
      assert s[0] == s[..n][0] && s[..n] == [s[0]] + s[1..][..n - 1];
      BeforeIs(s[1..], stop, n - 1);
    }
  }

  /** No dot and no replaced character comes out of squeezing. */
  lemma {:induction false} SqueezedChars(s: seq<Byte>)
    ensures forall c :: c in Squeezed(s) ==> c == SPACE || Kept(c)
    ensures 0 !in s ==> 0 !in Squeezed(s)
  {
    if s != [] {
      SqueezedChars(s[..|s| - 1]);
    }
  }

  lemma {:induction false} SqueezedWhole(s: seq<Byte>)
    requires forall i :: 0 <= i < |s| ==> Kept(s[i])
    ensures |Squeezed(s)| == |s| && forall i :: 0 <= i < |s| ==> Squeezed(s)[i] == Upper(s[i]) && Kept(Upper(s[i]))
  {
    if s != [] {
      SqueezedWhole(s[..|s| - 1]);
    }
  }

  lemma NoSpace(s: seq<Byte>)
    requires SPACE !in s
    ensures Before(s, SPACE) == s
  {
    assert s[..|s|] == s;
    BeforeIs(s, SPACE, |s|);
  }

  lemma PartsKept(name: CString)
    ensures var d := LastDot(name);
      var base, ext := BasePart(name), ExtPart(name);
      var p, e := Before(Cut(base, 8), SPACE), Before(Cut(ext, 3), SPACE);
      && |p| <= 8 && |e| <= 3 && (forall i :: 0 <= i < |p| ==> Kept(p[i])) && forall i :: 0 <= i < |e| ==> Kept(e[i])
  {
    hide LastDot, Squeezed, Before;
    var d := LastDot(name);
    var base, ext := BasePart(name), ExtPart(name);
    SqueezedChars(if d < 0 then name else name[..d]);
    if d >= 0 {
      SqueezedChars(name[d + 1..]);
    }
    var p, e := Before(Cut(base, 8), SPACE), Before(Cut(ext, 3), SPACE);
    forall i | 0 <= i < |p| ensures Kept(p[i]) {
      assert p[i] == base[i];
    }
    forall i | 0 <= i < |e| ensures Kept(e[i]) {
      assert e[i] == ext[i];
    }
  }

  /** Names that differ in case only have the same shape. */
  lemma ShapeOfPrinted(name: seq<Byte>, printed: seq<Byte>, p: seq<Byte>, e: seq<Byte>)
    requires |p| <= 8 && |e| <= 3 && (forall i :: 0 <= i < |p| ==> Kept(p[i])) && forall i :: 0 <= i < |e| ==> Kept(e[i])
    requires printed == (if e == [] then p else p + [DOT] + e) && LowerAll(name) == LowerAll(printed)
    ensures InShape(name)
  {
    hide Before;
    assert |name| == |printed|;
    forall i | 0 <= i < |name| ensures Kept(name[i]) == Kept(printed[i]) && (name[i] == DOT <==> printed[i] == DOT) {
      assert LowerAll(name)[i] == LowerAll(printed)[i];
    }
    DotAt(name, |p|);
  }

  lemma DotAt(s: seq<Byte>, n: nat)
    requires n <= |s| && (forall i :: 0 <= i < n ==> s[i] != DOT) && (n < |s| ==> s[n] == DOT)
    ensures |Before(s, DOT)| == n
  {
    BeforeIs(s, DOT, n);
  }

  /** A name in shape falls apart at its one dot, if it has one. */
  lemma ShapeSplits(name: seq<Byte>)
    requires InShape(name)
    ensures var d := LastDot(name);
      var base, ext := BasePart(name), ExtPart(name);
      && |base| <= 8 && |ext| <= 3 && SPACE !in base && SPACE !in ext && |base| == (if d < 0 then |name| else d)
      && (d >= 0 ==> |ext| == |name| - d - 1 > 0)
      && (forall i :: 0 <= i < |base| ==> base[i] == Upper(name[i]))
      && forall i :: 0 <= i < |ext| ==> ext[i] == Upper(name[d + 1..][i])
  {
    hide Before, LastDot, Squeezed;
    var n, d := |Before(name, DOT)|, LastDot(name);
    if n < |name| {
      assert name[n] == DOT && d == n;
      SqueezedWhole(name[..d]);
      SqueezedWhole(name[d + 1..]);
    } else {
      assert d < 0;
      SqueezedWhole(name);
    }
  }

  /** Only the last dot of a name divides; the others are dropped. */
  lemma InteriorDotsVanish(a: seq<Byte>, b: seq<Byte>, c: seq<Byte>)
    requires DOT !in c
    ensures To83(a + [DOT] + b + [DOT] + c) == To83(a + b + [DOT] + c)
  {
    hide Padded, Squeezed, LastDot;
    var s, t := a + [DOT] + b + [DOT] + c, a + b + [DOT] + c;
    DotDivides(a + [DOT] + b, c);
    DotDivides(a + b, c);
    SqueezedJoin(a, b);
    SqueezedJoin(a, [DOT] + b);
    SqueezedJoin([DOT], b);
    SqueezedDot();
    assert a + [DOT] + b == a + ([DOT] + b);
  }

  lemma SqueezedDot()
    ensures Squeezed([DOT]) == [] && forall s: seq<Byte> :: [] + s == s
  {
    assert [DOT][..0] == [];
  }

  lemma DotDivides(x: seq<Byte>, c: seq<Byte>)
    requires DOT !in c
    ensures BasePart(x + [DOT] + c) == Squeezed(x) && ExtPart(x + [DOT] + c) == Squeezed(c)
  {
    hide Squeezed, LastDot;
    var s, d := x + [DOT] + c, LastDot(x + [DOT] + c);
    assert s[|x|] == DOT;
    assert forall i :: |x| < i < |s| ==> s[i] == c[i - |x| - 1];
    assert d == |x|;
    assert s[..d] == x && s[d + 1..] == c;
  }

  lemma {:induction false} SqueezedJoin(a: seq<Byte>, b: seq<Byte>)
    ensures Squeezed(a + b) == Squeezed(a) + Squeezed(b)
  {
    if b == [] {
      assert a + b == a;
    } else {
      SqueezedJoin(a, b[..|b| - 1]);
      assert (a + b)[..|a + b| - 1] == a + b[..|b| - 1];
    }
  }

  /** Writing _ for any of + , ; = [ and ] gives the same 8.3 form. */
  lemma ReplacedAlike(s: seq<Byte>, t: seq<Byte>)
    requires |s| == |t|
    requires forall i :: 0 <= i < |s| ==> t[i] == s[i] || (t[i] == 0x5F && (s[i] == 0x2B || s[i] == 0x2C || s[i] == 0x3B || s[i] == 0x3D || s[i] == 0x5B || s[i] == 0x5D))
    ensures To83(s) == To83(t)
  {
    hide Squeezed, LastDot, Padded;
    SameDot(s, t);
    var d := LastDot(s);
    SqueezedAlike(s, t);
    if d >= 0 {
      SqueezedAlike(s[..d], t[..d]);
      SqueezedAlike(s[d + 1..], t[d + 1..]);
    }
  }

  lemma {:induction false} SameDot(s: seq<Byte>, t: seq<Byte>)
    requires |s| == |t| && forall i :: 0 <= i < |s| ==> (s[i] == DOT <==> t[i] == DOT)
    ensures LastDot(s) == LastDot(t)
  {
    if s != [] && s[|s| - 1] != DOT {
      SameDot(s[..|s| - 1], t[..|s| - 1]);
    }
  }

  lemma {:induction false} SqueezedAlike(s: seq<Byte>, t: seq<Byte>)
    requires |s| == |t| && forall i :: 0 <= i < |s| ==> (s[i] == DOT <==> t[i] == DOT) && Folded(s[i]) == Folded(t[i])
    ensures Squeezed(s) == Squeezed(t)
  {
    if s != [] {
      SqueezedAlike(s[..|s| - 1], t[..|s| - 1]);
    }
  }
}
