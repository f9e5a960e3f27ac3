/** What the file calls of fs/vfs.c promise, without clusters: named byte sequences and descriptors
    with positions. */
module FileSpec {
  import opened Arithmetic
  import opened Blocks
  import opened SectorCache
  import opened FatTable
  import opened FileBytes
  import opened DirSlots
  import opened FileSystem

  /** The VFS_O_ bits. */
  datatype Flags = Flags(read: bool, write: bool, create: bool, append: bool, trunc: bool)

  datatype Fd = Shut | Opened(key: Key, pos: nat, flags: Flags)

  datatype Spec = Spec(files: map<Key, seq<Byte>>, fds: seq<Fd>)

  predicate IsOpen(s: Spec, fd: int) {
    0 <= fd < |s.fds| && s.fds[fd].Opened? && s.fds[fd].key in s.files
  }

  function Opening(s: Spec, fd: nat, key: Key, flags: Flags): Spec
    requires fd < |s.fds|
  {
    var bytes := if key in s.files && !flags.trunc then s.files[key] else [];
    Spec(s.files[key := bytes], s.fds[fd := Opened(key, if flags.append then |bytes| else 0, flags)])
  }

  function Closing(s: Spec, fd: nat): Spec
    requires fd < |s.fds|
  {
    s.(fds := s.fds[fd := Shut])
  }

  /** The bytes a read of `len` returns: from the position up to the end of the file. */
  function Reading(s: Spec, fd: int, len: nat): seq<Byte>
    requires IsOpen(s, fd)
  {
    var bytes, pos := s.files[s.fds[fd].key], s.fds[fd].pos;
    if pos >= |bytes| then [] else bytes[pos..pos + Min(len, |bytes| - pos)]
  }

  function Moved(s: Spec, fd: int, pos: nat): Spec
    requires IsOpen(s, fd)
  {
    s.(fds := s.fds[fd := s.fds[fd].(pos := pos)])
  }

  function AfterRead(s: Spec, fd: int, len: nat): Spec
    requires IsOpen(s, fd)
  {
    Moved(s, fd, s.fds[fd].pos + |Reading(s, fd, len)|)
  }

  /** Reads at and before the end of the file. */
  lemma ReadingIs(s: Spec, fd: int, len: nat)
    requires IsOpen(s, fd)
    ensures var bytes, pos := s.files[s.fds[fd].key], s.fds[fd].pos;
      if pos >= |bytes| then Reading(s, fd, len) == [] && AfterRead(s, fd, len) == s == Moved(s, fd, pos)
      else
        var n := Min(len, |bytes| - pos);
        Reading(s, fd, len) == bytes[pos..pos + n] && AfterRead(s, fd, len) == Moved(s, fd, pos + n)
  {
    if s.fds[fd].pos >= |s.files[s.fds[fd].key]| {
      assert s.fds[fd := s.fds[fd].(pos := s.fds[fd].pos)] == s.fds;
    }
  }

  function Writing(s: Spec, fd: int, buf: seq<Byte>): Spec
    requires IsOpen(s, fd)
  {
    var f := s.fds[fd];
    Moved(s, fd, f.pos + |buf|).(files := s.files[f.key := Overwritten(s.files[f.key], f.pos, buf)])
  }

  function Deleting(s: Spec, key: Key): Spec { s.(files := s.files - {key}) }

  /** Where a seek goes: never before the start, and kept in 32 bits. */
  function Target(base: nat, offset: int): Word {
    if base + offset < 0 then 0 else (base + offset) % U32_RANGE
  }

  /** Writing, seeking back and reading returns what was written. */
  lemma WriteThenRead(s: Spec, fd: int, buf: seq<Byte>)
    requires IsOpen(s, fd) && buf != []
    ensures var t := Moved(Writing(s, fd, buf), fd, s.fds[fd].pos);
      IsOpen(t, fd) && Reading(t, fd, |buf|) == buf
  {
    var bytes, pos := s.files[s.fds[fd].key], s.fds[fd].pos;
    var n := if pos + |buf| > |bytes| then pos + |buf| else |bytes|;
    assert Patched(bytes, n, pos, buf)[pos..pos + |buf|] == buf;
  }

  /** One write, wherever it lands: a slice of one file replaced, a gap before it filled with zeros,
      every other byte and every other file as before. */
  lemma WriteIsLocal(s: Spec, fd: int, buf: seq<Byte>)
    requires IsOpen(s, fd) && buf != []
    ensures var f, bytes, after := s.fds[fd], s.files[s.fds[fd].key], Writing(s, fd, buf).files;
      && after.Keys == s.files.Keys
      && (forall key :: key in s.files && key != f.key ==> after[key] == s.files[key])
      && |after[f.key]| == (if f.pos + |buf| > |bytes| then f.pos + |buf| else |bytes|)
      && after[f.key][f.pos..f.pos + |buf|] == buf
      && (forall i :: 0 <= i < |bytes| && !(f.pos <= i < f.pos + |buf|) ==> after[f.key][i] == bytes[i])
      && (forall i :: |bytes| <= i < f.pos ==> after[f.key][i] == 0)
  {
  }

  /** A write moves its own descriptor by the number of bytes, and no other; flags and names stay. */
  lemma WriteMoves(s: Spec, fd: int, buf: seq<Byte>)
    requires IsOpen(s, fd)
    ensures var t := Writing(s, fd, buf);
      && |t.fds| == |s.fds| && t.fds[fd].Opened?
      && t.fds[fd].pos == s.fds[fd].pos + |buf| && t.fds[fd].key == s.fds[fd].key && t.fds[fd].flags == s.fds[fd].flags
      && (forall other :: 0 <= other < |s.fds| && other != fd ==> t.fds[other] == s.fds[other])
  {
  }

  /** Two writes in a row are one write of both pieces. */
  lemma WritesJoin(s: Spec, fd: int, a: seq<Byte>, b: seq<Byte>)
    requires IsOpen(s, fd)
    ensures IsOpen(Writing(s, fd, a), fd) && Writing(Writing(s, fd, a), fd, b) == Writing(s, fd, a + b)
  {
    hide Overwritten;
    var f := s.fds[fd];
    OverwritesJoin(s.files[f.key], f.pos, a, b);
    var s1 := Writing(s, fd, a);
    assert s1.fds[fd] == f.(pos := f.pos + |a|);
    assert s1.fds[fd := f.(pos := f.pos + |a + b|)] == s.fds[fd := f.(pos := f.pos + |a + b|)];
    assert s1.files[f.key := Overwritten(s1.files[f.key], f.pos + |a|, b)] == s.files[f.key := Overwritten(s.files[f.key], f.pos, a + b)];
  }

  lemma OverwritesJoin(bytes: seq<Byte>, off: nat, a: seq<Byte>, b: seq<Byte>)
    ensures Overwritten(Overwritten(bytes, off, a), off + |a|, b) == Overwritten(bytes, off, a + b)
  {
    if a == [] {
      assert a + b == b;
    } else if b == [] {
      assert a + b == a;
    } else {
      BothOverwritten(bytes, off, a, b);
    }
  }

  lemma BothOverwritten(bytes: seq<Byte>, off: nat, a: seq<Byte>, b: seq<Byte>)
    requires a != [] && b != []
    ensures Overwritten(Overwritten(bytes, off, a), off + |a|, b) == Overwritten(bytes, off, a + b)
  {
    hide Overwritten;
    var one, both := Overwritten(bytes, off, a), Overwritten(bytes, off, a + b);
    var two := Overwritten(one, off + |a|, b);
    OverwrittenSize(bytes, off, a);
    OverwrittenSize(bytes, off, a + b);
    OverwrittenSize(one, off + |a|, b);
    forall i | 0 <= i < |both| ensures two[i] == both[i] {
      OverwrittenAt(bytes, off, a + b, i);
      OverwrittenAt(one, off + |a|, b, i);
      if i < |one| {
        OverwrittenAt(bytes, off, a, i);
      }
    }
  }

  lemma OverwrittenSize(bytes: seq<Byte>, off: nat, piece: seq<Byte>)
    requires piece != []
    ensures |Overwritten(bytes, off, piece)| == if off + |piece| > |bytes| then off + |piece| else |bytes|
  {
  }

  lemma OverwrittenAt(bytes: seq<Byte>, off: nat, piece: seq<Byte>, i: nat)
    requires piece != [] && i < |Overwritten(bytes, off, piece)|
    ensures Overwritten(bytes, off, piece)[i] ==
      if off <= i < off + |piece| then piece[i - off] else if i < |bytes| then bytes[i] else 0
  {
  }

  /** Two reads in a row are one read of both lengths. */
  lemma ReadsJoin(s: Spec, fd: int, m: nat, n: nat)
    requires IsOpen(s, fd)
    ensures var s1 := AfterRead(s, fd, m);
      && IsOpen(s1, fd) && Reading(s, fd, m) + Reading(s1, fd, n) == Reading(s, fd, m + n)
      && AfterRead(s1, fd, n) == AfterRead(s, fd, m + n)
  {
    var bytes, f := s.files[s.fds[fd].key], s.fds[fd];
    var s1 := AfterRead(s, fd, m);
    assert s1.fds[fd] == f.(pos := f.pos + |Reading(s, fd, m)|);
    assert |Reading(s, fd, m)| + |Reading(s1, fd, n)| == |Reading(s, fd, m + n)|;
    var s2, s3 := AfterRead(s1, fd, n), AfterRead(s, fd, m + n);
    assert s2.fds == s3.fds;
  }

  /** A read gives the file's bytes from the position on, as many as asked for or as there are; it
      moves its own descriptor by them and changes nothing else. */
  lemma ReadIs(s: Spec, fd: int, len: nat)
    requires IsOpen(s, fd)
    ensures var r, t, f := Reading(s, fd, len), AfterRead(s, fd, len), s.fds[fd];
      && t.files == s.files && |t.fds| == |s.fds| && t.fds[fd] == Opened(f.key, f.pos + |r|, f.flags)
      && (forall other :: 0 <= other < |s.fds| && other != fd ==> t.fds[other] == s.fds[other])
      && |r| <= len && (|r| < len ==> f.pos + |r| >= |s.files[f.key]|)
      && (forall i :: 0 <= i < |r| ==> f.pos + i < |s.files[f.key]| && r[i] == s.files[f.key][f.pos + i])
  {
  }

  /** What opening does: the file is there, empty if it is new or was to be truncated and as it was
      otherwise; the descriptor stands at its start, or at its end for appending. Nothing else moves. */
  lemma OpenIs(s: Spec, fd: nat, key: Key, flags: Flags)
    requires fd < |s.fds|
    ensures var t := Opening(s, fd, key, flags);
      && IsOpen(t, fd) && t.fds[fd].key == key && t.fds[fd].flags == flags
      && t.files.Keys == s.files.Keys + {key}
      && (key in s.files && !flags.trunc ==> t.files[key] == s.files[key] && t.fds[fd].pos == if flags.append then |s.files[key]| else 0)
      && (key !in s.files || flags.trunc ==> t.files[key] == [] && t.fds[fd].pos == 0)
      && (forall other :: other in s.files && other != key ==> t.files[other] == s.files[other])
      && |t.fds| == |s.fds| && (forall a :: 0 <= a < |s.fds| && a != fd ==> t.fds[a] == s.fds[a])
  {
  }

  /** Opening a file for appending and writing puts the bytes behind those it had. */
  lemma AppendExtends(s: Spec, fd: nat, key: Key, flags: Flags, buf: seq<Byte>)
    requires fd < |s.fds| && key in s.files && flags.append && !flags.trunc
    ensures var t := Opening(s, fd, key, flags); IsOpen(t, fd) && Writing(t, fd, buf).files == s.files[key := s.files[key] + buf]
  {
    assert Overwritten(s.files[key], |s.files[key]|, buf) == s.files[key] + buf;
  }

  /** Opening a file with truncation and writing leaves what was written, and the whole of it reads
      back through a descriptor opened afterwards. */
  lemma ReplaceThenRead(s: Spec, fd: nat, key: Key, flags: Flags, again: Flags, buf: seq<Byte>, len: nat)
    requires fd < |s.fds| && flags.trunc && !again.trunc && !again.append && len >= |buf|
    ensures var t := Opening(s, fd, key, flags);
      && IsOpen(t, fd) && Writing(t, fd, buf).files == s.files[key := buf]
      && var u := Opening(Closing(Writing(t, fd, buf), fd), fd, key, again);
         IsOpen(u, fd) && Reading(u, fd, len) == buf
  {
    assert Overwritten([], 0, buf) == buf;
  }

  /** Closing shuts one descriptor, deleting takes away one file, seeking moves one descriptor. */
  lemma OthersStay(s: Spec, fd: int, key: Key, pos: nat)
    requires 0 <= fd < |s.fds|
    ensures var t := Closing(s, fd);
      && t.files == s.files && |t.fds| == |s.fds| && t.fds[fd] == Shut && !IsOpen(t, fd)
      && forall other :: 0 <= other < |s.fds| && other != fd ==> t.fds[other] == s.fds[other]
    ensures var t := Deleting(s, key);
      && t.fds == s.fds && key !in t.files
      && forall other :: other != key ==> (other in t.files <==> other in s.files) && (other in s.files ==> t.files[other] == s.files[other])
    ensures IsOpen(s, fd) ==>
      var t := Moved(s, fd, pos);
      && t.files == s.files && |t.fds| == |s.fds| && t.fds[fd] == Opened(s.fds[fd].key, pos, s.fds[fd].flags)
      && forall other :: 0 <= other < |s.fds| && other != fd ==> t.fds[other] == s.fds[other]
  {
  }

  /** Where a seek goes: to the sum, but not before the start, and 2^32 further down when the sum does
      not fit 32 bits. */
  lemma TargetIs(base: Word, offset: int)
    requires -0x8000_0000 <= offset < 0x8000_0000
    ensures 0 <= base + offset < 0x1_0000_0000 ==> Target(base, offset) as int == base + offset
    ensures base + offset < 0 ==> Target(base, offset) == 0
    ensures base + offset >= 0x1_0000_0000 ==> Target(base, offset) as int == base + offset - 0x1_0000_0000
  {
  }

  /** Seeking forward and back again ends where it began exactly if the way there was not cut off at
      either end. */
  lemma ThereAndBack(base: Word, offset: int)
    requires -0x8000_0000 < offset < 0x8000_0000
    ensures Target(Target(base, offset), -offset) == base <==> 0 <= base + offset < 0x1_0000_0000
  {
  }

  datatype Chunk = Chunk(off: nat, piece: seq<Byte>)

  function Writes(bytes: seq<Byte>, ws: seq<Chunk>): seq<Byte> {
    if ws == [] then bytes
    else Overwritten(Writes(bytes, ws[..|ws| - 1]), ws[|ws| - 1].off, ws[|ws| - 1].piece)
  }

  /** The byte the last write to position `i` put there. */
  function LastAt(ws: seq<Chunk>, i: nat): Option<Byte> {
    if ws == [] then None
    else
      var w := ws[|ws| - 1];
      if w.off <= i < w.off + |w.piece| then Some(w.piece[i - w.off]) else LastAt(ws[..|ws| - 1], i)
  }

  /** After any run of writes each byte of a file is the last one written there, else the one it
      began with, else a zero. */
  lemma {:induction false} LastWriteWins(bytes: seq<Byte>, ws: seq<Chunk>, i: nat)
    requires i < |Writes(bytes, ws)|
    ensures Writes(bytes, ws)[i] ==
      match LastAt(ws, i) case Some(b) => b case None => if i < |bytes| then bytes[i] else 0
  {
    if ws != [] {
      var before := Writes(bytes, ws[..|ws| - 1]);
      if i < |before| {
        LastWriteWins(bytes, ws[..|ws| - 1], i);
      } else {
        NothingBeyond(bytes, ws[..|ws| - 1], i);
      }
    }
  }

  lemma {:induction false} NothingBeyond(bytes: seq<Byte>, ws: seq<Chunk>, i: nat)
    requires i >= |Writes(bytes, ws)|
    ensures LastAt(ws, i) == None && i >= |bytes|
  {
    if ws != [] {
      NothingBeyond(bytes, ws[..|ws| - 1], i);
    }
  }
}
