/** Fragmentation and reassembly of net/ipv4.c (section 3.2 of RFC 791), with fragments as records of
    datagram, offset, more-flag and bytes. */
module Reassembly {
  import opened Arithmetic
  import opened Blocks
  import opened SectorCache
  import opened FatTable

  const PACKET_SIZE: nat := 1536     // NET_PACKET_BUFFER_SIZE
  const BLOCKS: nat := 192           // of eight bytes each
  const SLOTS: nat := 4
  const MAX_CHUNK: nat := 1480
  const LIFETIME: nat := 100

  /** What tells datagrams apart. */
  datatype Key = Key(src: Word, dst: Word, id: nat, proto: Byte)

  datatype Frag = Frag(off: nat, more: bool, bytes: seq<Byte>)

  /** A piece of payload `p`, cut at a multiple of eight unless it is the last. */
  ghost predicate Cut(p: seq<Byte>, f: Frag) {
    && f.off % 8 == 0 && f.bytes != [] && f.off + |f.bytes| <= |p|
    && f.bytes == p[f.off..f.off + |f.bytes|]
    && (f.more <==> f.off + |f.bytes| < |p|)
    && (f.more ==> |f.bytes| % 8 == 0)
  }

  /** A fragment that is no fragment: the whole datagram. */
  predicate Unfragmented(f: Frag) { f.off == 0 && !f.more }

  /** What ipv4_send makes of payload `p`: pieces of it, or the payload as it is, which may be empty. */
  ghost predicate Piece(p: seq<Byte>, f: Frag) { Cut(p, f) || f == Frag(0, false, p) }

  /** The reassembly buffer reaches as far as the fragment. */
  predicate Fits(f: Frag) { f.off + |f.bytes| <= PACKET_SIZE }

  /** Eight-byte block `i` belongs to a fragment. */
  predicate Covers(f: Frag, i: nat) { f.off / 8 <= i < (f.off + |f.bytes| + 7) / 8 }

  ghost predicate AnyCovers(got: seq<Frag>, i: nat) { exists k :: 0 <= k < |got| && Covers(got[k], i) }

  ghost predicate HasLast(got: seq<Frag>) { exists k :: 0 <= k < |got| && !got[k].more }

  /** The last fragment is there and every block of the payload is covered. */
  ghost predicate Complete(p: seq<Byte>, got: seq<Frag>) {
    HasLast(got) && forall i: nat :: i < (|p| + 7) / 8 ==> AnyCovers(got, i)
  }

  /** Order and repetition do not matter: whatever contains a complete set is complete. */
  lemma CompleteMonotone(p: seq<Byte>, a: seq<Frag>, b: seq<Frag>)
    requires Complete(p, a) && forall f :: f in a ==> f in b
    ensures Complete(p, b)
  {
    var k :| 0 <= k < |a| && !a[k].more;
    assert a[k] in b;
    forall i: nat | i < (|p| + 7) / 8 ensures AnyCovers(b, i) {
      assert AnyCovers(a, i);
      var j :| 0 <= j < |a| && Covers(a[j], i);
      assert a[j] in b;
    }
  }

  lemma OneMoreCovers(got: seq<Frag>, f: Frag, i: nat)
    ensures AnyCovers(got + [f], i) <==> AnyCovers(got, i) || Covers(f, i)
    ensures HasLast(got + [f]) <==> HasLast(got) || !f.more
  {
    var all := got + [f];
    assert all[|got|] == f;
    if AnyCovers(got, i) {
      var k :| 0 <= k < |got| && Covers(got[k], i);
      assert all[k] == got[k];
    }
    if HasLast(got) {
      var k :| 0 <= k < |got| && !got[k].more;
      assert all[k] == got[k];
    }
  }

  /** The whole datagram is its payload, and complete whatever came before. */
  lemma WholeCompletes(p: seq<Byte>, got: seq<Frag>, f: Frag)
    requires Piece(p, f) && Unfragmented(f)
    ensures f.bytes == p && Complete(p, got + [f])
  {
    forall i: nat | i < (|p| + 7) / 8 ensures AnyCovers(got + [f], i) {
      OneMoreCovers(got, f, i);
    }
    OneMoreCovers(got, f, 0);
  }

  /** One reassembly slot. */
  datatype FragSlot = FragSlot(active: bool, key: Key, totalLen: nat, maxSeen: nat, lastUpdate: Word, blocks: seq<bool>, data: seq<Byte>)

  /** A slot taken for a datagram, all zero otherwise. */
  function Opened(key: Key): FragSlot {
    FragSlot(true, key, 0, 0, 0, seq(BLOCKS, _ => false), seq(PACKET_SIZE, _ => 0))
  }

  /** The data in a block is the payload's. */
  ghost predicate BlockHolds(data: seq<Byte>, p: seq<Byte>, i: nat)
    requires |data| == PACKET_SIZE
  {
    forall j :: 8 * i <= j < 8 * i + 8 && j < |p| && j < PACKET_SIZE ==> data[j] == p[j]
  }

  /** The slot holds exactly what the fragments `got` of payload `p` brought. */
  ghost predicate Holds(s: FragSlot, p: seq<Byte>, got: seq<Frag>) {
    && |s.blocks| == BLOCKS && |s.data| == PACKET_SIZE
    && (forall k :: 0 <= k < |got| ==> Cut(p, got[k]) && Fits(got[k]))
    && (forall i :: 0 <= i < BLOCKS ==> (s.blocks[i] <==> AnyCovers(got, i)))
    && s.totalLen == (if HasLast(got) then |p| else 0)
    && (forall i :: 0 <= i < BLOCKS && s.blocks[i] ==> BlockHolds(s.data, p, i))
  }

  lemma OpenedHolds(key: Key, p: seq<Byte>)
    ensures Holds(Opened(key), p, [])
  {
  }

  /** ipv4_mark_blocks */
  method MarkBlocks(blocks: seq<bool>, f: Frag) returns (r: seq<bool>)
    requires |blocks| == BLOCKS
    ensures |r| == BLOCKS && forall i :: 0 <= i < BLOCKS ==> (r[i] <==> blocks[i] || Covers(f, i))
  {
    r := blocks;
    var i, end := f.off / 8, (f.off + |f.bytes| + 7) / 8;
    while i < end && i < BLOCKS
      invariant f.off / 8 <= i && |r| == BLOCKS
      invariant forall k :: 0 <= k < BLOCKS ==> (r[k] <==> blocks[k] || (f.off / 8 <= k < i && k < end))
    {
      r := r[i := true];
      i := i + 1;
    }
  }

  /** ipv4_all_blocks_present */
  method AllBlocksPresent(blocks: seq<bool>, totalLen: nat) returns (all: bool)
    requires |blocks| == BLOCKS && totalLen <= PACKET_SIZE
    ensures all <==> forall i :: 0 <= i < (totalLen + 7) / 8 ==> blocks[i]
  {
    for i := 0 to (totalLen + 7) / 8
      invariant forall k :: 0 <= k < i ==> blocks[k]
    {
      if !blocks[i] {
        return false;
      }
    }
    return true;
  }

  /** The slot after a fragment was copied in. */
  function Filled(s: FragSlot, f: Frag, blocks: seq<bool>, now: Word): FragSlot
    requires f.off + |f.bytes| <= |s.data|
  {
    var end := f.off + |f.bytes|;
    s.(data := s.data[..f.off] + f.bytes + s.data[end..], blocks := blocks, lastUpdate := now,
       maxSeen := if end > s.maxSeen then end else s.maxSeen, totalLen := if f.more then s.totalLen else end)
  }

  lemma FilledHolds(s: FragSlot, p: seq<Byte>, got: seq<Frag>, f: Frag, blocks: seq<bool>, now: Word)
    requires Holds(s, p, got) && Cut(p, f) && Fits(f) && |blocks| == BLOCKS
    requires forall i :: 0 <= i < BLOCKS ==> (blocks[i] <==> s.blocks[i] || Covers(f, i))
    ensures Holds(Filled(s, f, blocks, now), p, got + [f])
  {
    hide AnyCovers, HasLast;
    var r := Filled(s, f, blocks, now);
    OneMoreCovers(got, f, 0);
    forall i | 0 <= i < BLOCKS ensures r.blocks[i] <==> AnyCovers(got + [f], i) {
      OneMoreCovers(got, f, i);
    }
    forall i | 0 <= i < BLOCKS && r.blocks[i] ensures BlockHolds(r.data, p, i) {
      BlockFilled(s, p, f, r.data, i);
    }
    LastMeansAll(p, got);
  }

  /** A fragment fills its blocks with the payload's bytes and leaves the others alone. */
  lemma BlockFilled(s: FragSlot, p: seq<Byte>, f: Frag, data: seq<Byte>, i: nat)
    requires |s.data| == PACKET_SIZE && Cut(p, f) && Fits(f)
    requires data == s.data[..f.off] + f.bytes + s.data[f.off + |f.bytes|..]
    requires Covers(f, i) || BlockHolds(s.data, p, i)
    ensures BlockHolds(data, p, i)
  {
  }

  lemma LastMeansAll(p: seq<Byte>, got: seq<Frag>)
    requires forall k :: 0 <= k < |got| ==> Cut(p, got[k]) && Fits(got[k])
    ensures HasLast(got) ==> 0 < |p| <= PACKET_SIZE
  {
  }

  /** A slot is ready exactly when its fragments are complete, and then it holds the payload. */
  lemma ReadyIsComplete(s: FragSlot, p: seq<Byte>, got: seq<Frag>)
    requires Holds(s, p, got)
    ensures (s.totalLen != 0 && forall i :: 0 <= i < (s.totalLen + 7) / 8 ==> s.blocks[i]) <==> Complete(p, got)
    ensures Complete(p, got) ==> s.totalLen == |p| && s.data[..|p|] == p
  {
    hide AnyCovers;
    LastMeansAll(p, got);
    if Complete(p, got) {
      forall j | 0 <= j < |p| ensures s.data[j] == p[j] {
        assert AnyCovers(got, j / 8);
        assert BlockHolds(s.data, p, j / 8);
      }
    }
  }

  /** Active slots belong to different datagrams among `sent` and hold what arrived of them. */
  ghost predicate TableOk(slots: seq<FragSlot>, got: seq<seq<Frag>>, sent: map<Key, seq<Byte>>) {
    && |slots| == SLOTS == |got|
    && (forall k :: 0 <= k < SLOTS && slots[k].active ==> slots[k].key in sent && Holds(slots[k], sent[slots[k].key], got[k]))
    && (forall j, k :: 0 <= j < k < SLOTS && slots[j].active && slots[k].active ==> slots[j].key != slots[k].key)
    && (forall k :: 0 <= k < SLOTS && !slots[k].active ==> got[k] == [])
  }

  /** What has arrived of a datagram, by slot contents. */
  ghost function GotIn(slots: seq<FragSlot>, got: seq<seq<Frag>>, key: Key): seq<Frag> {
    if exists k :: 0 <= k < |slots| && k < |got| && slots[k].active && slots[k].key == key then
      var k :| 0 <= k < |slots| && k < |got| && slots[k].active && slots[k].key == key;
      got[k]
    else []
  }

  lemma GotIs(slots: seq<FragSlot>, got: seq<seq<Frag>>, sent: map<Key, seq<Byte>>, k: nat)
    requires TableOk(slots, got, sent) && k < SLOTS && slots[k].active
    ensures GotIn(slots, got, slots[k].key) == got[k]
    ensures forall j :: 0 <= j < SLOTS && j != k && slots[j].active ==> slots[j].key != slots[k].key
  {
    hide Holds;
    forall j | 0 <= j < SLOTS && j != k && slots[j].active ensures slots[j].key != slots[k].key {
      if j < k {
        assert slots[j].active && slots[k].active;
      }
    }
  }

  lemma GotNothing(slots: seq<FragSlot>, got: seq<seq<Frag>>, key: Key)
    requires forall j :: 0 <= j < |slots| && slots[j].active ==> slots[j].key != key
    ensures GotIn(slots, got, key) == []
  {
  }

  /** One slot changed, for the datagram `key` that no other slot is for. */
  lemma SlotChanged(slots: seq<FragSlot>, got: seq<seq<Frag>>, sent: map<Key, seq<Byte>>, k: nat, key: Key, s: FragSlot, g: seq<Frag>)
    requires TableOk(slots, got, sent) && k < SLOTS && (slots[k].active ==> slots[k].key == key)
    requires forall j :: 0 <= j < SLOTS && j != k && slots[j].active ==> slots[j].key != key
    requires if s.active then s.key == key && key in sent && Holds(s, sent[key], g) else g == []
    ensures TableOk(slots[k := s], got[k := g], sent)
    ensures GotIn(slots[k := s], got[k := g], key) == g
    ensures forall other :: other != key ==> GotIn(slots[k := s], got[k := g], other) == GotIn(slots, got, other)
  {
    hide Holds;
    var slots1, got1 := slots[k := s], got[k := g];
    if s.active {
      GotIs(slots1, got1, sent, k);
    } else {
      GotNothing(slots1, got1, key);
    }
    forall other | other != key ensures GotIn(slots1, got1, other) == GotIn(slots, got, other) {
      if j :| 0 <= j < SLOTS && slots[j].active && slots[j].key == other {
        GotIs(slots, got, sent, j);
        GotIs(slots1, got1, sent, j);
      } else {
        GotNothing(slots, got, other);
        GotNothing(slots1, got1, other);
      }
    }
  }

  /** What a slot has of its datagram, and when the last of it came. */
  datatype Pending = Pending(frags: seq<Frag>, last: Word)

  ghost function ActiveKeys(slots: seq<FragSlot>): set<Key> { set k | 0 <= k < |slots| && slots[k].active :: slots[k].key }

  ghost function SlotOf(slots: seq<FragSlot>, key: Key): (k: nat)
    requires key in ActiveKeys(slots)
    ensures k < |slots| && slots[k].active && slots[k].key == key
  {
    var k :| 0 <= k < |slots| && slots[k].active && slots[k].key == key;
    k
  }

  /** The datagrams under reassembly. */
  ghost function TableOf(slots: seq<FragSlot>, got: seq<seq<Frag>>): (m: map<Key, Pending>)
    requires |slots| == |got|
  {
    map key | key in ActiveKeys(slots) :: Pending(got[SlotOf(slots, key)], slots[SlotOf(slots, key)].lastUpdate)
  }

  lemma TableAt(slots: seq<FragSlot>, got: seq<seq<Frag>>, sent: map<Key, seq<Byte>>, k: nat)
    requires TableOk(slots, got, sent) && k < SLOTS && slots[k].active
    ensures slots[k].key in TableOf(slots, got) && TableOf(slots, got)[slots[k].key] == Pending(got[k], slots[k].lastUpdate)
  {
    hide Holds;
    GotIs(slots, got, sent, k);
    assert slots[k].key in ActiveKeys(slots);
    assert SlotOf(slots, slots[k].key) == k;
  }

  /** One slot changed, for the datagram `key` that no other slot is for. */
  lemma TableChanged(slots: seq<FragSlot>, got: seq<seq<Frag>>, sent: map<Key, seq<Byte>>, k: nat, key: Key, s: FragSlot, g: seq<Frag>)
    requires TableOk(slots, got, sent) && k < SLOTS && (slots[k].active ==> slots[k].key == key)
    requires forall j :: 0 <= j < SLOTS && j != k && slots[j].active ==> slots[j].key != key
    requires TableOk(slots[k := s], got[k := g], sent) && (s.active ==> s.key == key)
    ensures TableOf(slots[k := s], got[k := g]) ==
      if s.active then TableOf(slots, got)[key := Pending(g, s.lastUpdate)] else TableOf(slots, got) - {key}
  {
    hide Holds, TableOf, TableOk;
    TableShape(slots, got, sent);
    var slots1, got1 := slots[k := s], got[k := g];
    var m0, m1 := TableOf(slots, got), TableOf(slots1, got1);
    TableKeys(slots, got);
    TableKeys(slots1, got1);
    forall other | other != key ensures other in m1 <==> other in m0 {
      if other in m0 {
        var j := SlotOf(slots, other);
        assert slots1[j].active && slots1[j].key == other;
      }
      if other in m1 {
        var j := SlotOf(slots1, other);
        assert slots[j].active && slots[j].key == other;
      }
    }
    forall other | other != key && other in m0 ensures m1[other] == m0[other] {
      var j := SlotOf(slots, other);
      TableAt(slots, got, sent, j);
      TableAt(slots1, got1, sent, j);
    }
    if s.active {
      TableAt(slots1, got1, sent, k);
    } else if key in m1 {
      var j := SlotOf(slots1, key);
      assert false;
    }
  }

  lemma TableKeys(slots: seq<FragSlot>, got: seq<seq<Frag>>)
    requires |slots| == |got|
    ensures TableOf(slots, got).Keys == ActiveKeys(slots)
  {
  }

  class Reassembler {
    const slots: array<FragSlot>
    ghost var got: seq<seq<Frag>>

    /** ipv4_init */
    constructor ()
      ensures fresh(slots) && forall sent: map<Key, seq<Byte>> :: Inv(sent)
      ensures forall key :: Got(key) == []
    {
      slots := new FragSlot[SLOTS](_ => Opened(Key(0, 0, 0, 0)).(active := false));
      got := [[], [], [], []];
    }

    ghost predicate Inv(sent: map<Key, seq<Byte>>)
      reads this, slots
    {
      slots.Length == SLOTS && TableOk(slots[..], got, sent)
    }

    /** What has arrived of a datagram since its slot was opened. */
    ghost function Got(key: Key): seq<Frag>
      reads this, slots
    {
      GotIn(slots[..], got, key)
    }

    /** The datagrams under reassembly: what came of each, and when. */
    ghost function Table(): map<Key, Pending>
      reads this, slots
    {
      if |got| == slots.Length then TableOf(slots[..], got) else map[]
    }

    lemma PartsAreGot(key: Key, sent: map<Key, seq<Byte>>)
      requires Inv(sent)
      ensures Got(key) == if key in Table() then Table()[key].frags else []
    {
      hide Holds, TableOf;
      TableKeys(slots[..], got);
      if key in Table() {
        var k := SlotOf(slots[..], key);
        TableAt(slots[..], got, sent, k);
        GotIs(slots[..], got, sent, k);
      } else {
        forall j | 0 <= j < |slots[..]| && slots[..][j].active ensures slots[..][j].key != key {
          assert slots[..][j].key in ActiveKeys(slots[..]);
        }
        GotNothing(slots[..], got, key);
      }
    }

    /** The slot of a datagram, or the first inactive one, opened for it. */
    method FindSlot(key: Key, ghost sent: map<Key, seq<Byte>>) returns (found: bool, k: nat)
      requires Inv(sent) && key in sent
      modifies slots
      ensures Inv(sent) && forall other :: Got(other) == old(Got(other))
      ensures Table() - {key} == old(Table()) - {key}
      ensures found == old(Room(key))
      ensures found ==> k < SLOTS && slots[k].active && slots[k].key == key
      ensures !found ==> slots[..] == old(slots[..])
    {
      hide Holds, TableOf;
      k := 0;
      while k < SLOTS
        invariant k <= SLOTS && forall j :: 0 <= j < k ==> !(slots[j].active && slots[j].key == key)
      {
        if slots[k].active && slots[k].key == key {
          return true, k;
        }
        k := k + 1;
      }
      k := 0;
      while k < SLOTS
        invariant k <= SLOTS && forall j :: 0 <= j < k ==> slots[j].active
      {
        if !slots[k].active {
          OpenedHolds(key, sent[key]);
          ghost var was := slots[..];
          SlotChanged(was, got, sent, k, key, Opened(key), []);
          TableChanged(was, got, sent, k, key, Opened(key), []);
          GotNothing(was, got, key);
          slots[k] := Opened(key);
          assert slots[..] == was[k := Opened(key)] && got[k := []] == got;
          return true, k;
        }
        k := k + 1;
      }
      return false, 0;
    }

    /** Some slot is the datagram's or inactive. */
    ghost predicate Room(key: Key)
      reads slots
    {
      exists k :: 0 <= k < slots.Length && (!slots[k].active || slots[k].key == key)
    }

    /** With up to four datagrams about there is always a slot. */
    lemma FourFit(sent: map<Key, seq<Byte>>, key: Key)
      requires Inv(sent) && key in sent && |sent.Keys| <= SLOTS
      ensures Room(key)
    {
      if !Room(key) {
        var keys := [slots[0].key, slots[1].key, slots[2].key, slots[3].key, key];
        FiveKeys(keys, sent.Keys);
      }
    }

    /** ipv4_reassemble: a datagram is delivered exactly when the fragment at hand completes it, and
        what is delivered is its payload. Fragments that reach beyond the buffer or find no slot are
        dropped. */
    method Reassemble(key: Key, f: Frag, now: Word, ghost sent: map<Key, seq<Byte>>) returns (out: Option<seq<Byte>>)
      requires Inv(sent) && key in sent && Cut(sent[key], f)
      modifies slots, this`got
      ensures Inv(sent)
      ensures !Fits(f) || !old(Room(key)) ==> out == None && slots[..] == old(slots[..]) && got == old(got)
      ensures Fits(f) && old(Room(key)) ==>
        && (out.Some? <==> Complete(sent[key], old(Got(key)) + [f]))
        && (out.Some? ==> out.value == sent[key])
        && Got(key) == (if out.Some? then [] else old(Got(key)) + [f])
        && (out == None ==> exists k :: 0 <= k < SLOTS && slots[k].active && slots[k].key == key && slots[k].lastUpdate == now)
      ensures |sent.Keys| <= SLOTS ==> old(Room(key))
      ensures forall other :: other != key ==> Got(other) == old(Got(other))
      ensures !Fits(f) || !old(Room(key)) ==> Table() == old(Table())
      ensures Fits(f) && old(Room(key)) ==>
        Table() == if out.Some? then old(Table()) - {key} else old(Table())[key := Pending(old(Got(key)) + [f], now)]
    {
      hide Holds, Complete, Cut, TableOk, GotIn, TableOf;
      ghost var m0 := Table();
      if |sent.Keys| <= SLOTS {
        FourFit(sent, key);
      }
      ghost var g0 := Got(key);
      if f.off + |f.bytes| > PACKET_SIZE {
        return None;
      }
      var found, k := FindSlot(key, sent);
      if !found {
        return None;
      }
      ghost var m1 := Table();
      ghost var slots1, got1 := slots[..], got;
      SlotFound(slots1, got1, sent, k);
      var blocks := MarkBlocks(slots[k].blocks, f);
      FilledHolds(slots[k], sent[key], g0, f, blocks, now);
      slots[k] := Filled(slots[k], f, blocks, now);
      ReadyIsComplete(slots[k], sent[key], g0 + [f]);
      TotalFits(slots[k], sent[key], g0 + [f]);
      var all := AllBlocksPresent(slots[k].blocks, slots[k].totalLen);
      if slots[k].totalLen != 0 && all {
        out := Some(slots[k].data[..slots[k].totalLen]);
        slots[k] := slots[k].(active := false);
        got := got[k := []];
      } else {
        out := None;
        got := got[k := g0 + [f]];
      }
      SlotChanged(slots1, got1, sent, k, key, slots[k], got[k]);
      TableChanged(slots1, got1, sent, k, key, slots[k], got[k]);
      assert slots[..] == slots1[k := slots[k]] && got == got1[k := got[k]];
      SameBut(m0, m1, key, Pending(g0 + [f], now));
    }

    /** The end of ipv4_receive: an unfragmented datagram is handed on as it is and takes no slot. */
    method Receive(key: Key, f: Frag, now: Word, ghost sent: map<Key, seq<Byte>>) returns (out: Option<seq<Byte>>)
      requires Inv(sent) && key in sent && Piece(sent[key], f)
      modifies slots, this`got
      ensures Inv(sent) && (out.Some? ==> out.value == sent[key])
      ensures Unfragmented(f) ==> out.Some? && slots[..] == old(slots[..]) && got == old(got) && Table() == old(Table())
      ensures !Unfragmented(f) && (!Fits(f) || !old(Room(key))) ==> out == None && Table() == old(Table())
      ensures !Unfragmented(f) && Fits(f) && old(Room(key)) ==>
        && (out.Some? <==> Complete(sent[key], old(Got(key)) + [f]))
        && Table() == if out.Some? then old(Table()) - {key} else old(Table())[key := Pending(old(Got(key)) + [f], now)]
      ensures |sent.Keys| <= SLOTS ==> old(Room(key))
    {
      hide Holds, Complete, Cut, TableOk, GotIn, TableOf;
      if |sent.Keys| <= SLOTS {
        FourFit(sent, key);
      }
      if f.off == 0 && !f.more {
        WholeCompletes(sent[key], [], f);
        return Some(f.bytes);
      }
      out := Reassemble(key, f, now, sent);
    }

    /** ipv4_tick: slots that nothing has come for in more than 100 ticks are given up, on a clock
        that may wrap. */
    method Tick(now: Word, ghost sent: map<Key, seq<Byte>>)
      requires Inv(sent)
      modifies slots, this`got
      ensures Inv(sent)
      ensures forall k :: 0 <= k < SLOTS ==>
        && slots[k] == old(slots[k]).(active := slots[k].active)
        && (slots[k].active <==> old(slots[k]).active && (now - old(slots[k]).lastUpdate) % 0x1_0000_0000 <= 100)
      ensures forall key :: Got(key) == [] || Got(key) == old(Got(key))
      ensures Table() == Fresh(old(Table()), now)
    {
      hide Holds, TableOk, GotIn, TableOf;
      ghost var slots0, got0 := slots[..], got;
      TableShape(slots0, got0, sent);
      for k := 0 to SLOTS
        invariant Inv(sent) && |got| == SLOTS
        invariant forall j :: 0 <= j < SLOTS ==> slots[j] == if j < k then Aged(slots0[j], now) else slots0[j]
        invariant forall key :: Got(key) == [] || Got(key) == GotIn(slots0, got0, key)
        invariant |got0| == SLOTS && Table() == TableOf(slots0, got0) - StaleKeys(slots0, k, now)
      {
        if slots[k].active && (now - slots[k].lastUpdate) % U32_RANGE > LIFETIME {
          ghost var was := slots[..];
          SlotFound(was, got, sent, k);
          SlotChanged(was, got, sent, k, slots[k].key, slots[k].(active := false), []);
          TableChanged(was, got, sent, k, slots[k].key, slots[k].(active := false), []);
          slots[k] := slots[k].(active := false);
          got := got[k := []];
          assert slots[..] == was[k := slots[k]];
        }
      }
      StaleAll(slots0, got0, sent, now);
    }
  }

  predicate Stale(s: FragSlot, now: Word) { s.active && (now - s.lastUpdate) % U32_RANGE > LIFETIME }

  ghost function StaleKeys(slots: seq<FragSlot>, n: nat, now: Word): set<Key>
    requires n <= |slots|
  {
    set k | 0 <= k < n && Stale(slots[k], now) :: slots[k].key
  }

  /** The datagrams that something came for within the last 100 ticks. */
  ghost function Fresh(m: map<Key, Pending>, now: Word): (r: map<Key, Pending>)
    ensures forall key :: key in r <==> key in m && (now - m[key].last) % 0x1_0000_0000 <= 100
    ensures forall key :: key in r ==> r[key] == m[key]
  {
    map key | key in m && (now - m[key].last) % U32_RANGE <= LIFETIME :: m[key]
  }

  lemma StaleAll(slots: seq<FragSlot>, got: seq<seq<Frag>>, sent: map<Key, seq<Byte>>, now: Word)
    requires TableOk(slots, got, sent)
    ensures |slots| == |got| == SLOTS && TableOf(slots, got) - StaleKeys(slots, SLOTS, now) == Fresh(TableOf(slots, got), now)
  {
    hide Holds, TableOf, TableOk;
    TableShape(slots, got, sent);
    TableKeys(slots, got);
    var m := TableOf(slots, got);
    forall key | key in m ensures key in StaleKeys(slots, SLOTS, now) <==> (now - m[key].last) % U32_RANGE > LIFETIME {
      StaleKey(slots, got, sent, now, key);
    }
  }

  lemma StaleKey(slots: seq<FragSlot>, got: seq<seq<Frag>>, sent: map<Key, seq<Byte>>, now: Word, key: Key)
    requires TableOk(slots, got, sent) && |slots| == |got| == SLOTS && key in TableOf(slots, got)
    ensures key in StaleKeys(slots, SLOTS, now) <==> (now - TableOf(slots, got)[key].last) % U32_RANGE > LIFETIME
  {
    hide Holds, TableOf, TableOk;
    TableKeys(slots, got);
    var k := SlotOf(slots, key);
    TableAt(slots, got, sent, k);
    if key in StaleKeys(slots, SLOTS, now) {
      var j :| 0 <= j < SLOTS && Stale(slots[j], now) && slots[j].key == key;
      TableAt(slots, got, sent, j);
    }
  }

  /** What one datagram had before does not matter once its entry is replaced or gone. */
  lemma SameBut(m0: map<Key, Pending>, m1: map<Key, Pending>, key: Key, e: Pending)
    requires m0 - {key} == m1 - {key}
    ensures m0[key := e] == m1[key := e]
  {
    assert m0[key := e] == (m0 - {key})[key := e];
    assert m1[key := e] == (m1 - {key})[key := e];
  }

  /** A slot that outlived its fragments' patience. */
  function Aged(s: FragSlot, now: Word): FragSlot {
    if s.active && (now - s.lastUpdate) % U32_RANGE > LIFETIME then s.(active := false) else s
  }

  lemma TableShape(slots: seq<FragSlot>, got: seq<seq<Frag>>, sent: map<Key, seq<Byte>>)
    requires TableOk(slots, got, sent)
    ensures |slots| == |got| == SLOTS
  {
  }

  lemma SlotFound(slots: seq<FragSlot>, got: seq<seq<Frag>>, sent: map<Key, seq<Byte>>, k: nat)
    requires TableOk(slots, got, sent) && k < SLOTS && |slots| == SLOTS && slots[k].active
    ensures |got| == SLOTS && slots[k].key in sent && Holds(slots[k], sent[slots[k].key], got[k])
    ensures GotIn(slots, got, slots[k].key) == got[k]
    ensures |slots[k].blocks| == BLOCKS && |slots[k].data| == PACKET_SIZE
    ensures forall j :: 0 <= j < SLOTS && j != k && slots[j].active ==> slots[j].key != slots[k].key
  {
    GotIs(slots, got, sent, k);
  }

  /** A datagram larger than the buffer is never complete: its last fragment is always dropped. */
  lemma OversizeNever(p: seq<Byte>, got: seq<Frag>)
    requires |p| > PACKET_SIZE && forall k :: 0 <= k < |got| ==> Cut(p, got[k]) && Fits(got[k])
    ensures !Complete(p, got)
  {
    LastMeansAll(p, got);
  }

  lemma TotalFits(s: FragSlot, p: seq<Byte>, got: seq<Frag>)
    requires Holds(s, p, got)
    ensures s.totalLen <= PACKET_SIZE && |s.data| == PACKET_SIZE
  {
  }

  lemma FiveKeys(keys: seq<Key>, all: set<Key>)
    requires |keys| == 5 && (forall i :: 0 <= i < 5 ==> keys[i] in all) && forall i, j :: 0 <= i < j < 5 ==> keys[i] != keys[j]
    ensures |all| >= 5
  {
    var five := {keys[0], keys[1], keys[2], keys[3], keys[4]};
    assert |five| == 5;
    SubsetCard(five, all);
  }

  /** The blocks before offset `upTo` are covered. */
  ghost predicate CoveredTo(frags: seq<Frag>, upTo: nat) {
    forall i: nat :: i < (upTo + 7) / 8 ==> AnyCovers(frags, i)
  }

  lemma CoveredMore(frags: seq<Frag>, f: Frag)
    requires CoveredTo(frags, f.off) && f.off % 8 == 0
    ensures CoveredTo(frags + [f], f.off + |f.bytes|)
    ensures !f.more ==> HasLast(frags + [f])
  {
    forall i: nat | i < (f.off + |f.bytes| + 7) / 8 ensures AnyCovers(frags + [f], i) {
      OneMoreCovers(frags, f, i);
    }
    OneMoreCovers(frags, f, 0);
  }

  /** The fragment loop of ipv4_send: every fragment is a cut of the payload that fits one frame, and
      together they are complete. An empty payload goes out as one empty packet. */
  method SendFragments(payload: seq<Byte>) returns (frags: seq<Frag>)
    requires |payload| < 0x1_0000
    ensures payload == [] ==> frags == [Frag(0, false, [])]
    ensures payload != [] ==> forall k :: 0 <= k < |frags| ==> Cut(payload, frags[k])
    ensures Complete(payload, frags) && forall k :: 0 <= k < |frags| ==> Piece(payload, frags[k])
    ensures forall k :: 0 <= k < |frags| ==> |frags[k].bytes| <= MAX_CHUNK
    ensures Consecutive(frags)
  {
    hide SentTo, Cut, HasLast, AnyCovers;
    frags := [];
    var remaining: nat, offset: nat := |payload|, 0;
    SentStart(payload);
    while remaining != 0 || (|payload| == 0 && offset == 0)
      invariant payload == [] ==> frags == []
      invariant SentTo(payload, frags, offset, remaining) && offset + remaining == |payload|
      decreases remaining
    {
      var chunk: nat := if remaining > MAX_CHUNK then MAX_CHUNK else remaining;
      var more := remaining > chunk;
      if more {
        chunk := chunk / 8 * 8;
      }
      var f := Frag(offset, more, payload[offset..offset + chunk]);
      if remaining == 0 {
        WholeCompletes(payload, frags, f);
        frags := frags + [f];
        break;
      }
      SentMore(payload, frags, offset, remaining, f);
      frags := frags + [f];
      remaining := remaining - chunk;
      offset := offset + chunk;
    }
    if payload != [] {
      SentDone(payload, frags, offset);
    }
  }

  lemma SentStart(payload: seq<Byte>)
    ensures SentTo(payload, [], 0, |payload|)
  {
  }

  lemma SentDone(payload: seq<Byte>, frags: seq<Frag>, offset: nat)
    requires SentTo(payload, frags, offset, 0) && payload != []
    ensures Complete(payload, frags) && Consecutive(frags)
    ensures forall k :: 0 <= k < |frags| ==> Cut(payload, frags[k]) && |frags[k].bytes| <= MAX_CHUNK
  {
    hide Cut, HasLast, AnyCovers;
  }

  /** Each fragment begins where the one before it ended, and all but the last say that more follow. */
  ghost predicate Consecutive(frags: seq<Frag>) {
    forall k :: 0 <= k < |frags| - 1 ==> frags[k].more && frags[k + 1].off == frags[k].off + |frags[k].bytes|
  }

  /** Where the loop of ipv4_send stands. */
  ghost predicate SentTo(payload: seq<Byte>, frags: seq<Frag>, offset: nat, remaining: nat) {
    && offset + remaining == |payload| && (remaining != 0 ==> offset % 8 == 0)
    && CoveredTo(frags, offset) && (remaining == 0 && payload != [] ==> HasLast(frags))
    && (forall k :: 0 <= k < |frags| ==> Cut(payload, frags[k]) && |frags[k].bytes| <= MAX_CHUNK)
    && Consecutive(frags)
    && (if frags == [] then offset == 0
        else var l := frags[|frags| - 1]; l.off + |l.bytes| == offset && (l.more <==> remaining != 0))
  }

  lemma SentMore(payload: seq<Byte>, frags: seq<Frag>, offset: nat, remaining: nat, f: Frag)
    requires SentTo(payload, frags, offset, remaining) && remaining > 0
    requires f.off == offset && 0 < |f.bytes| <= remaining && |f.bytes| <= MAX_CHUNK && f.bytes == payload[offset..offset + |f.bytes|]
    requires (f.more <==> |f.bytes| < remaining) && (f.more ==> |f.bytes| % 8 == 0)
    ensures SentTo(payload, frags + [f], offset + |f.bytes|, remaining - |f.bytes|)
  {
    hide CoveredTo, HasLast, Cut;
    CoveredMore(frags, f);
    IsCut(payload, f);
    FragsMore(payload, frags, f);
  }

  lemma IsCut(payload: seq<Byte>, f: Frag)
    requires f.off % 8 == 0 && 0 < |f.bytes| && f.off + |f.bytes| <= |payload| && f.bytes == payload[f.off..f.off + |f.bytes|]
    requires (f.more <==> f.off + |f.bytes| < |payload|) && (f.more ==> |f.bytes| % 8 == 0)
    ensures Cut(payload, f)
  {
  }

  lemma FragsMore(payload: seq<Byte>, frags: seq<Frag>, f: Frag)
    requires Consecutive(frags) && Cut(payload, f) && |f.bytes| <= MAX_CHUNK
    requires forall k :: 0 <= k < |frags| ==> Cut(payload, frags[k]) && |frags[k].bytes| <= MAX_CHUNK
    requires frags != [] ==> frags[|frags| - 1].more && f.off == frags[|frags| - 1].off + |frags[|frags| - 1].bytes|
    ensures Consecutive(frags + [f])
    ensures forall k :: 0 <= k < |frags + [f]| ==> Cut(payload, (frags + [f])[k]) && |(frags + [f])[k].bytes| <= MAX_CHUNK
  {
    hide Cut;
  }

  /** Reassembly inverts fragmentation: once all that ipv4_send made of a payload has arrived, in any
      order and with any repetition, the arrivals are complete. */
  lemma AllArrivedIsComplete(payload: seq<Byte>, frags: seq<Frag>, arrived: seq<Frag>)
    requires payload != [] && Complete(payload, frags) && multiset(frags) <= multiset(arrived)
    ensures Complete(payload, arrived)
  {
    forall f | f in frags ensures f in arrived {
      assert f in multiset(frags);
      assert f in multiset(arrived);
    }
    CompleteMonotone(payload, frags, arrived);
  }
}
