/** The receive stream of net/tcp.c: segments taken in order only, a ring that readers drain
    (section 3.10.7.4 of RFC 9293). */
module TcpStream {
  import opened Arithmetic
  import opened Blocks
  import opened FatTable
  import opened Packets

  const RX_SIZE: nat := 4096          // TCP_RX_BUF_SIZE; one place of the ring stays empty
  const RX_ROOM: nat := 4095

  /** The bytes of a ring, oldest first. */
  function RingBytes(buf: seq<Byte>, head: nat, tail: nat): (r: seq<Byte>)
    requires |buf| == RX_SIZE && head < RX_SIZE && tail < RX_SIZE
    ensures |r| == if head >= tail then head - tail else RX_SIZE + head - tail
  {
    if head >= tail then buf[tail..head] else buf[tail..] + buf[..head]
  }

  /** The next place of the ring. */
  function After(i: nat): (r: nat)
    requires i < RX_SIZE
    ensures r == (i + 1) % RX_SIZE && r < RX_SIZE
  {
    if i + 1 == RX_SIZE then 0 else i + 1
  }

  /** A connection as seen by its reader: unread bytes, the sequence number expected next, and all
      bytes returned so far. */
  datatype Conn = Conn(ring: seq<Byte>, seqRecv: Word, returned: seq<Byte>) {
    function Total(): nat { |returned| + |ring| }
  }

  /** A data segment arriving: taken only if it starts where the last one ended; what the ring has no
      room for is dropped, and acknowledged all the same. */
  function Deliver(c: Conn, seqNo: Word, data: seq<Byte>): Conn
    requires |c.ring| <= RX_ROOM
  {
    if data == [] || seqNo != c.seqRecv then c
    else Conn(c.ring + data[..Min(|data|, RX_ROOM - |c.ring|)], (c.seqRecv + |data|) % U32_RANGE, c.returned)
  }

  /** A read of at most `max` bytes. */
  function Drain(c: Conn, max: nat): Conn {
    var k := Min(max, |c.ring|);
    Conn(c.ring[k..], c.seqRecv, c.returned + c.ring[..k])
  }

  /** The bytes read and unread are the stream's prefix that the sequence number measures. */
  ghost predicate Tracks(c: Conn, stream: seq<Byte>, base: Word) {
    && c.Total() <= |stream| < U32_RANGE && |c.ring| <= RX_ROOM
    && c.seqRecv == (base + c.Total()) % U32_RANGE
    && c.returned + c.ring == stream[..c.Total()]
  }

  /** A segment of the stream: its number is that of its first byte. */
  ghost predicate CutOf(stream: seq<Byte>, base: Word, seqNo: Word, data: seq<Byte>) {
    exists k: nat :: CutAt(stream, base, seqNo, data, k)
  }

  ghost predicate CutAt(stream: seq<Byte>, base: Word, seqNo: Word, data: seq<Byte>, k: nat) {
    k + |data| <= |stream| && seqNo == (base + k) % U32_RANGE && data == stream[k..k + |data|]
  }

  /** Positions of a stream shorter than 2^32 bytes have distinct sequence numbers. */
  lemma SameNumberSamePlace(base: nat, a: nat, b: nat)
    requires a < U32_RANGE && b < U32_RANGE && (base + a) % U32_RANGE == (base + b) % U32_RANGE
    ensures a == b
  {
    Locate(base + a, U32_RANGE);
    Locate(base + b, U32_RANGE);
  }

  /** Any segment of the stream, in whatever order and however often it arrives, keeps the
      connection on track, exactly when it is not next or the ring has room for all of it. */
  lemma DeliverTracks(c: Conn, stream: seq<Byte>, base: Word, seqNo: Word, data: seq<Byte>)
    requires Tracks(c, stream, base) && CutOf(stream, base, seqNo, data)
    ensures Tracks(Deliver(c, seqNo, data), stream, base) <==>
      data == [] || seqNo != c.seqRecv || |c.ring| + |data| <= RX_ROOM
  {
    if data != [] && seqNo == c.seqRecv {
      var k: nat :| CutAt(stream, base, seqNo, data, k);
      var n := c.Total();
      SameNumberSamePlace(base, k, n);
      var c1 := Deliver(c, seqNo, data);
      NextNumber(base + n, |data|);
      if |c.ring| + |data| <= RX_ROOM {
        WholeTaken(c.returned, c.ring, data, stream);
      } else if Tracks(c1, stream, base) {
        SameNumberSamePlace(base, c1.Total(), n + |data|);
        assert false;
      }
    }
  }

  lemma WholeTaken(returned: seq<Byte>, ring: seq<Byte>, data: seq<Byte>, stream: seq<Byte>)
    requires |returned| + |ring| + |data| <= |stream| && returned + ring == stream[..|returned| + |ring|]
    requires data == stream[|returned| + |ring|..|returned| + |ring| + |data|]
    ensures data[..|data|] == data
    ensures returned + (ring + data) == stream[..|returned| + |ring| + |data|]
  {
    assert returned + (ring + data) == (returned + ring) + data;
  }

  lemma NextNumber(x: nat, n: nat)
    ensures (x % U32_RANGE + n) % U32_RANGE == (x + n) % U32_RANGE
  {
    Locate(x, U32_RANGE);
    var q, y := x / U32_RANGE, x % U32_RANGE + n;
    Locate(y, U32_RANGE);
    assert x + n == (q + y / U32_RANGE) * U32_RANGE + y % U32_RANGE;
    DivUnique(q + y / U32_RANGE, y % U32_RANGE, U32_RANGE);
  }

  lemma DrainTracks(c: Conn, stream: seq<Byte>, base: Word, max: nat)
    requires Tracks(c, stream, base)
    ensures Tracks(Drain(c, max), stream, base)
    ensures var r, n := Drain(c, max).returned, if max <= |c.ring| then max else |c.ring|;
      r == stream[..|c.returned| + n] && c.returned <= r && (max > 0 && c.ring != [] ==> |r| > |c.returned|)
  {
    var k := Min(max, |c.ring|);
    assert c.ring == c.ring[..k] + c.ring[k..];
    assert Drain(c, max).returned + Drain(c, max).ring == c.returned + c.ring;
    assert Drain(c, max).returned == (c.returned + c.ring)[..|c.returned| + k];
  }

  datatype Event = Arrive(seqNo: Word, data: seq<Byte>) | Read(max: nat)

  function Step(c: Conn, e: Event): Conn
    requires |c.ring| <= RX_ROOM
  {
    match e case Arrive(s, d) => Deliver(c, s, d) case Read(max) => Drain(c, max)
  }

  lemma StepFits(c: Conn, e: Event)
    requires |c.ring| <= RX_ROOM
    ensures |Step(c, e).ring| <= RX_ROOM
  {
  }

  /** A run of arrivals and reads. */
  function Run(c: Conn, evs: seq<Event>): (r: Conn)
    requires |c.ring| <= RX_ROOM
    ensures |r.ring| <= RX_ROOM
  {
    if evs == [] then c
    else
      var before := Run(c, evs[..|evs| - 1]);
      StepFits(before, evs[|evs| - 1]);
      Step(before, evs[|evs| - 1])
  }

  /** All arrivals are cut from the stream, and none that is next finds too little room. */
  ghost predicate Fair(c: Conn, evs: seq<Event>, stream: seq<Byte>, base: Word)
    requires |c.ring| <= RX_ROOM
  {
    forall i :: 0 <= i < |evs| && evs[i].Arrive? ==>
      && CutOf(stream, base, evs[i].seqNo, evs[i].data)
      && (evs[i].seqNo == Run(c, evs[..i]).seqRecv ==> |Run(c, evs[..i]).ring| + |evs[i].data| <= RX_ROOM)
  }

  /** Over any run with reordering, loss and duplication the bytes returned and unread are the
      stream's prefix; in particular nothing else is ever returned. */
  lemma {:induction false} RunTracks(c: Conn, evs: seq<Event>, stream: seq<Byte>, base: Word)
    requires Tracks(c, stream, base) && Fair(c, evs, stream, base)
    ensures Tracks(Run(c, evs), stream, base)
    ensures Run(c, evs).returned <= stream
  {
    if evs != [] {
      var init, last := evs[..|evs| - 1], evs[|evs| - 1];
      assert Fair(c, init, stream, base) by {
        forall i | 0 <= i < |init| ensures init[..i] == evs[..i] {
        }
      }
      RunTracks(c, init, stream, base);
      var before := Run(c, init);
      match last {
        case Arrive(s, d) => DeliverTracks(before, stream, base, s, d);
        case Read(max) => DrainTracks(before, stream, base, max);
      }
    }
    var r := Run(c, evs);
    assert r.returned == (r.returned + r.ring)[..|r.returned|] == stream[..r.Total()][..|r.returned|];
  }

  /** All bytes of a list of chunks. */
  function Joined(chunks: seq<seq<Byte>>): seq<Byte> {
    if chunks == [] then [] else Joined(chunks[..|chunks| - 1]) + chunks[|chunks| - 1]
  }

  /** The sequence number a sender gives to chunk `i`: each segment moves it by its length. */
  function SendNumber(base: Word, chunks: seq<seq<Byte>>, i: nat): Word
    requires i <= |chunks|
  {
    if i == 0 then base else (SendNumber(base, chunks, i - 1) + |chunks[i - 1]|) % U32_RANGE
  }

  /** What tcp_send numbers one after the other is cut from the one stream that the chunks make. */
  lemma {:induction false} SentIsCut(base: Word, chunks: seq<seq<Byte>>, i: nat)
    requires i < |chunks|
    ensures CutOf(Joined(chunks), base, SendNumber(base, chunks, i), chunks[i])
  {
    PrefixJoined(chunks, i + 1);
    NumberOf(base, chunks, i);
    var k := |Joined(chunks[..i])|;
    assert chunks[..i + 1][..i] == chunks[..i];
    assert Joined(chunks)[..k + |chunks[i]|] == Joined(chunks[..i]) + chunks[i];
    assert chunks[i] == Joined(chunks)[..k + |chunks[i]|][k..k + |chunks[i]|] == Joined(chunks)[k..k + |chunks[i]|];
    assert CutAt(Joined(chunks), base, SendNumber(base, chunks, i), chunks[i], k);
  }

  lemma {:induction false} PrefixJoined(chunks: seq<seq<Byte>>, i: nat)
    requires i <= |chunks|
    ensures Joined(chunks[..i]) <= Joined(chunks)
    decreases |chunks| - i
  {
    if i == |chunks| {
      assert chunks[..i] == chunks;
    } else {
      PrefixJoined(chunks, i + 1);
      assert chunks[..i + 1][..i] == chunks[..i];
    }
  }

  lemma {:induction false} NumberOf(base: Word, chunks: seq<seq<Byte>>, i: nat)
    requires i <= |chunks|
    ensures SendNumber(base, chunks, i) == (base + |Joined(chunks[..i])|) % U32_RANGE
  {
    if i > 0 {
      NumberOf(base, chunks, i - 1);
      assert chunks[..i][..i - 1] == chunks[..i - 1];
      NextNumber(base + |Joined(chunks[..i - 1])|, |chunks[i - 1]|);
    }
  }

  /** The chunks arriving one after the other, each followed by a read. */
  function InOrder(base: Word, chunks: seq<seq<Byte>>, max: nat): seq<Event> {
    if chunks == [] then []
    else
      var n := |chunks| - 1;
      InOrder(base, chunks[..n], max) + [Arrive(SendNumber(base, chunks, n), chunks[n]), Event.Read(max)]
  }

  /** What is sent in chunks that a read takes whole is returned, all of it and in order. */
  lemma {:induction false} InOrderIsReturned(base: Word, chunks: seq<seq<Byte>>, max: nat)
    requires forall i :: 0 <= i < |chunks| ==> |chunks[i]| <= max && |chunks[i]| <= RX_ROOM
    ensures Run(Conn([], base, []), InOrder(base, chunks, max)) == Conn([], SendNumber(base, chunks, |chunks|), Joined(chunks))
  {
    if chunks != [] {
      var n, c := |chunks| - 1, Conn([], base, []);
      var before, e := InOrder(base, chunks[..n], max), Arrive(SendNumber(base, chunks, n), chunks[n]);
      InOrderIsReturned(base, chunks[..n], max);
      SendNumberPrefix(base, chunks, n);
      RunNext(c, before, e);
      RunNext(c, before + [e], Event.Read(max));
      assert InOrder(base, chunks, max) == before + [e] + [Event.Read(max)];
      OneChunk(Conn([], SendNumber(base, chunks, n), Joined(chunks[..n])), chunks[n], max);
    }
  }

  lemma OneChunk(c: Conn, data: seq<Byte>, max: nat)
    requires c.ring == [] && |data| <= max && |data| <= RX_ROOM
    ensures Drain(Deliver(c, c.seqRecv, data), max) == Conn([], (c.seqRecv + |data|) % U32_RANGE, c.returned + data)
  {
    if data == [] {
      assert c.returned + data == c.returned && c.ring[0..] == [];
    } else {
      assert [] + data[..|data|] == data;
    }
  }

  lemma RunNext(c: Conn, evs: seq<Event>, e: Event)
    requires |c.ring| <= RX_ROOM
    ensures Run(c, evs + [e]) == Step(Run(c, evs), e)
  {
    assert (evs + [e])[..|evs|] == evs;
  }

  lemma {:induction false} SendNumberPrefix(base: Word, chunks: seq<seq<Byte>>, i: nat)
    requires i < |chunks|
    ensures SendNumber(base, chunks[..|chunks| - 1], i) == SendNumber(base, chunks, i)
  {
    if i > 0 {
      SendNumberPrefix(base, chunks, i - 1);
    }
  }

  datatype TcpState = CLOSED | SYN_SENT | ESTABLISHED

  /** The control bits of an arriving segment that matter before any FIN. */
  datatype Control = Control(syn: bool, ack: bool, rst: bool)

  /** One socket of net/tcp.c, as far as its receive stream goes. */
  class TcpSocket {
    const rxBuf: array<Byte>
    var rxHead: nat
    var rxTail: nat
    var seqSend: Word
    var seqRecv: Word
    var state: TcpState
    var open: bool
    ghost var returned: seq<Byte>

    ghost predicate Valid()
      reads this
    {
      rxBuf.Length == RX_SIZE && rxHead < RX_SIZE && rxTail < RX_SIZE && (open ==> state != CLOSED)
    }

    ghost function State(): Conn
      reads this, rxBuf
      requires Valid()
    {
      Conn(RingBytes(rxBuf[..], rxHead, rxTail), seqRecv, returned)
    }

    /** A socket as tcp_connect sets it up before the SYN goes out. */
    constructor (ticks: Word)
      ensures Valid() && fresh(rxBuf) && state == SYN_SENT && open && seqSend == ticks
      ensures State() == Conn([], 0, [])
    {
      rxBuf := new Byte[RX_SIZE](_ => 0);
      rxHead, rxTail, seqSend, seqRecv := 0, 0, ticks, 0;
      state, open, returned := SYN_SENT, true, [];
    }

    /** tcp_rx_push */
    method Push(data: seq<Byte>)
      requires Valid()
      modifies this`rxHead, rxBuf
      ensures Valid() && State() == old(State()).(ring := old(State().ring) + data[..Min(|data|, RX_ROOM - |old(State().ring)|)])
    {
      hide RingBytes;
      ghost var r0 := State().ring;
      assert data[..0] == [] && r0 + [] == r0;
      for i := 0 to |data|
        invariant Valid() && i <= RX_ROOM - |r0| && State().ring == r0 + data[..i]
      {
        var next := After(rxHead);
        if next == rxTail {
          assert |State().ring| == RX_ROOM;
          return;
        }
        ghost var before := rxBuf[..];
        RingGrows(rxBuf[..], rxHead, rxTail, data[i]);
        rxBuf[rxHead] := data[i];
        assert rxBuf[..] == before[rxHead := data[i]];
        rxHead := next;
        assert data[..i + 1] == data[..i] + [data[i]];
      }
      assert data[..|data|] == data;
    }

    /** The draining loop of tcp_recv. */
    method Recv(max: nat) returns (buf: seq<Byte>)
      requires Valid()
      modifies this`rxTail, this`returned
      ensures Valid() && State() == Drain(old(State()), max)
      ensures returned == old(returned) + buf && old(State().ring) == buf + State().ring && seqRecv == old(seqRecv)
      ensures |buf| == if max <= |old(State().ring)| then max else |old(State().ring)|
    {
      hide RingBytes;
      ghost var r0, was := State().ring, returned;
      buf := [];
      assert r0[..0] == [] && r0[0..] == r0;
      while rxTail != rxHead && |buf| < max
        invariant Valid() && |buf| <= max && |buf| <= |r0| && returned == was
        invariant buf == r0[..|buf|] && State().ring == r0[|buf|..]
        decreases max - |buf|
      {
        RingShrinks(rxBuf[..], rxHead, rxTail);
        OneTaken(r0, |buf|, rxBuf[rxTail], RingBytes(rxBuf[..], rxHead, After(rxTail)));
        buf := buf + [rxBuf[rxTail]];
        rxTail := After(rxTail);
      }
      returned := returned + buf;
    }

    /** tcp_receive for a segment without FIN that passed its checks and carries this socket's addresses
        and ports; tcp_find_socket passes over a socket that is not open. Answers tell how many bare
        acknowledgements go out. */
    method Receive(ctl: Control, seqNo: Word, ack: Word, data: seq<Byte>) returns (answers: nat)
      requires Valid() && |data| < 0x1_0000
      modifies this, rxBuf
      ensures Valid() && seqSend == old(seqSend) && (!ctl.rst ==> open == old(open))
      ensures !old(open) ==> !open && state == old(state) && State() == old(State()) && answers == 0
      ensures old(open) && ctl.rst ==> state == CLOSED && !open && State() == old(State()) && answers == 0
      ensures old(open) && !ctl.rst && old(state) == SYN_SENT ==>
        && State().ring == old(State().ring) && State().returned == old(State().returned)
        && (if ctl.syn && ctl.ack && ack == old(seqSend) then state == ESTABLISHED && seqRecv == (seqNo + 1) % U32_RANGE && answers == 1
            else state == SYN_SENT && seqRecv == old(seqRecv) && answers == 0)
      ensures returned == old(returned) && |old(State()).ring| <= 4095
      ensures old(open) && !ctl.rst && old(state) == ESTABLISHED ==>
        if data == [] || seqNo != old(seqRecv) then seqRecv == old(seqRecv) && State().ring == old(State().ring)
        else
          var n := if |old(State().ring)| + |data| <= 4095 then |data| else 4095 - |old(State().ring)|;
          seqRecv == (old(seqRecv) + |data|) % 0x1_0000_0000 && State().ring == old(State().ring) + data[..n]
      ensures old(open) && !ctl.rst && old(state) == ESTABLISHED ==>
        && |old(State()).ring| <= RX_ROOM
        && State() == Deliver(old(State()), seqNo, data) && state == old(state)
        && answers == if data != [] && seqNo == old(seqRecv) then 1 else 0
    {
      answers := 0;
      if !open {
        return;
      }
      if ctl.rst {
        state := CLOSED;
        open := false;
        return;
      }
      if state == SYN_SENT {
        if ctl.syn && ctl.ack && ack == seqSend {
          seqRecv := (seqNo + 1) % U32_RANGE;
          answers := 1;
          state := ESTABLISHED;
        }
        return;
      }
      if |data| != 0 && seqNo == seqRecv {
        Push(data);
        seqRecv := (seqRecv + |data|) % U32_RANGE;
        answers := 1;
      }
    }

    /** tcp_send: refused unless the socket is open and established; at most one segment's worth of the
        data, numbered with the running sequence number, which stays where it is when the packet cannot
        be sent. `sendable` is what ip_send makes of it. */
    method Send(data: seq<Byte>, sendable: bool) returns (r: int, seqNo: Word, sent: seq<Byte>)
      requires Valid()
      modifies this`seqSend
      ensures Valid() && (r == -1 <==> !open || state != ESTABLISHED || !sendable)
      ensures r == -1 ==> seqSend == old(seqSend) && sent == []
      ensures r != -1 ==>
        && sent == data[..Min(|data|, TCP_MSS)] && r == |sent| && seqNo == old(seqSend)
        && seqSend == (old(seqSend) + |sent|) % U32_RANGE
    {
      seqNo := seqSend;
      if !open || state != ESTABLISHED || !sendable {
        return -1, seqNo, [];
      }
      sent := if |data| > TCP_MSS then data[..TCP_MSS] else data;
      seqSend := (seqSend + |sent|) % U32_RANGE;
      r := |sent|;
    }
  }

  lemma OneTaken(r0: seq<Byte>, n: nat, b: Byte, rest: seq<Byte>)
    requires n <= |r0| && r0[n..] == [b] + rest
    ensures n < |r0| && r0[..n] + [b] == r0[..n + 1] && rest == r0[n + 1..]
  {
    assert r0[n..][0] == b && r0[n..][1..] == rest;
  }

  lemma RingGrows(buf: seq<Byte>, head: nat, tail: nat, b: Byte)
    requires |buf| == RX_SIZE && head < RX_SIZE && tail < RX_SIZE && After(head) != tail
    ensures RingBytes(buf[head := b], After(head), tail) == RingBytes(buf, head, tail) + [b]
  {
    if head >= tail {
      SliceGrows(buf, tail, head, b);
    } else {
      SliceGrows(buf, 0, head, b);
      SliceApart(buf, head, tail, b);
    }
  }

  lemma SliceGrows(buf: seq<Byte>, from: nat, to: nat, b: Byte)
    requires from <= to < |buf|
    ensures buf[to := b][from..to + 1] == buf[from..to] + [b]
    ensures to + 1 == |buf| ==> buf[to := b][from..] + buf[to := b][..0] == buf[from..to] + [b]
  {
    assert buf[to := b][from..to] == buf[from..to];
  }

  lemma SliceApart(buf: seq<Byte>, at: nat, from: nat, b: Byte)
    requires at < from < |buf|
    ensures buf[at := b][from..] == buf[from..]
  {
  }

  lemma RingShrinks(buf: seq<Byte>, head: nat, tail: nat)
    requires |buf| == RX_SIZE && head < RX_SIZE && tail < RX_SIZE && head != tail
    ensures RingBytes(buf, head, tail) == [buf[tail]] + RingBytes(buf, head, After(tail))
  {
    if head > tail {
      SliceShrinks(buf, tail, head);
    } else {
      SliceShrinks(buf, tail, |buf|);
      SlicesJoin([buf[tail]], buf[tail + 1..], buf[..head]);
    }
  }

  lemma SliceShrinks(buf: seq<Byte>, from: nat, to: nat)
    requires from < to <= |buf|
    ensures buf[from..to] == [buf[from]] + buf[from + 1..to]
  {
  }

  lemma SlicesJoin(a: seq<Byte>, b: seq<Byte>, c: seq<Byte>)
    ensures (a + b) + c == a + (b + c)
  {
  }

  lemma TracksFits(c: Conn, stream: seq<Byte>, base: Word)
    requires Tracks(c, stream, base)
    ensures |c.ring| <= RX_ROOM
  {
  }

  lemma RunNothing(c: Conn)
    requires |c.ring| <= RX_ROOM
    ensures Run(c, []) == c && Joined([]) == [] && c.returned + [] == c.returned
  {
  }

  lemma JoinedNext(outs: seq<seq<Byte>>, out: seq<Byte>)
    ensures Joined(outs + [out]) == Joined(outs) + out
    ensures out == [] ==> Joined(outs + [out]) == Joined(outs)
  {
    assert (outs + [out])[..|outs|] == outs;
  }

  /** A run of arriving data segments and reads on an open connection, as the loop of an HTTP reader
      makes it: what the reads hand out, put together, is the stream from where the reader stood, and a
      read comes back empty only when nothing is unread or nothing was asked for. */
  method Serve(s: TcpSocket, evs: seq<Event>, ghost stream: seq<Byte>, ghost base: Word)
    returns (outs: seq<seq<Byte>>, ghost unread: seq<nat>)
    requires s.Valid() && s.open && s.state == ESTABLISHED
    requires forall i :: 0 <= i < |evs| && evs[i].Arrive? ==> |evs[i].data| < 0x1_0000
    requires Tracks(s.State(), stream, base) && Fair(s.State(), evs, stream, base)
    modifies s, s.rxBuf
    ensures s.Valid() && s.open && s.state == ESTABLISHED && |outs| == |unread| == |evs|
    ensures s.returned == old(s.returned) + Joined(outs) && s.returned <= stream
    ensures |old(s.returned)| + |Joined(outs)| <= |stream|
    ensures Joined(outs) == stream[|old(s.returned)|..|old(s.returned)| + |Joined(outs)|]
    ensures forall i :: 0 <= i < |evs| ==>
      |outs[i]| == match evs[i] case Arrive(_, _) => 0 case Read(max) => if max <= unread[i] then max else unread[i]
    ensures forall i :: 0 <= i < |evs| ==> unread[i] == |Run(old(s.State()), evs[..i]).ring|
  {
    hide RingBytes, Fair, Tracks, Run, Deliver, Drain, Joined;
    ghost var c := s.State();
    TracksFits(c, stream, base);
    RunNothing(c);
    outs, unread := [], [];
    assert evs[..0] == [];
    for i := 0 to |evs|
      invariant s.Valid() && s.open && s.state == ESTABLISHED && |outs| == |unread| == i
      invariant |c.ring| <= RX_ROOM && s.State() == Run(c, evs[..i])
      invariant s.returned == c.returned + Joined(outs)
      invariant forall k :: 0 <= k < i ==> unread[k] == |Run(c, evs[..k]).ring|
      invariant forall k :: 0 <= k < i ==>
        |outs[k]| == match evs[k] case Arrive(_, _) => 0 case Read(max) => if max <= unread[k] then max else unread[k]
    {
      assert evs[..i + 1] == evs[..i] + [evs[i]];
      RunNext(c, evs[..i], evs[i]);
      unread := unread + [|s.State().ring|];
      var out := [];
      match evs[i] {
        case Arrive(seqNo, data) => var _ := s.Receive(Control(false, true, false), seqNo, 0, data);
        case Read(max) => out := s.Recv(max);
      }
      JoinedNext(outs, out);
      outs := outs + [out];
    }
    assert evs[..|evs|] == evs;
    RunTracks(c, evs, stream, base);
    assert s.returned[|c.returned|..] == Joined(outs);
  }
}
