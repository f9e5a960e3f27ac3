/** Runs of net/ipv4.c: fragments of several datagrams arriving interleaved, out of order and more than
    once, with the clock ticking in between. */
module ReassemblyRuns {
  import opened Blocks
  import opened SectorCache
  import opened FatTable
  import opened Reassembly

  datatype Event = Arrival(key: Key, f: Frag, now: Word) | Clock(now: Word)

  /** What is under reassembly, and the datagrams delivered so far, in order. */
  datatype RunState = RunState(table: map<Key, Pending>, delivered: seq<Key>)

  ghost function Parts(m: map<Key, Pending>, key: Key): seq<Frag> { if key in m then m[key].frags else [] }

  ghost function Next(sent: map<Key, seq<Byte>>, s: RunState, e: Event): RunState {
    match e
    case Clock(now) => RunState(Fresh(s.table, now), s.delivered)
    case Arrival(key, f, now) =>
      var all := Parts(s.table, key) + [f];
      if key !in sent then s
      else if Unfragmented(f) then s.(delivered := s.delivered + [key])
      else if !Fits(f) then s
      else if Complete(sent[key], all) then RunState(s.table - {key}, s.delivered + [key])
      else RunState(s.table[key := Pending(all, now)], s.delivered)
  }

  ghost function After(sent: map<Key, seq<Byte>>, evs: seq<Event>): RunState {
    if evs == [] then RunState(map[], []) else Next(sent, After(sent, evs[..|evs| - 1]), evs[|evs| - 1])
  }

  /** Everything that arrives is a piece of one of the payloads sent. */
  ghost predicate AllCut(sent: map<Key, seq<Byte>>, evs: seq<Event>) {
    forall i :: 0 <= i < |evs| && evs[i].Arrival? ==> evs[i].key in sent && Piece(sent[evs[i].key], evs[i].f)
  }

  /** The payloads of a list of datagrams. */
  ghost function Payloads(sent: map<Key, seq<Byte>>, keys: seq<Key>): (r: seq<seq<Byte>>)
    requires forall i :: 0 <= i < |keys| ==> keys[i] in sent
    ensures |r| == |keys|
  {
    seq(|keys|, i requires 0 <= i < |keys| => sent[keys[i]])
  }

  lemma {:induction false} DeliveredWereSent(sent: map<Key, seq<Byte>>, evs: seq<Event>)
    ensures forall i :: 0 <= i < |After(sent, evs).delivered| ==> After(sent, evs).delivered[i] in sent
  {
    if evs != [] {
      DeliveredWereSent(sent, evs[..|evs| - 1]);
    }
  }

  /** Up to four datagrams, over any run: exactly the payloads that the run delivers come out, in the
      order in which they were completed. */
  method Reassembled(r: Reassembler, evs: seq<Event>, ghost sent: map<Key, seq<Byte>>) returns (out: seq<seq<Byte>>)
    requires r.Inv(sent) && r.Table() == map[] && AllCut(sent, evs) && |sent.Keys| <= SLOTS
    modifies r.slots, r`got
    ensures r.Inv(sent) && r.Table() == After(sent, evs).table
    ensures forall i :: 0 <= i < |After(sent, evs).delivered| ==> After(sent, evs).delivered[i] in sent
    ensures out == Payloads(sent, After(sent, evs).delivered)
  {
    hide Complete, Piece, GotIn, TableOf, Holds, TableOk, Payloads;
    out := [];
    assert evs[..0] == [];
    NoPayloads(sent);
    for n := 0 to |evs|
      invariant r.Inv(sent) && r.Table() == After(sent, evs[..n]).table
      invariant forall i :: 0 <= i < |After(sent, evs[..n]).delivered| ==> After(sent, evs[..n]).delivered[i] in sent
      invariant out == Payloads(sent, After(sent, evs[..n]).delivered)
    {
      ghost var s := After(sent, evs[..n]);
      DeliveredWereSent(sent, evs[..n + 1]);
      assert evs[..n + 1][..n] == evs[..n];
      match evs[n] {
        case Clock(now) => r.Tick(now, sent);
        case Arrival(key, f, now) =>
          r.PartsAreGot(key, sent);
          var d := r.Receive(key, f, now, sent);
          if d.Some? {
            MorePayloads(sent, s.delivered, key);
            out := out + [d.value];
          }
      }
    }
    assert evs[..|evs|] == evs;
  }

  lemma NoPayloads(sent: map<Key, seq<Byte>>)
    ensures Payloads(sent, []) == []
  {
  }

  lemma MorePayloads(sent: map<Key, seq<Byte>>, keys: seq<Key>, key: Key)
    requires (forall i :: 0 <= i < |keys| ==> keys[i] in sent) && key in sent
    ensures forall i :: 0 <= i < |keys + [key]| ==> (keys + [key])[i] in sent
    ensures Payloads(sent, keys + [key]) == Payloads(sent, keys) + [sent[key]]
  {
  }

  /** An arrival that the code does not drop for its size. */
  predicate Counts(f: Frag) { Unfragmented(f) || Fits(f) }

  /** What has arrived of a datagram in a run and was not dropped. */
  function Arrived(evs: seq<Event>, key: Key): seq<Frag> {
    if evs == [] then []
    else
      var rest, e := Arrived(evs[..|evs| - 1], key), evs[|evs| - 1];
      if e.Arrival? && e.key == key && Counts(e.f) then rest + [e.f] else rest
  }

  /** The clock never runs out for a datagram under reassembly. */
  ghost predicate InTime(sent: map<Key, seq<Byte>>, evs: seq<Event>, key: Key) {
    forall i :: 0 <= i < |evs| && evs[i].Clock? && key in After(sent, evs[..i]).table ==>
      (evs[i].now - After(sent, evs[..i]).table[key].last) % 0x1_0000_0000 <= 100
  }

  /** A datagram is delivered exactly when its last fragment and all its blocks have arrived in time,
      whatever else arrives in between, in whatever order and however often. Until then everything
      that arrived of it is kept. */
  lemma {:induction false} DeliveredExactly(sent: map<Key, seq<Byte>>, evs: seq<Event>, key: Key)
    requires key in sent && AllCut(sent, evs) && InTime(sent, evs, key)
    ensures key in After(sent, evs).delivered <==> Complete(sent[key], Arrived(evs, key))
    ensures key !in After(sent, evs).delivered ==> Parts(After(sent, evs).table, key) == Arrived(evs, key)
  {
    hide Complete, Fits, Fresh, Piece;
    if evs == [] {
      NothingIsIncomplete(sent[key]);
    } else {
      var init, e := evs[..|evs| - 1], evs[|evs| - 1];
      assert InTime(sent, init, key) by {
        forall i | 0 <= i < |init| ensures init[..i] == evs[..i] {
        }
      }
      assert evs[..|evs| - 1] == init;
      DeliveredExactly(sent, init, key);
      StepDelivers(sent, After(sent, init), e, key);
      if Complete(sent[key], Arrived(init, key)) {
        CompleteMonotone(sent[key], Arrived(init, key), Arrived(evs, key));
      }
    }
  }

  lemma NothingIsIncomplete(p: seq<Byte>)
    ensures !Complete(p, [])
  {
  }

  /** One event, seen from one datagram. */
  lemma StepDelivers(sent: map<Key, seq<Byte>>, s: RunState, e: Event, key: Key)
    requires key in sent && (e.Clock? && key in s.table ==> key in Fresh(s.table, e.now))
    requires e.Arrival? ==> e.key in sent && Piece(sent[e.key], e.f)
    ensures var s1 := Next(sent, s, e);
      var mine := e.Arrival? && e.key == key && Counts(e.f);
      && (key in s1.delivered <==> key in s.delivered || (mine && Complete(sent[key], Parts(s.table, key) + [e.f])))
      && (key !in s1.delivered ==> Parts(s1.table, key) == if mine then Parts(s.table, key) + [e.f] else Parts(s.table, key))
  {
    hide Complete, Fits, Piece;
    if e.Arrival? && Unfragmented(e.f) {
      WholeCompletes(sent[e.key], Parts(s.table, e.key), e.f);
    }
  }

  /** Once everything that ipv4_send made of a payload of at most 1536 bytes is among the arrivals, in
      time, the payload has been delivered. */
  lemma SentIsDelivered(sent: map<Key, seq<Byte>>, evs: seq<Event>, key: Key, frags: seq<Frag>)
    requires key in sent && |sent[key]| <= PACKET_SIZE && AllCut(sent, evs) && InTime(sent, evs, key)
    requires Complete(sent[key], frags) && forall f :: f in frags ==> Piece(sent[key], f)
    requires forall f :: f in frags ==> exists i :: 0 <= i < |evs| && evs[i].Arrival? && evs[i].key == key && evs[i].f == f
    ensures key in After(sent, evs).delivered
  {
    hide Complete;
    forall f | f in frags ensures f in Arrived(evs, key) {
      var i :| 0 <= i < |evs| && evs[i].Arrival? && evs[i].key == key && evs[i].f == f;
      ArrivedHas(evs, key, i);
    }
    CompleteMonotone(sent[key], frags, Arrived(evs, key));
    DeliveredExactly(sent, evs, key);
  }

  lemma {:induction false} ArrivedHas(evs: seq<Event>, key: Key, i: nat)
    requires i < |evs| && evs[i].Arrival? && evs[i].key == key && Counts(evs[i].f)
    ensures evs[i].f in Arrived(evs, key)
  {
    if i < |evs| - 1 {
      ArrivedHas(evs[..|evs| - 1], key, i);
    }
  }
}
