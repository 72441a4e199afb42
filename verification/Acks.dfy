// Acknowledgements on their way to the broker: the batcher that gathers them
// into frames, and the reconciliation that replays deferred ones.
module Acks {
  import opened Bytes
  import opened Sorting
  import opened AckRelay

  datatype Entry = Entry(n: U64, subID: U32)

  // What the batcher's select finds next: an item, an empty channel, a closed
  // channel, or a closed connection.
  datatype Event = Item(consumer: U32, entry: Entry) | Empty | ChannelClosed | ConnectionDone

  // One frame on the wire; a single entry uses the single-ack layout.
  datatype Frame = SingleAck(consumer: U32, entry: Entry) | BatchAck(consumer: U32, entries: seq<Entry>)

  const MAX_BATCH := 64

  function Carried(f: Frame): seq<Entry> {
    match f
    case SingleAck(_, e) => [e]
    case BatchAck(_, es) => es
  }

  // A frame offered to the wire, and whether it was taken.
  datatype Offer = Offer(frame: Frame, taken: bool)

  // The frames that were taken, or those that were refused.
  function Chosen(offers: seq<Offer>, taken: bool): seq<Frame> {
    if offers == [] then []
    else
      var last := offers[|offers| - 1];
      Chosen(offers[..|offers| - 1], taken) + if last.taken == taken then [last.frame] else []
  }

  // The entries offered for one consumer, in order.
  function Framed(offers: seq<Offer>, c: U32): seq<Entry> {
    if offers == [] then []
    else
      var f := offers[|offers| - 1].frame;
      Framed(offers[..|offers| - 1], c) + if f.consumer == c then Carried(f) else []
  }

  // The entries dequeued for one consumer, in order.
  function Taken(events: seq<Event>, c: U32): seq<Entry> {
    if events == [] then []
    else
      var e := events[|events| - 1];
      Taken(events[..|events| - 1], c) + if e.Item? && e.consumer == c then [e.entry] else []
  }

  function Held(pending: map<U32, seq<Entry>>, c: U32): seq<Entry> {
    if c in pending then pending[c] else []
  }

  ghost predicate AllHeldBelow(pending: map<U32, seq<Entry>>, n: nat) {
    forall c :: c in pending ==> |pending[c]| < n
  }

  predicate FrameOk(f: Frame) {
    1 <= |Carried(f)| <= MAX_BATCH && (f.BatchAck? ==> |f.entries| > 1)
  }

  // Every item dequeued is in a frame or still held, in order, once.
  ghost predicate Balanced(events: seq<Event>, offers: seq<Offer>, pending: map<U32, seq<Entry>>) {
    forall c: U32 :: BalancedFor(events, offers, pending, c)
  }

  predicate BalancedFor(events: seq<Event>, offers: seq<Offer>, pending: map<U32, seq<Entry>>, c: U32) {
    Taken(events, c) == Framed(offers, c) + Held(pending, c)
  }

  lemma TakeKeepsBalance(events: seq<Event>, offers: seq<Offer>, pending: map<U32, seq<Entry>>, c: U32, e: Entry)
    requires Balanced(events, offers, pending)
    ensures Balanced(events + [Item(c, e)], offers, pending[c := Held(pending, c) + [e]])
  {
    var events', pending' := events + [Item(c, e)], pending[c := Held(pending, c) + [e]];
    assert events'[..|events|] == events;
    forall d: U32
      ensures BalancedFor(events', offers, pending', d)
    {
      assert BalancedFor(events, offers, pending, d);
    }
  }

  lemma FlushKeepsBalance(events: seq<Event>, offers: seq<Offer>, pending: map<U32, seq<Entry>>, o: Offer)
    requires Balanced(events, offers, pending) && Carried(o.frame) == Held(pending, o.frame.consumer)
    ensures Balanced(events, offers + [o], pending[o.frame.consumer := []])
  {
    var offers', pending' := offers + [o], pending[o.frame.consumer := []];
    assert offers'[..|offers|] == offers;
    forall d: U32
      ensures BalancedFor(events, offers', pending', d)
    {
      assert BalancedFor(events, offers, pending, d);
    }
  }

  lemma OtherEventKeepsBalance(events: seq<Event>, offers: seq<Offer>, pending: map<U32, seq<Entry>>, e: Event)
    requires Balanced(events, offers, pending) && !e.Item?
    ensures Balanced(events + [e], offers, pending)
  {
    var events' := events + [e];
    assert events'[..|events|] == events;
    forall d: U32
      ensures BalancedFor(events', offers, pending, d)
    {
      assert BalancedFor(events, offers, pending, d);
    }
  }

  // What a relay holds after a refused frame's entries were recorded.
  function RecordedAll(h: Hot, c: U32, es: seq<Entry>, now: int): Hot {
    if es == [] then h else Recorded(RecordedAll(h, c, es[..|es| - 1], now), c, es[|es| - 1].n, now)
  }

  // What a relay holds after these offers: refused frames were recorded, frames
  // that were taken left it alone.
  function RelayAfter(h: Hot, offers: seq<Offer>, now: int): Hot {
    if offers == [] then h
    else
      var last := offers[|offers| - 1];
      var h' := RelayAfter(h, offers[..|offers| - 1], now);
      if last.taken then h' else RecordedAll(h', last.frame.consumer, Carried(last.frame), now)
  }

  ghost predicate RefusedIn(offers: seq<Offer>, c: U32, n: U64) {
    exists i, e :: 0 <= i < |offers| && !offers[i].taken && offers[i].frame.consumer == c
                   && e in Carried(offers[i].frame) && e.n == n
  }

  ghost predicate Carries(es: seq<Entry>, n: U64) {
    exists e :: e in es && e.n == n
  }

  lemma CarriesSnoc(es: seq<Entry>, e: Entry, n: U64)
    ensures Carries(es + [e], n) <==> Carries(es, n) || e.n == n
  {
    assert e in es + [e];
    if x :| x in es && x.n == n {
      assert x in es + [e];
    }
  }

  lemma {:induction false} RecordedAllIs(h: Hot, c: U32, es: seq<Entry>, now: int, d: U32, n: U64)
    ensures n in Pending(RecordedAll(h, c, es, now), d) <==> n in Pending(h, d) || (d == c && Carries(es, n))
  {
    if es != [] {
      var k := |es| - 1;
      RecordedAllIs(h, c, es[..k], now, d, n);
      assert es == es[..k] + [es[k]];
      CarriesSnoc(es[..k], es[k], n);
      PendingAfterIff(RecordedAll(h, c, es[..k], now), OpRecord(c, es[k].n, now), d, n);
    }
  }

  lemma RefusedInSnoc(offers: seq<Offer>, o: Offer, c: U32, n: U64)
    ensures RefusedIn(offers + [o], c, n) <==>
            RefusedIn(offers, c, n) || (!o.taken && o.frame.consumer == c && Carries(Carried(o.frame), n))
  {
    var all := offers + [o];
    if RefusedIn(offers, c, n) {
      var i, e :| 0 <= i < |offers| && !offers[i].taken && offers[i].frame.consumer == c
                  && e in Carried(offers[i].frame) && e.n == n;
      assert all[i] == offers[i];
    }
    if !o.taken && o.frame.consumer == c && Carries(Carried(o.frame), n) {
      var e :| e in Carried(o.frame) && e.n == n;
      assert all[|offers|] == o;
    }
    if RefusedIn(all, c, n) {
      var i, e :|
        0 <= i < |all| && !all[i].taken && all[i].frame.consumer == c && e in Carried(all[i].frame) && e.n == n;
      assert i < |offers| ==> all[i] == offers[i];
    }
  }

  // The relay gains exactly the entries of refused frames, and loses nothing.
  lemma {:induction false} RefusedAreDeferred(h: Hot, offers: seq<Offer>, now: int, c: U32, n: U64)
    ensures n in Pending(RelayAfter(h, offers, now), c) <==> n in Pending(h, c) || RefusedIn(offers, c, n)
  {
    if offers != [] {
      var k := |offers| - 1;
      RefusedAreDeferred(h, offers[..k], now, c, n);
      assert offers == offers[..k] + [offers[k]];
      RefusedInSnoc(offers[..k], offers[k], c, n);
      RecordedAllIs(RelayAfter(h, offers[..k], now), offers[k].frame.consumer, Carried(offers[k].frame), now, c, n);
    }
  }

  lemma {:induction false} RecordedAllConserves(h: Hot, c: U32, es: seq<Entry>, now: int)
    requires Conserved(h)
    ensures Conserved(RecordedAll(h, c, es, now))
  {
    if es != [] {
      RecordedAllConserves(h, c, es[..|es| - 1], now);
      RecordConserves(RecordedAll(h, c, es[..|es| - 1], now), c, es[|es| - 1].n, now);
    }
  }

  // Every entry offered was taken by the wire or deferred, and of what was
  // deferred every seq is accounted for.
  lemma {:induction false} OffersConserve(h: Hot, offers: seq<Offer>, now: int)
    requires Conserved(h)
    ensures Conserved(RelayAfter(h, offers, now))
    ensures |Chosen(offers, true)| + |Chosen(offers, false)| == |offers|
  {
    if offers != [] {
      var k := |offers| - 1;
      OffersConserve(h, offers[..k], now);
      if !offers[k].taken {
        RecordedAllConserves(RelayAfter(h, offers[..k], now), offers[k].frame.consumer, Carried(offers[k].frame), now);
      }
    }
  }

  ghost predicate OffersOk(offers: seq<Offer>) {
    forall i :: 0 <= i < |offers| ==> FrameOk(offers[i].frame)
  }

  ghost predicate AnsweredBy(offers: seq<Offer>, room: nat -> bool) {
    forall i :: 0 <= i < |offers| ==> offers[i].taken == room(i)
  }

  lemma OneMoreAnswer(offers: seq<Offer>, o: Offer, room: nat -> bool)
    requires OffersOk(offers) && AnsweredBy(offers, room) && FrameOk(o.frame) && o.taken == room(|offers|)
    ensures OffersOk(offers + [o]) && AnsweredBy(offers + [o], room)
  {
    assert forall i :: 0 <= i < |offers| ==> (offers + [o])[i] == offers[i];
  }

  lemma OneMoreOffer(offers: seq<Offer>, o: Offer, h: Hot, now: int)
    ensures var all := offers + [o];
            && Chosen(all, true) == (if o.taken then Chosen(offers, true) + [o.frame] else Chosen(offers, true))
            && RelayAfter(h, all, now) ==
                 (if o.taken then RelayAfter(h, offers, now)
                  else RecordedAll(RelayAfter(h, offers, now), o.frame.consumer, Carried(o.frame), now))
  {
    assert (offers + [o])[..|offers|] == offers;
  }

  class AckBatcher {
    const relay: Option<Relay>
    // The outbound queue's answers, in the order it is asked, and how often it
    // has been.
    const room: nat -> bool
    var asked: nat
    var pending: map<U32, seq<Entry>>
    var wire: seq<Frame>
    // Every frame offered to the wire so far.
    ghost var offers: seq<Offer>

    // The wire has exactly the frames it took, and the relay, which held `base`
    // to begin with, has exactly the entries of the others besides.
    ghost predicate Accounted(base: Hot, now: int)
      reads this, RelaySet()
    {
      var ok :=
        && wire == Chosen(offers, true) && OffersOk(offers) && Answered(offers)
        && (relay.Some? ==> relay.value.Valid() && relay.value.hot == RelayAfter(base, offers, now));
      ok
    }

    // Each frame was offered to the queue once, and taken as the queue answered.
    ghost predicate Answered(offers: seq<Offer>)
      reads this`asked
    {
      asked == |offers| && AnsweredBy(offers, room)
    }

    ghost function RelaySet(): set<object>
      reads if relay.Some? then {relay.value} else {}
    {
      if relay.Some? then {relay.value} + relay.value.byID.Values else {}
    }

    twostate predicate RelayKnown()
      reads if relay.Some? then {relay.value} else {}
    {
      relay.Some? ==> relay.value.StatesKnown()
    }

    constructor (relay: Option<Relay>, room: nat -> bool)
      requires relay.Some? ==> relay.value.Valid()
      ensures this.relay == relay && this.room == room && asked == 0 && pending == map[] && offers == [] && wire == []
    {
      this.relay, this.room, asked, pending, wire, offers := relay, room, 0, map[], [], [];
    }

    // The outbound queue takes a frame or refuses it, as it has room.
    method TrySend(f: Frame) returns (ok: bool)
      modifies this`wire, this`asked
      ensures ok == room(old(asked)) && asked == old(asked) + 1
      ensures wire == if ok then old(wire) + [f] else old(wire)
    {
      ok := room(asked);
      asked := asked + 1;
      if ok {
        wire := wire + [f];
      }
    }

    method RecordFailed(c: U32, entries: seq<Entry>, now: int)
      requires relay.Some? ==> relay.value.Valid()
      modifies RelaySet()
      ensures RelayKnown()
      ensures relay.Some? ==>
                relay.value.Valid() && relay.value.hot == RecordedAll(old(relay.value.hot), c, entries, now)
    {
      if relay.None? {
        return;
      }
      var r := relay.value;
      for i := 0 to |entries|
        invariant r.Valid() && r.StatesKnown() && r.hot == RecordedAll(old(r.hot), c, entries[..i], now)
      {
        assert entries[..i + 1][..i] == entries[..i];
        r.Record(c, entries[i].n, now);
      }
      assert entries[..|entries|] == entries;
    }

    // One frame for the entries held for a consumer, offered to the queue once:
    // taken, it is on the wire and the relay is left alone; refused, it is not
    // and each of its entries is recorded in the relay.
    method SendBatchAck(c: U32, entries: seq<Entry>, now: int) returns (ok: bool)
      requires entries != [] && (relay.Some? ==> relay.value.Valid())
      modifies this`wire, this`asked, this`offers, RelaySet()
      ensures ok == room(old(asked)) && asked == old(asked) + 1
      ensures offers == old(offers) + [Offer(FrameOf(c, entries), ok)] && RelayKnown()
      ensures wire == if ok then old(wire) + [FrameOf(c, entries)] else old(wire)
      ensures relay.Some? ==>
                && relay.value.Valid()
                && relay.value.hot ==
                     if ok then old(relay.value.hot) else RecordedAll(old(relay.value.hot), c, entries, now)
    {
      var f := FrameOf(c, entries);
      ok := TrySend(f);
      if !ok {
        RecordFailed(c, entries, now);
      }
      offers := offers + [Offer(f, ok)];
    }

    method SendAccounted(c: U32, entries: seq<Entry>, ghost base: Hot, now: int) returns (ok: bool)
      requires Accounted(base, now) && 0 < |entries| <= MAX_BATCH
      modifies this`wire, this`asked, this`offers, RelaySet()
      ensures Accounted(base, now) && RelayKnown()
      ensures offers == old(offers) + [Offer(FrameOf(c, entries), ok)]
    {
      ghost var was := offers;
      ok := SendBatchAck(c, entries, now);
      OneMoreOffer(was, Offer(FrameOf(c, entries), ok), base, now);
      OneMoreAnswer(was, Offer(FrameOf(c, entries), ok), room);
    }

    method FlushConsumer(c: U32, ghost base: Hot, now: int, ghost events: seq<Event>)
      requires Accounted(base, now) && c in pending && |pending[c]| <= MAX_BATCH
      requires Balanced(events, offers, pending)
      modifies this, RelaySet()
      ensures Accounted(base, now) && RelayKnown()
      ensures pending == old(pending)[c := []] && Balanced(events, offers, pending)
    {
      var entries := pending[c];
      if |entries| == 0 {
        assert pending[c := []] == pending;
        return;
      }
      ghost var was := offers;
      var ok := SendAccounted(c, entries, base, now);
      FlushKeepsBalance(events, was, pending, Offer(FrameOf(c, entries), ok));
      pending := pending[c := []];
    }

    // Sends what is held for every consumer, in any order.
    method Flush(ghost base: Hot, now: int, ghost events: seq<Event>)
      requires Accounted(base, now) && AllHeldBelow(pending, MAX_BATCH)
      requires Balanced(events, offers, pending)
      modifies this, RelaySet()
      ensures Accounted(base, now) && RelayKnown()
      ensures AllHeldBelow(pending, 1) && Balanced(events, offers, pending)
    {
      var rest := pending.Keys;
      while rest != {}
        invariant Accounted(base, now) && RelayKnown()
        invariant Balanced(events, offers, pending) && rest <= pending.Keys
        invariant AllHeldBelow(pending, MAX_BATCH) && forall c :: c in pending && c !in rest ==> pending[c] == []
        decreases |rest|
      {
        var c :| c in rest;
        rest := rest - {c};
        FlushConsumer(c, base, now, events);
      }
    }

    method Append(c: U32, e: Entry, ghost events: seq<Event>)
      requires Balanced(events, offers, pending)
      modifies this`pending
      ensures pending == old(pending)[c := Held(old(pending), c) + [e]]
      ensures Balanced(events + [Item(c, e)], offers, pending)
    {
      TakeKeepsBalance(events, offers, pending, c, e);
      pending := pending[c := (if c in pending then pending[c] else []) + [e]];
    }

    method TakeItem(c: U32, e: Entry, ghost base: Hot, now: int, ghost events: seq<Event>)
      requires Accounted(base, now) && AllHeldBelow(pending, MAX_BATCH) && Balanced(events, offers, pending)
      modifies this, RelaySet()
      ensures Accounted(base, now) && RelayKnown()
      ensures AllHeldBelow(pending, MAX_BATCH) && Balanced(events + [Item(c, e)], offers, pending)
    {
      Append(c, e, events);
      if |pending[c]| >= MAX_BATCH {
        FlushConsumer(c, base, now, events + [Item(c, e)]);
      }
    }

    // Takes what else is in the channel, sending a consumer's batch as it fills.
    method Drain(script: seq<Event>, from: nat, ghost base: Hot, now: int) returns (read: nat, stopped: bool)
      requires from <= |script| && Accounted(base, now) && AllHeldBelow(pending, MAX_BATCH)
      requires Balanced(script[..from], offers, pending)
      modifies this, RelaySet()
      ensures from <= read <= |script| && Accounted(base, now) && RelayKnown()
      ensures AllHeldBelow(pending, MAX_BATCH) && Balanced(script[..read], offers, pending)
      ensures stopped ==> read > from && script[read - 1] == ChannelClosed
    {
      read := from;
      while read < |script| && (script[read].Item? || script[read].ChannelClosed?)
        invariant from <= read <= |script| && Accounted(base, now) && RelayKnown()
        invariant AllHeldBelow(pending, MAX_BATCH) && Balanced(script[..read], offers, pending)
      {
        ghost var events := script[..read];
        assert script[..read + 1] == events + [script[read]];
        if script[read].ChannelClosed? {
          OtherEventKeepsBalance(events, offers, pending, script[read]);
          return read + 1, true;
        }
        TakeItem(script[read].consumer, script[read].entry, base, now, events);
        read := read + 1;
      }
      stopped := false;
    }

    // An item, whatever else is there with it, and then all that is held is sent.
    method TakeBatch(script: seq<Event>, from: nat, ghost base: Hot, now: int) returns (read: nat, stopped: bool)
      requires from < |script| && script[from].Item? && Accounted(base, now) && AllHeldBelow(pending, 1)
      requires Balanced(script[..from], offers, pending)
      modifies this, RelaySet()
      ensures from < read <= |script| && Accounted(base, now) && RelayKnown()
      ensures AllHeldBelow(pending, 1) && Balanced(script[..read], offers, pending)
      ensures stopped ==> script[read - 1] == ChannelClosed
    {
      assert script[..from + 1] == script[..from] + [script[from]];
      Append(script[from].consumer, script[from].entry, script[..from]);
      read, stopped := Drain(script, from + 1, base, now);
      Flush(base, now, script[..read]);
    }

    // The batcher's life over what its channel and connection do, until one of
    // them closes or nothing more comes. Each consumer's items have by then been
    // offered to the wire in order, each in one frame of 1 to 64 entries; the
    // wire has exactly the frames it took, and an attached relay has exactly
    // the entries of the others besides what it held.
    method Run(script: seq<Event>, now: int) returns (read: nat, stopped: bool)
      requires pending == map[] && offers == [] && wire == [] && asked == 0 && (relay.Some? ==> relay.value.Valid())
      modifies this, RelaySet()
      ensures read <= |script| && AllHeldBelow(pending, 1) && OffersOk(offers)
      ensures forall c: U32 :: Framed(offers, c) == Taken(script[..read], c)
      ensures wire == Chosen(offers, true) && Answered(offers)
      ensures relay.Some? ==> relay.value.Valid() && relay.value.hot == RelayAfter(old(relay.value.hot), offers, now)
      ensures if stopped then read > 0 && (script[read - 1].ChannelClosed? || script[read - 1].ConnectionDone?)
              else read == |script|
    {
      ghost var base := if relay.Some? then relay.value.hot else NO_HOT;
      read, stopped := 0, false;
      while read < |script| && !stopped
        invariant read <= |script| && Accounted(base, now) && RelayKnown()
        invariant AllHeldBelow(pending, 1) && Balanced(script[..read], offers, pending)
        invariant stopped ==> read > 0 && (script[read - 1].ChannelClosed? || script[read - 1].ConnectionDone?)
        decreases |script| - read
      {
        read, stopped := Turn(script, read, base, now);
      }
      forall c: U32
        ensures Framed(offers, c) == Taken(script[..read], c)
      {
        assert BalancedFor(script[..read], offers, pending, c);
      }
    }

    // One turn of the outer loop.
    method Turn(script: seq<Event>, from: nat, ghost base: Hot, now: int) returns (read: nat, stopped: bool)
      requires from < |script| && Accounted(base, now) && AllHeldBelow(pending, 1)
      requires Balanced(script[..from], offers, pending)
      modifies this, RelaySet()
      ensures from < read <= |script| && Accounted(base, now) && RelayKnown()
      ensures AllHeldBelow(pending, 1) && Balanced(script[..read], offers, pending)
      ensures stopped ==> script[read - 1].ChannelClosed? || script[read - 1].ConnectionDone?
    {
      if script[from].Item? {
        read, stopped := TakeBatch(script, from, base, now);
        return;
      }
      assert script[..from + 1] == script[..from] + [script[from]];
      OtherEventKeepsBalance(script[..from], offers, pending, script[from]);
      read, stopped := from + 1, !script[from].Empty?;
      if stopped {
        Flush(base, now, script[..read]);
      }
    }
  }

  function FrameOf(c: U32, entries: seq<Entry>): (f: Frame)
    requires entries != []
    ensures f.consumer == c && Carried(f) == entries && (|entries| <= MAX_BATCH ==> FrameOk(f))
  {
    if |entries| == 1 then SingleAck(c, entries[0]) else BatchAck(c, entries)
  }

  // ---- Reconciliation with the broker ----

  const MAX_REPLAY := 1000

  // An AckBatch frame that replays deferred acknowledgements.
  datatype Replay = Replay(consumer: U32, generation: U32, ns: seq<U64>)

  function Replayed(frames: seq<Replay>): seq<U64> {
    if frames == [] then [] else Replayed(frames[..|frames| - 1]) + frames[|frames| - 1].ns
  }

  datatype Status = StatusOk | StatusOther

  class Reconciler {
    const relay: Option<Relay>
    // Whether a durable store listens to what is confirmed.
    const durable: bool
    // The frames offered to the wire, and the purges passed on to the store.
    var frames: seq<Replay>
    var purged: seq<(U32, U64)>

    constructor (relay: Option<Relay>, durable: bool)
      ensures this.relay == relay && this.durable == durable && frames == [] && purged == []
    {
      this.relay, this.durable, frames, purged := relay, durable, [], [];
    }

    // The broker's generation is the one this consumer's relay is at.
    ghost predicate AtGeneration(c: U32, generation: U32)
      reads if relay.Some? then {relay.value} else {}
    {
      relay.Some? && TierOf(relay.value.hot, c).generation == generation
    }

    // Replays ascending seqs in frames of at most 1000.
    method ReplayPending(c: U32, generation: U32, ns: seq<U64>)
      modifies this`frames
      ensures Replays(old(frames), frames, c, generation, ns)
    {
      ghost var was := frames;
      ChunksStart(was, c, generation, ns);
      var start := 0;
      while start < |ns|
        invariant Chunks(was, frames, c, generation, ns, start)
      {
        var end := start + MAX_REPLAY;
        if end > |ns| {
          end := |ns|;
        }
        ChunksMore(was, frames, c, generation, ns, start, end);
        frames := frames + [Replay(c, generation, ns[start..end])];
        start := start + MAX_REPLAY;
      }
      assert ns[..|ns|] == ns;
    }

    // The broker's account of a consumer: what it has confirmed or no longer
    // keeps goes, and the rest is replayed, unless its generation is another.
    // The store is told the cursor exactly if the broker vouches for it, then
    // the end of what the broker no longer keeps exactly if the generation is
    // the relay's, and nothing else.
    method HandleAckStateRep(c: U32, generation: U32, cursor: U64, lowSeq: U64, status: Status)
      requires relay.Some? ==> relay.value.Valid()
      modifies this, (if relay.Some? then {relay.value} else {}), (if relay.Some? then relay.value.byID.Values else {})
      ensures purged == old(purged) + (if durable && status.StatusOk? then [(c, cursor)] else [])
                        + (if durable && old(AtGeneration(c, generation)) && lowSeq > 0 then [(c, lowSeq - 1)] else [])
      ensures relay.None? ==> frames == old(frames)
      ensures relay.Some? ==>
                && relay.value.Valid()
                && relay.value.hot == Reconciled(old(relay.value.hot), c, generation, cursor, lowSeq)
                && Pending(relay.value.hot, c) ==
                     (if old(AtGeneration(c, generation))
                      then set n | n in old(Pending(relay.value.hot, c)) && n > cursor && n >= lowSeq else {})
                && Replays(old(frames), frames, c, generation,
                           if old(AtGeneration(c, generation)) then Asc64(Pending(relay.value.hot, c)) else [])
    {
      NoteCursor(c, cursor, status);
      if relay.Some? {
        ReconciledPending(relay.value.hot, c, generation, cursor, lowSeq);
        Reconcile(relay.value, c, generation, cursor, lowSeq);
      }
    }

    method NoteCursor(c: U32, cursor: U64, status: Status)
      modifies this`purged
      ensures purged == old(purged) + if durable && status.StatusOk? then [(c, cursor)] else []
    {
      if status.StatusOk? && durable {
        purged := purged + [(c, cursor)];
      }
    }

    method Reconcile(r: Relay, c: U32, generation: U32, cursor: U64, lowSeq: U64)
      requires r.Valid()
      modifies this`purged, this`frames, r, r.byID.Values
      ensures r.Valid() && r.hot == Reconciled(old(r.hot), c, generation, cursor, lowSeq)
      ensures purged == old(purged) +
                if durable && generation == TierOf(old(r.hot), c).generation && lowSeq > 0
                then [(c, lowSeq - 1)] else []
      ensures Replays(old(frames), frames, c, generation,
                      if generation == TierOf(old(r.hot), c).generation then Asc64(Pending(r.hot, c)) else [])
    {
      var same := Settle(r, c, generation, cursor, lowSeq);
      ReplayIf(same, r, c, generation);
    }

    method ReplayIf(same: bool, r: Relay, c: U32, generation: U32)
      requires r.Valid()
      modifies this`frames
      ensures Replays(old(frames), frames, c, generation, if same then Asc64(Pending(r.hot, c)) else [])
    {
      if same {
        var ns := r.PendingSeqs(c);
        ReplayPending(c, generation, ns);
      }
    }

    method Settle(r: Relay, c: U32, generation: U32, cursor: U64, lowSeq: U64) returns (same: bool)
      requires r.Valid()
      modifies this`purged, r, r.byID.Values
      ensures r.Valid() && r.hot == Reconciled(old(r.hot), c, generation, cursor, lowSeq)
      ensures same == (generation == TierOf(old(r.hot), c).generation)
      ensures purged == old(purged) +
                if durable && generation == TierOf(old(r.hot), c).generation && lowSeq > 0
                then [(c, lowSeq - 1)] else []
    {
      var local := r.Generation(c);
      if generation != local {
        r.EnsureGeneration(c, generation);
        return false;
      }
      var n := r.ConfirmUpTo(c, cursor);
      PurgeFloor(r, c, lowSeq);
      return true;
    }

    // Below the broker's floor nothing will be confirmed any more.
    method PurgeFloor(r: Relay, c: U32, lowSeq: U64)
      requires r.Valid()
      modifies this`purged, r, r.byID.Values
      ensures r.Valid() && r.hot == FloorPurged(old(r.hot), c, lowSeq) && r.byID == old(r.byID)
      ensures purged == old(purged) + if durable && lowSeq > 0 then [(c, lowSeq - 1)] else []
    {
      if lowSeq > 0 {
        var n := r.ConfirmUpTo(c, lowSeq - 1);
        if durable {
          purged := purged + [(c, lowSeq - 1)];
        }
      }
    }
  }

  function FloorPurged(h: Hot, c: U32, lowSeq: U64): Hot {
    if lowSeq > 0 then ConfirmedUpTo(h, c, lowSeq - 1) else h
  }

  function Reconciled(h: Hot, c: U32, generation: U32, cursor: U64, lowSeq: U64): Hot {
    if TierOf(h, c).generation != generation then EnsuredGeneration(h, c, generation)
    else FloorPurged(ConfirmedUpTo(h, c, cursor), c, lowSeq)
  }

  // The frames added carry `ns` in order.
  predicate Replays(was: seq<Replay>, frames: seq<Replay>, c: U32, generation: U32, ns: seq<U64>) {
    was <= frames && Replayed(frames[|was|..]) == ns && RepliesOk(frames[|was|..], c, generation)
  }

  // Part way through a replay: what was sent carries the first `start` seqs, or
  // all if there are no more, in frames that are full but perhaps for the last.
  predicate Chunks(was: seq<Replay>, frames: seq<Replay>, c: U32, generation: U32, ns: seq<U64>, start: nat) {
    var ok :=
      && was <= frames && Replayed(frames[|was|..]) == ns[..if start <= |ns| then start else |ns|]
      && RepliesOk(frames[|was|..], c, generation)
      && (start <= |ns| ==> forall i :: |was| <= i < |frames| ==> |frames[i].ns| == MAX_REPLAY);
    ok
  }

  lemma ChunksStart(was: seq<Replay>, c: U32, generation: U32, ns: seq<U64>)
    ensures Chunks(was, was, c, generation, ns, 0)
  {
    assert was[|was|..] == [] && ns[..0] == [];
  }

  lemma ChunksMore(was: seq<Replay>, frames: seq<Replay>, c: U32, generation: U32, ns: seq<U64>, start: nat, end: nat)
    requires Chunks(was, frames, c, generation, ns, start) && start < |ns|
    requires end == if start + MAX_REPLAY > |ns| then |ns| else start + MAX_REPLAY
    ensures Chunks(was, frames + [Replay(c, generation, ns[start..end])], c, generation, ns, start + MAX_REPLAY)
  {
    var sent, more := frames[|was|..], Replay(c, generation, ns[start..end]);
    assert (frames + [more])[|was|..] == sent + [more] && (sent + [more])[..|sent|] == sent;
    assert ns[..end] == ns[..start] + ns[start..end];
    assert forall i :: 0 <= i < |sent| ==> sent[i] == frames[|was| + i];
  }

  predicate RepliesOk(frames: seq<Replay>, c: U32, generation: U32) {
    forall i :: 0 <= i < |frames| ==>
      && frames[i].consumer == c && frames[i].generation == generation && 1 <= |frames[i].ns| <= MAX_REPLAY
      && (i < |frames| - 1 ==> |frames[i].ns| == MAX_REPLAY)
  }

  lemma ReconciledPending(h: Hot, c: U32, generation: U32, cursor: U64, lowSeq: U64)
    ensures Pending(Reconciled(h, c, generation, cursor, lowSeq), c) ==
            if TierOf(h, c).generation != generation then {}
            else set n | n in Pending(h, c) && n > cursor && n >= lowSeq
  {
    var h1 := ConfirmedUpTo(h, c, cursor);
    forall n: U64
      ensures n in Pending(h1, c) <==> n in Pending(h, c) && n > cursor
    {
      PendingAfterIff(h, OpConfirmUpTo(c, cursor), c, n);
    }
    forall n: U64
      ensures lowSeq > 0 ==> (n in Pending(ConfirmedUpTo(h1, c, lowSeq - 1), c) <==> n in Pending(h1, c) && n >= lowSeq)
    {
      if lowSeq > 0 {
        PendingAfterIff(h1, OpConfirmUpTo(c, lowSeq - 1), c, n);
      }
    }
    GenerationAfter(h, OpEnsure(c, generation), c);
  }

  lemma ConfirmLeaves(h: Hot, c: U32, cursor: U64)
    requires Conserved(h)
    ensures var h' := ConfirmedUpTo(h, c, cursor);
            && Conserved(h') && TierOf(h', c).generation == TierOf(h, c).generation
            && (forall d :: d != c ==> TierOf(h', d) == TierOf(h, d))
            && Pending(h', c) == set n | n in Pending(h, c) && n > cursor
  {
    ApplyConserves(h, OpConfirmUpTo(c, cursor));
  }

  lemma FloorLeaves(h: Hot, c: U32, cursor: U64, lowSeq: U64)
    requires Conserved(h)
    ensures var h' := FloorPurged(ConfirmedUpTo(h, c, cursor), c, lowSeq);
            && Conserved(h') && TierOf(h', c).generation == TierOf(h, c).generation
            && (forall d :: d != c ==> TierOf(h', d) == TierOf(h, d))
            && Pending(h', c) == set n | n in Pending(h, c) && n > cursor && n >= lowSeq
  {
    ConfirmLeaves(h, c, cursor);
    if lowSeq > 0 {
      ConfirmLeaves(ConfirmedUpTo(h, c, cursor), c, lowSeq - 1);
    }
  }

  // With equal generations exactly the seqs above the cursor and not below the
  // broker's floor stay; with another generation that one is adopted and
  // nothing stays. Other consumers are untouched and every seq is accounted for.
  lemma ReconciledLeaves(h: Hot, c: U32, generation: U32, cursor: U64, lowSeq: U64)
    requires Conserved(h)
    ensures var h' := Reconciled(h, c, generation, cursor, lowSeq);
            && Conserved(h') && TierOf(h', c).generation == generation
            && (forall d :: d != c ==> TierOf(h', d) == TierOf(h, d))
            && Pending(h', c) == (if TierOf(h, c).generation != generation then {}
                                  else set n | n in Pending(h, c) && n > cursor && n >= lowSeq)
  {
    if TierOf(h, c).generation != generation {
      ApplyConserves(h, OpEnsure(c, generation));
    } else {
      FloorLeaves(h, c, cursor, lowSeq);
    }
  }
}
