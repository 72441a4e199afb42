// The write-ahead log store: slot handles over one shared log file.
module Wal {
  import opened Bytes
  import opened FrameLog
  import opened Format
  import opened Codec
  import opened Replay
  import opened Sorting
  import opened Compaction
  import opened LogFile
  import opened SlotModel
  import opened SlotLife
  import opened Books

  datatype Error = Closed | SlotOverflow | NameTooLong | UnknownSlot

  // The slots that have a seq dated later than this.
  ghost function AheadOf(vs: map<SlotState, Slot>, now: I64): set<U32> {
    set st | st in vs && Ahead(vs[st], now) :: st.slotID
  }

  // The slots whose Register a compaction of `rs` does not write again.
  ghost function Gone(sts: set<SlotState>, rs: seq<Rec>, cutoff: I64): set<U32> {
    set st | st in sts && !Survives(rs, st.slotID, Names(st.stream, st.consumer), cutoff) :: st.slotID
  }

  // ---- The classes ----

  class SlotState {
    const wal: WAL
    const slotID: U32
    const stream: Name
    const consumer: Name
    ghost const key: Name
    var live: Live
    var fifo: seq<U64>
    var minSeq: U64
    var maxSeq: U64
    var tombed: bool

    ghost function View(): Slot
      reads this
    {
      Slot(live, fifo, minSeq, maxSeq, tombed)
    }

    constructor (wal: WAL, slotID: U32, stream: Name, consumer: Name)
      ensures this.wal == wal && this.slotID == slotID && this.stream == stream && this.consumer == consumer
      ensures key == SlotKey(stream, consumer) && View() == NEW_SLOT
    {
      this.wal, this.slotID, this.stream, this.consumer := wal, slotID, stream, consumer;
      key := SlotKey(stream, consumer);
      live, fifo, minSeq, maxSeq, tombed := map[], [], 0, 0, false;
    }

    // A slot as replay rebuilds it: the live seqs sorted, the bounds exact.
    constructor Restored(wal: WAL, slotID: U32, nm: Names, live: Live, seqs: seq<U64>)
      requires seqs == Asc64(live.Keys)
      ensures this.wal == wal && this.slotID == slotID && this.stream == nm.stream && this.consumer == nm.consumer
      ensures key == SlotKey(nm.stream, nm.consumer) && View() == Rebuilt(live)
    {
      this.wal, this.slotID, this.stream, this.consumer := wal, slotID, nm.stream, nm.consumer;
      key := SlotKey(nm.stream, nm.consumer);
      this.live, fifo, tombed := live, seqs, false;
      minSeq, maxSeq := 0, 0;
      if |seqs| > 0 {
        minSeq, maxSeq := seqs[0], seqs[|seqs| - 1];
      }
    }

    method Fresh(n: U64) returns (isFresh: bool)
      ensures isFresh == SlotModel.Fresh(View(), n)
    {
      if maxSeq == 0 || n > maxSeq {
        return true;
      }
      if n < minSeq {
        return true;
      }
      return false;
    }

    method Seen(n: U64) returns (seen: bool)
      ensures seen == SlotModel.Seen(View(), n)
    {
      var isFresh := Fresh(n);
      if isFresh {
        return false;
      }
      return n in live;
    }

    method EvictLocked(cap: nat)
      modifies this`live, this`fifo
      ensures var k := Overflow(old(fifo), cap);
              live == old(live) - Elems(old(fifo[..k])) && fifo == old(fifo[k..])
    {
      ghost var k := 0;
      while |fifo| > cap
        invariant k <= |old(fifo)| && fifo == old(fifo)[k..] && live == old(live) - Elems(old(fifo)[..k])
        invariant k <= Overflow(old(fifo), cap)
      {
        var oldest := fifo[0];
        fifo := fifo[1..];
        live := live - {oldest};
        assert old(fifo)[..k + 1] == old(fifo)[..k] + [oldest];
        ElemsSnoc(old(fifo)[..k], oldest);
        k := k + 1;
      }
    }

    method RefreshBoundsLocked(inserted: U64)
      modifies this`minSeq, this`maxSeq
      ensures maxSeq == if inserted > old(maxSeq) then inserted else old(maxSeq)
      ensures minSeq == if fifo == [] then old(minSeq) else fifo[0]
    {
      if inserted > maxSeq {
        maxSeq := inserted;
      }
      if |fifo| > 0 {
        minSeq := fifo[0];
      }
    }

    method CompactFifoLocked()
      modifies this`fifo, this`minSeq
      ensures View() == CompactFifo(old(View()))
    {
      if |fifo| == 0 {
        return;
      }
      var kept: seq<U64>, min: U64 := [], 0;
      for i := 0 to |fifo|
        invariant fifo == old(fifo) && minSeq == old(minSeq)
        invariant kept == Kept(fifo[..i], live.Keys) && min == MinOf(kept)
      {
        assert fifo[..i + 1][..i] == fifo[..i];
        var n := fifo[i];
        if n in live {
          assert (kept + [n])[..|kept|] == kept;
          kept := kept + [n];
          if min == 0 || n < min {
            min := n;
          }
        }
      }
      assert fifo[..|fifo|] == fifo;
      fifo := kept;
      minSeq := min;
    }

    // Remembers a new seq, and makes room for it.
    method InsertLocked(n: U64, now: I64, cap: nat)
      modifies this
      ensures View() == Insert(old(View()), n, now, cap)
    {
      live := live[n := now];
      fifo := fifo + [n];
      EvictLocked(cap);
      RefreshBoundsLocked(n);
    }

    // The test-and-set: a duplicate changes nothing; a new seq is remembered,
    // the oldest entries make room, and one Record is appended.
    method CheckRecord(n: U64, now: I64) returns (isNew: bool, err: Option<Error>)
      requires wal.Valid() && this in wal.views
      modifies this, wal`file, wal`book, wal`recsSinceSnap, wal`views
      ensures wal.Valid() && wal.views == old(wal.views)[this := View()]
      ensures (isNew, View()) == SlotModel.CheckRecord(old(View()), n, now, wal.maxCap)
      ensures TestedAndSet(old(View()), View(), n, now, wal.maxCap, isNew)
      ensures wal.book.log == old(wal.book.log) +
                if !wal.closed && isNew && !tombed then [SeqOp(Record, slotID, AsU64(now), n)] else []
      ensures wal.book == BookAfter(old(wal.book), slotID, old(View()), OpCheck(n, now), wal.maxCap)
      ensures err == if wal.closed && !tombed && isNew then Some(Closed) else None
      ensures wal.recsSinceSnap ==
                if !wal.closed && !tombed && isNew then old(wal.recsSinceSnap) + 1 else old(wal.recsSinceSnap)
    {
      CheckRecordTests(View(), n, now, wal.maxCap);
      if tombed {
        IdleCheck(wal.book, slotID, View(), n, now, wal.maxCap);
        return true, None;
      }
      if n in live {
        IdleCheck(wal.book, slotID, View(), n, now, wal.maxCap);
        return false, None;
      }
      InsertLocked(n, now, wal.maxCap);
      err := wal.LogSeqOp(this, Record, AsU64(now), n, OpCheck(n, now));
      isNew := true;
    }

    method Confirm(n: U64, now: I64) returns (err: Option<Error>)
      requires wal.Valid() && this in wal.views
      modifies this, wal`file, wal`book, wal`recsSinceSnap, wal`views
      ensures wal.Valid() && wal.views == old(wal.views)[this := View()]
      ensures View() == ConfirmOne(old(View()), n)
      ensures wal.book.log == old(wal.book.log) +
                if wal.closed then [] else [SeqOp(Op.Confirm, slotID, AsU64(now), n)]
      ensures wal.book == BookAfter(old(wal.book), slotID, old(View()), OpConfirm(n, now), wal.maxCap)
      ensures err == (if wal.closed then Some(Closed) else None) && wal.recsSinceSnap == old(wal.recsSinceSnap)
    {
      ghost var before := View();
      if n in live {
        live := live - {n};
      }
      assert n !in before.live ==> before.live - {n} == before.live;
      err := wal.LogSeqOp(this, Op.Confirm, AsU64(now), n, OpConfirm(n, now));
    }

    method DropLocked(cursor: U64) returns (removed: nat)
      modifies this
      ensures (removed, View()) == ConfirmTo(old(View()), cursor)
    {
      ghost var before := View();
      DropCount(before, cursor);
      live, removed := DeleteUpTo(live, cursor);
      if removed > 0 {
        CompactFifoLocked();
      }
    }

    // Every live seq at or below the cursor goes, under a single record.
    method ConfirmUpTo(cursor: U64, now: I64) returns (removed: nat, err: Option<Error>)
      requires wal.Valid() && this in wal.views
      modifies this, wal`file, wal`book, wal`recsSinceSnap, wal`views
      ensures wal.Valid() && wal.views == old(wal.views)[this := View()]
      ensures (removed, View()) == ConfirmTo(old(View()), cursor)
      ensures wal.book.log == old(wal.book.log) +
                if wal.closed then [] else [SeqOp(Op.ConfirmUpTo, slotID, AsU64(now), cursor)]
      ensures wal.book == BookAfter(old(wal.book), slotID, old(View()), OpConfirmTo(cursor, now), wal.maxCap)
      ensures err == (if wal.closed then Some(Closed) else None) && wal.recsSinceSnap == old(wal.recsSinceSnap)
    {
      removed := DropLocked(cursor);
      err := wal.LogSeqOp(this, Op.ConfirmUpTo, AsU64(now), cursor, OpConfirmTo(cursor, now));
    }

    method Reset()
      modifies this
      ensures View() == Delete(old(View()))
    {
      tombed := true;
      live, fifo, minSeq, maxSeq := map[], [], 0, 0;
    }

    // Expires exactly what is older than the cutoff: one Expire record a seq,
    // each with a time of its own, then the queue is compacted. `order` is the
    // order the expired seqs were visited in.
    method SweepLocked(cutoff: I64) returns (ghost order: seq<Expiry>)
      requires wal.Valid() && this in wal.views
      modifies this, wal`file, wal`book, wal`recsSinceSnap, wal`views
      ensures wal.Valid() && wal.views == old(wal.views)[this := View()]
      ensures SparesYoung(old(View()), View(), cutoff)
      ensures !wal.closed ==>
                && old(wal.book.log) <= wal.book.log
                && ExpiresEach(wal.book.log[|old(wal.book.log)|..], slotID, old(View()), cutoff)
      ensures ExpiresOnce(old(View()), cutoff, order) && View() == Sweep(old(View()), cutoff)
      ensures wal.book == BookAfter(old(wal.book), slotID, old(View()), OpSweep(cutoff, order), wal.maxCap)
      ensures wal.recsSinceSnap == old(wal.recsSinceSnap)
    {
      ghost var was, b := View(), wal.book;
      order := DropExpired(cutoff);
      wal.CloseSweep(this, was, OpSweep(cutoff, order), b);
      SweepSparesYoung(was, cutoff);
      SweepWrites(b, slotID, was, cutoff, order, wal.maxCap);
    }

    // The clock, which may give any time.
    method Now() returns (t: I64) {
      t := *;
    }

    method Expired(cutoff: I64) returns (expired: seq<U64>)
      ensures Elems(expired) == OlderThan(View(), cutoff)
      ensures forall i, j :: 0 <= i < j < |expired| ==> expired[i] != expired[j]
    {
      expired := [];
      var keys := live.Keys;
      while keys != {}
        invariant keys <= live.Keys
        invariant forall i, j :: 0 <= i < j < |expired| ==> expired[i] != expired[j]
        invariant forall n :: n in expired <==> n in OlderThan(View(), cutoff) && n !in keys
        decreases |keys|
      {
        var n :| n in keys;
        keys := keys - {n};
        if live[n] < cutoff {
          expired := expired + [n];
        }
      }
    }

    // Part way through an expiry: these are gone, and their records written.
    ghost predicate Expiring(order: seq<Expiry>, gone: set<U64>, was: Live, b: Book)
      reads this`live, wal`file, wal`book, wal`closed
    {
      && wal.InStep() && ExpiredSeqs(order) == gone && live == was - gone
      && wal.book == Written(b, Expires(slotID, order))
    }

    method ExpireNext(n: U64, ghost order: seq<Expiry>, ghost gone: set<U64>, ghost was: Live, ghost b: Book)
      returns (ghost more: seq<Expiry>)
      requires Expiring(order, gone, was, b)
      modifies this`live, wal`file, wal`book, wal`recsSinceSnap
      ensures Expiring(more, gone + {n}, was, b) && wal.recsSinceSnap == old(wal.recsSinceSnap)
      ensures |more| == |order| + 1 && more[..|order|] == order && more[|order|].n == n
    {
      var now := Now();
      ExpiresMore(slotID, order, Expiry(n, now));
      WrittenTwice(b, Expires(slotID, order), [SeqOp(Expire, slotID, AsU64(now), n)]);
      assert was - gone - {n} == was - (gone + {n});
      live := live - {n};
      var err := wal.AppendSeqOp(Expire, slotID, AsU64(now), n);
      more := order + [Expiry(n, now)];
    }

    method ExpireAll(expired: seq<U64>) returns (ghost order: seq<Expiry>)
      requires wal.InStep()
      modifies this`live, wal`file, wal`book, wal`recsSinceSnap
      ensures |order| == |expired| && forall i :: 0 <= i < |order| ==> order[i].n == expired[i]
      ensures Expiring(order, Elems(expired), old(live), old(wal.book)) && wal.recsSinceSnap == old(wal.recsSinceSnap)
    {
      order := [];
      WrittenNothing(wal.book);
      for i := 0 to |expired|
        invariant Expiring(order, Elems(expired[..i]), old(live), old(wal.book))
        invariant |order| == i && forall j :: 0 <= j < i ==> order[j].n == expired[j]
        invariant wal.recsSinceSnap == old(wal.recsSinceSnap)
      {
        SliceMore(expired, i);
        ghost var more := ExpireNext(expired[i], order, Elems(expired[..i]), old(live), old(wal.book));
        assert forall j :: 0 <= j < i ==> more[j] == more[..i][j];
        order := more;
      }
      assert expired[..|expired|] == expired;
    }

    method DropExpired(cutoff: I64) returns (ghost order: seq<Expiry>)
      requires wal.InStep()
      modifies this, wal`file, wal`book, wal`recsSinceSnap
      ensures ExpiresOnce(old(View()), cutoff, order) && View() == Sweep(old(View()), cutoff)
      ensures wal.InStep() && wal.book == Written(old(wal.book), Expires(slotID, order))
      ensures wal.recsSinceSnap == old(wal.recsSinceSnap)
    {
      OlderAreLive(View(), cutoff);
      var expired := Expired(cutoff);
      order := ExpireAll(expired);
      if |expired| > 0 {
        assert expired[0] in Elems(expired);
        CompactFifoLocked();
      }
    }
  }

  // The seqs older than the cutoff, each once.
  ghost predicate ExpiresOnce(s: Slot, cutoff: I64, order: seq<Expiry>) {
    ExpiredSeqs(order) == OlderThan(s, cutoff) && Once(order)
  }

  lemma SweepWrites(b: Book, id: U32, v: Slot, cutoff: I64, order: seq<Expiry>, cap: nat)
    requires ExpiresOnce(v, cutoff, order)
    ensures var b' := BookAfter(b, id, v, OpSweep(cutoff, order), cap);
            !b.closed ==> b.log <= b'.log && ExpiresEach(b'.log[|b.log|..], id, v, cutoff)
  {
    if !b.closed {
      ExpiresEachOnce(v, id, cutoff, order);
      assert (b.log + Expires(id, order))[|b.log|..] == Expires(id, order);
    }
  }

  lemma IdleCheck(b: Book, id: U32, v: Slot, n: U64, now: I64, cap: nat)
    requires v.tombed || n in v.live
    ensures BookAfter(b, id, v, OpCheck(n, now), cap) == b
  {
    WrittenNothing(b);
    assert n in v.live ==> v.live.Keys + {n} == v.live.Keys;
    assert id !in b.loose ==> b.loose - {id} == b.loose;
  }

  lemma ExpiresMore(id: U32, order: seq<Expiry>, x: Expiry)
    ensures Expires(id, order + [x]) == Expires(id, order) + [SeqOp(Expire, id, AsU64(x.at), x.n)]
    ensures ExpiredSeqs(order + [x]) == ExpiredSeqs(order) + {x.n}
  {
    assert (order + [x])[..|order|] == order;
    ExpiredSeqsSnoc(order, x);
  }

  lemma SliceMore(ns: seq<U64>, i: nat)
    requires i < |ns|
    ensures Elems(ns[..i + 1]) == Elems(ns[..i]) + {ns[i]}
  {
    assert ns[..i + 1] == ns[..i] + [ns[i]];
    ElemsSnoc(ns[..i], ns[i]);
  }

  lemma OlderAreLive(s: Slot, cutoff: I64)
    ensures s.live.Keys * OlderThan(s, cutoff) == OlderThan(s, cutoff)
    ensures OlderThan(s, cutoff) == {} ==> s.live - OlderThan(s, cutoff) == s.live
  {
  }

  lemma ReopenIsLog(crc: Checksum, log: seq<Rec>)
    ensures ReopenLog(crc, FileOf(crc, log)).Reopened?
    ensures AllStorable(log) ==> ReopenLog(crc, FileOf(crc, log)).recs == log
  {
    LogCodecIsLawful(crc);
    StorableIsReadable(crc, log);
    if AllStorable(log) {
      ReopenOfWholeLog(LogCodec(crc), log);
    }
    assert FileOf(crc, log)[..8] == MAGIC;
  }

  lemma DropCount(s: Slot, cursor: U64)
    ensures DropUpTo(s.live, cursor) == s.live - AtMost(s, cursor)
    ensures |s.live| - |DropUpTo(s.live, cursor)| == |AtMost(s, cursor)|
    ensures AtMost(s, cursor) == {} ==> s.live - AtMost(s, cursor) == s.live
    ensures s.live.Keys * AtMost(s, cursor) == AtMost(s, cursor)
  {
    var kept := s.live - AtMost(s, cursor);
    assert s.live.Keys == kept.Keys + AtMost(s, cursor);
    assert |s.live.Keys| == |s.live| && |kept.Keys| == |kept|;
    assert DropUpTo(s.live, cursor) == kept;
  }

  lemma TakeOne(sts: set<SlotState>, rest: set<SlotState>, st: SlotState)
    requires rest <= sts && st in rest
    ensures sts - rest + {st} == sts - (rest - {st}) && |rest - {st}| < |rest|
  {
  }

  lemma NoneLeft(sts: set<SlotState>)
    ensures sts - {} == sts && sts - sts == {}
  {
  }

  // One slot's turn in a pass over several: the state it was in, and its step.
  datatype Visit = Visit(st: SlotState, v: Slot, op: SlotOp)

  ghost function BookTour(b: Book, visits: seq<Visit>, cap: nat): Book {
    if visits == [] then b
    else
      var k := |visits| - 1;
      BookAfter(BookTour(b, visits[..k], cap), visits[k].st.slotID, visits[k].v, visits[k].op, cap)
  }

  lemma BookTourSnoc(b: Book, visits: seq<Visit>, st: SlotState, v: Slot, op: SlotOp, cap: nat)
    ensures BookTour(b, visits + [Visit(st, v, op)], cap) == BookAfter(BookTour(b, visits, cap), st.slotID, v, op, cap)
  {
    assert (visits + [Visit(st, v, op)])[..|visits|] == visits;
  }

  // Every slot of the set once, in some order, each in the state given.
  ghost predicate Tours(visits: seq<Visit>, sts: set<SlotState>, vs: map<SlotState, Slot>) {
    if visits == [] then sts == {}
    else
      var k := |visits| - 1;
      var st := visits[k].st;
      st in sts && st in vs && visits[k].v == vs[st] && Tours(visits[..k], sts - {st}, vs)
  }

  lemma ToursSnoc(visits: seq<Visit>, sts: set<SlotState>, vs: map<SlotState, Slot>, st: SlotState, op: SlotOp)
    requires Tours(visits, sts, vs) && st in vs && st !in sts
    ensures Tours(visits + [Visit(st, vs[st], op)], sts + {st}, vs)
  {
    assert (visits + [Visit(st, vs[st], op)])[..|visits|] == visits;
    assert sts + {st} - {st} == sts;
  }

  ghost predicate Snapshots(visits: seq<Visit>, now: I64) {
    forall i :: 0 <= i < |visits| ==> visits[i].op == OpSnapshot(now)
  }

  // Each expires exactly what it had older than the cutoff.
  ghost predicate Sweeps(visits: seq<Visit>, cutoff: I64) {
    forall i :: 0 <= i < |visits| ==> SweepsAt(visits[i], cutoff)
  }

  ghost predicate SweepsAt(x: Visit, cutoff: I64) {
    x.op.OpSweep? && x.op.cutoff == cutoff && ExpiresOnce(x.v, cutoff, x.op.order)
  }

  // The records these visits write, one after the other.
  ghost function TourRecs(visits: seq<Visit>): seq<Rec> {
    if visits == [] then []
    else
      var x := visits[|visits| - 1];
      TourRecs(visits[..|visits| - 1]) + Appends(x.v, x.op, x.st.slotID)
  }

  lemma {:induction false} BookTourLog(b: Book, visits: seq<Visit>, cap: nat)
    requires !b.closed
    ensures BookTour(b, visits, cap).log == b.log + TourRecs(visits) && !BookTour(b, visits, cap).closed
  {
    if visits == [] {
      assert b.log + [] == b.log;
    } else {
      BookTourLog(b, visits[..|visits| - 1], cap);
    }
  }

  ghost predicate OwnIds(sts: set<SlotState>) {
    forall a, b :: a in sts && b in sts && a.slotID == b.slotID ==> a == b
  }

  ghost predicate WroteFor(r: Rec, sts: set<SlotState>) {
    exists st :: st in sts && r.slot == st.slotID
  }

  // The records are those of these slots' expiries, and nothing else: of each
  // slot one for each seq that is older.
  ghost predicate ExpiriesOf(rs: seq<Rec>, sts: set<SlotState>, vs: map<SlotState, Slot>, cutoff: I64) {
    && (forall i :: 0 <= i < |rs| ==> WroteFor(rs[i], sts))
    && forall st :: st in sts ==> st in vs && ExpiresEach(Project(rs, st.slotID), st.slotID, vs[st], cutoff)
  }

  lemma ExpiriesMore(rs: seq<Rec>, more: seq<Rec>, sts: set<SlotState>, vs: map<SlotState, Slot>, cutoff: I64,
                     st: SlotState)
    requires st in sts && st in vs && OwnIds(sts)
    requires ExpiriesOf(rs, sts - {st}, vs, cutoff) && ExpiresEach(more, st.slotID, vs[st], cutoff)
    ensures ExpiriesOf(rs + more, sts, vs, cutoff)
  {
    forall i | 0 <= i < |rs + more|
      ensures WroteFor((rs + more)[i], sts)
    {
      assert i < |rs| ==> WroteFor(rs[i], sts - {st});
    }
    assert forall i :: 0 <= i < |rs| ==> WroteFor(rs[i], sts - {st}) && rs[i].slot != st.slotID;
    forall o | o in sts
      ensures ExpiresEach(Project(rs + more, o.slotID), o.slotID, vs[o], cutoff)
    {
      ProjectAppend(rs, more, o.slotID);
      if o == st {
        ProjectForeign(rs, st.slotID);
        ProjectOwn(more, st.slotID);
        assert Project(rs + more, st.slotID) == more;
      } else {
        ProjectForeign(more, o.slotID);
        assert o in sts - {st} && Project(rs + more, o.slotID) == Project(rs, o.slotID);
      }
    }
  }

  lemma {:induction false} SweepsExpire(visits: seq<Visit>, sts: set<SlotState>, vs: map<SlotState, Slot>, cutoff: I64)
    requires Tours(visits, sts, vs) && Sweeps(visits, cutoff) && OwnIds(sts)
    ensures ExpiriesOf(TourRecs(visits), sts, vs, cutoff)
  {
    if visits != [] {
      var k := |visits| - 1;
      var x := visits[k];
      assert SweepsAt(x, cutoff) && forall i :: 0 <= i < k ==> visits[..k][i] == visits[i];
      SweepsExpire(visits[..k], sts - {x.st}, vs, cutoff);
      ExpiresEachOnce(x.v, x.st.slotID, cutoff, x.op.order);
      ExpiriesMore(TourRecs(visits[..k]), Appends(x.v, x.op, x.st.slotID), sts, vs, cutoff, x.st);
    }
  }

  lemma SweepsWrite(b: Book, b': Book, visits: seq<Visit>, sts: set<SlotState>, vs: map<SlotState, Slot>, cap: nat,
                    cutoff: I64)
    requires Tours(visits, sts, vs) && Sweeps(visits, cutoff) && OwnIds(sts) && b' == BookTour(b, visits, cap)
    ensures !b.closed ==> b.log <= b'.log && ExpiriesOf(b'.log[|b.log|..], sts, vs, cutoff)
  {
    if !b.closed {
      BookTourLog(b, visits, cap);
      SweepsExpire(visits, sts, vs, cutoff);
      assert (b.log + TourRecs(visits))[|b.log|..] == TourRecs(visits);
    }
  }

  // Of the slots `vs`, these have lost exactly what was older, and all others
  // are as they were.
  ghost predicate AllSpared(ws: map<SlotState, Slot>, sts: set<SlotState>, vs: map<SlotState, Slot>, cutoff: I64) {
    && ws.Keys == vs.Keys
    && forall st :: st in vs ==> if st in sts then SparesYoung(vs[st], ws[st], cutoff) else ws[st] == vs[st]
  }

  lemma SweptSpares(ws: map<SlotState, Slot>, sts: set<SlotState>, vs: map<SlotState, Slot>, cutoff: I64)
    requires SweptTo(ws, sts, vs, cutoff)
    ensures AllSpared(ws, sts, vs, cutoff)
  {
    forall st | st in vs
      ensures if st in sts then SparesYoung(vs[st], ws[st], cutoff) else ws[st] == vs[st]
    {
      SweepSparesYoung(vs[st], cutoff);
    }
  }

  lemma SweptSnoc(visits: seq<Visit>, b: Book, st: SlotState, v: Slot, op: SlotOp, cap: nat, cutoff: I64)
    requires Sweeps(visits, cutoff) && SweepsAt(Visit(st, v, op), cutoff)
    ensures var visits' := visits + [Visit(st, v, op)];
            && Sweeps(visits', cutoff)
            && BookTour(b, visits', cap) == BookAfter(BookTour(b, visits, cap), st.slotID, v, op, cap)
  {
    BookTourSnoc(b, visits, st, v, op, cap);
  }

  // Of the slots `vs`, these are as a sweep leaves them, and all others as they were.
  ghost predicate SweptTo(ws: map<SlotState, Slot>, sts: set<SlotState>, vs: map<SlotState, Slot>, cutoff: I64) {
    && ws.Keys == vs.Keys
    && forall st :: st in vs ==> ws[st] == if st in sts then Sweep(vs[st], cutoff) else vs[st]
  }

  lemma SweptToSnoc(ws: map<SlotState, Slot>, ws': map<SlotState, Slot>, sts: set<SlotState>, vs: map<SlotState, Slot>,
                    cutoff: I64, st: SlotState)
    requires SweptTo(ws, sts, vs, cutoff) && st in vs && st !in sts && ws' == ws[st := Sweep(vs[st], cutoff)]
    ensures SweptTo(ws', sts + {st}, vs, cutoff)
  {
  }

  // The log has of the slot what memory had when it was visited.
  ghost predicate RefreshedIn(x: Visit, b: Book) {
    x.v.live != map[] ==> Whole(b, x.st.slotID)
  }

  lemma LastSnapshot(b: Book, visits: seq<Visit>, cap: nat, now: I64)
    requires Snapshots(visits, now) && visits != []
    ensures var k := |visits| - 1;
            var before, after := BookTour(b, visits[..k], cap), BookTour(b, visits, cap);
            NoLess(before, after) && (!before.closed ==> RefreshedIn(visits[k], after))
  {
    var k := |visits| - 1;
    SnapshotRefreshes(BookTour(b, visits[..k], cap), visits[k].st.slotID, visits[k].v, now, cap);
  }

  lemma {:induction false} SnapshotsKeep(b: Book, visits: seq<Visit>, cap: nat, now: I64)
    requires Snapshots(visits, now)
    ensures NoLess(b, BookTour(b, visits, cap)) && BookTour(b, visits, cap).closed == b.closed
  {
    if visits != [] {
      var k := |visits| - 1;
      SnapshotsKeep(b, visits[..k], cap, now);
      LastSnapshot(b, visits, cap, now);
      NoLessTwice(b, BookTour(b, visits[..k], cap), BookTour(b, visits, cap));
    }
  }

  lemma StaysRefreshed(x: Visit, b: Book, b': Book)
    requires RefreshedIn(x, b) && NoLess(b, b')
    ensures RefreshedIn(x, b')
  {
    assert FloorKept(b, b', x.st.slotID);
  }

  lemma {:induction false} TourKeeps(b: Book, visits: seq<Visit>, cap: nat, now: I64, i: nat)
    requires Snapshots(visits, now) && i <= |visits|
    ensures NoLess(BookTour(b, visits[..i], cap), BookTour(b, visits, cap))
  {
    if i == |visits| {
      assert visits[..i] == visits;
    } else {
      var k := |visits| - 1;
      assert visits[..k][..i] == visits[..i];
      TourKeeps(b, visits[..k], cap, now, i);
      LastSnapshot(b, visits, cap, now);
      NoLessTwice(BookTour(b, visits[..i], cap), BookTour(b, visits[..k], cap), BookTour(b, visits, cap));
    }
  }

  lemma SnapshotTakes(b: Book, visits: seq<Visit>, cap: nat, now: I64, i: nat)
    requires Snapshots(visits, now) && i < |visits| && !b.closed
    ensures RefreshedIn(visits[i], BookTour(b, visits[..i + 1], cap))
  {
    assert visits[..i + 1][..i] == visits[..i];
    SnapshotsKeep(b, visits[..i], cap, now);
    LastSnapshot(b, visits[..i + 1], cap, now);
  }

  // On an open log, slots that are snapshotted are there just as in memory, and
  // no other slot is known less of.
  lemma SnapshotsRefresh(b: Book, visits: seq<Visit>, cap: nat, now: I64)
    requires Snapshots(visits, now)
    ensures NoLess(b, BookTour(b, visits, cap))
    ensures !b.closed ==> forall i :: 0 <= i < |visits| ==> RefreshedIn(visits[i], BookTour(b, visits, cap))
  {
    SnapshotsKeep(b, visits, cap, now);
    if !b.closed {
      forall i | 0 <= i < |visits|
        ensures RefreshedIn(visits[i], BookTour(b, visits, cap))
      {
        SnapshotTakes(b, visits, cap, now, i);
        TourKeeps(b, visits, cap, now, i + 1);
        StaysRefreshed(visits[i], BookTour(b, visits[..i + 1], cap), BookTour(b, visits, cap));
      }
    }
  }

  // Expiry costs nothing of what is known of any slot.
  ghost predicate SameFlags(b: Book, b': Book) {
    && SameButLog(b, b') && b'.loose == b.loose && b'.floors == b.floors && b'.limits == b.limits
    && (b.closed ==> b' == b)
  }

  lemma {:induction false} SweepsKeepFlags(b: Book, visits: seq<Visit>, cap: nat, cutoff: I64)
    requires Sweeps(visits, cutoff)
    ensures SameFlags(b, BookTour(b, visits, cap))
  {
    if visits != [] {
      var k := |visits| - 1;
      var x := visits[k];
      assert forall i :: 0 <= i < k ==> visits[..k][i] == visits[i];
      SweepsKeepFlags(b, visits[..k], cap, cutoff);
      assert SweepsAt(x, cutoff);
      SweepKeepsFlags(BookTour(b, visits[..k], cap), x.st.slotID, x.v, cutoff, x.op.order, cap);
    }
  }

  // What a log is read back as.
  ghost function ReadBack(crc: Checksum, log: seq<Rec>): (rs: seq<Rec>)
    ensures AllStorable(log) ==> rs == log
  {
    ReopenIsLog(crc, log);
    ReopenLog(crc, FileOf(crc, log)).recs
  }

  // The book after its file has been read back, compacted and put in place.
  ghost function BookRewritten(b: Book, crc: Checksum, vs: map<SlotState, Slot>, all: set<U32>, cutoff: I64,
                               now: I64): Book {
    var rs := ReadBack(crc, b.log);
    BookCompacted(b, CompactLog(rs, cutoff, AsU64(now)), cutoff, now, Gone(vs.Keys, rs, cutoff), AheadOf(vs, now), all)
  }

  class WAL {
    const crc: Checksum
    const maxCap: nat
    const snapshotEveryN: nat
    const compactAtBytes: nat
    var file: seq<Byte>
    var closed: bool
    var byName: map<Name, SlotState>
    var nextID: U32
    var recsSinceSnap: nat

    // What the file holds, and how many of its records the last sync covered.
    ghost var book: Book
    ghost var synced: nat
    // Every handle ever given out, with the state its slot is in.
    ghost var views: map<SlotState, Slot>
    // Slot ids are never shared.
    ghost var owner: map<U32, SlotState>

    // An opened file of which no slot has been restored yet.
    constructor Opened(crc: Checksum, maxCap: nat, snapshotEveryN: nat, compactAtBytes: nat, file: seq<Byte>,
                       ghost book: Book)
      ensures this.crc == crc && this.maxCap == maxCap && this.file == file
      ensures this.book == book && synced == |book.log|
      ensures this.snapshotEveryN == snapshotEveryN && this.compactAtBytes == compactAtBytes
      ensures byName == map[] && views == map[] && owner == map[] && nextID == 0 && !closed && recsSinceSnap == 0
    {
      this.crc, this.maxCap, this.snapshotEveryN, this.compactAtBytes := crc, maxCap, snapshotEveryN, compactAtBytes;
      this.file, closed, byName, nextID, recsSinceSnap := file, false, map[], 0, 0;
      this.book, synced, views, owner := book, |book.log|, map[], map[];
    }

    ghost predicate HandleOk(st: SlotState, v: Slot, b: Book) {
      Agrees(st.slotID, Names(st.stream, st.consumer), v, b)
    }

    ghost predicate TableOk()
      reads `views, `owner, `byName, `nextID
    {
      && (forall st :: st in views ==> Owned(st))
      && (forall k :: k in byName ==> Listed(k, byName[k]))
    }

    ghost predicate Owned(st: SlotState)
      reads `owner, `nextID
    {
      && st.wal == this && st.slotID < nextID && st.slotID in owner && owner[st.slotID] == st
      && st.key == SlotKey(st.stream, st.consumer)
    }

    ghost predicate Listed(k: Name, st: SlotState)
      reads `views
    {
      st in views && !views[st].tombed && k == st.key
    }

    // The file is what the book says it is.
    ghost predicate InStep()
      reads `file, `book, `closed
    {
      file == FileOf(crc, book.log) && book.closed == closed
    }

    // The store agrees with its file, given the recorded states of its slots.
    ghost predicate Consistent()
      reads `book, `closed, `views, `owner, `byName, `nextID, `file, `synced
    {
      && maxCap > 0 && InStep() && synced <= |book.log| && Sound(book, nextID) && TableOk()
      && (forall st :: st in views ==> HandleOk(st, views[st], book))
    }

    ghost predicate Valid()
      reads `book, `closed, `views, `owner, `byName, `nextID, `file, `synced, views.Keys
    {
      var ok := Consistent() && forall st :: st in views ==> st.View() == views[st];
      ok
    }

    method AppendFrame(frame: seq<Byte>, ghost r: Rec) returns (err: Option<Error>)
      requires InStep() && frame == LogCodec(crc).enc(r)
      modifies this`file, this`book
      ensures InStep() && book == Written(old(book), [r])
      ensures err == if closed then Some(Closed) else None
    {
      if closed {
        return Some(Closed);
      }
      FileOfSnoc(crc, book.log, r);
      assert Writes(LogCodec(crc), crc, r);
      file := file + frame;
      book := Written(book, [r]);
      return None;
    }

    method AppendSeqOp(op: Op, slotID: U32, ts: U64, n: U64) returns (err: Option<Error>)
      requires InStep()
      modifies this`file, this`book, this`recsSinceSnap
      ensures InStep() && book == Written(old(book), [SeqOp(op, slotID, ts, n)])
      ensures err == if closed then Some(Closed) else None
      ensures recsSinceSnap == if op == Record && !closed then old(recsSinceSnap) + 1 else old(recsSinceSnap)
    {
      var buf := new Byte[29];
      ghost var was := buf[..];
      var size := EncodeSeqOp(crc, buf, op, slotID, ts, n);
      SpliceHead(was, FrameOf(crc, SeqOp(op, slotID, ts, n)));
      assert Writes(LogCodec(crc), crc, SeqOp(op, slotID, ts, n));
      err := AppendFrame(buf[..size], SeqOp(op, slotID, ts, n));
      if op == Record && err.None? {
        recsSinceSnap := recsSinceSnap + 1;
      }
    }

    // One slot has taken a step, and its records are still to be written.
    ghost predicate Stepped(st: SlotState, op: SlotOp)
      reads `book, `closed, `views, `owner, `byName, `nextID, `file, `synced, views.Keys
    {
      && Consistent() && st in views && Allowed(views[st], op)
      && st.View() == Apply(views[st], op, maxCap)
      && forall o :: o in views && o != st ==> o.View() == views[o]
    }

    // The slots and the table are as the book `b` says; only the log has grown.
    ghost predicate Stepping(b: Book)
      reads `book, `closed, `views, `owner, `byName, `nextID, `file, `synced
    {
      && maxCap > 0 && InStep() && synced <= |b.log| && Sound(b, nextID) && TableOk()
      && (forall o :: o in views ==> HandleOk(o, views[o], b))
    }

    // After a step the handles agree with the book that has its records.
    lemma StepAgrees(st: SlotState, op: SlotOp, b: Book)
      requires st in views && Allowed(views[st], op) && forall o :: o in views ==> HandleOk(o, views[o], b)
      requires forall o :: o in views ==> Owned(o)
      ensures var b' := BookAfter(b, st.slotID, views[st], op, maxCap);
              && HandleOk(st, Apply(views[st], op, maxCap), b')
              && forall o :: o in views && o != st ==> HandleOk(o, views[o], b')
    {
      StepKeepsSlot(st.slotID, Names(st.stream, st.consumer), views[st], op, maxCap, b);
      forall o | o in views && o != st
        ensures HandleOk(o, views[o], BookAfter(b, st.slotID, views[st], op, maxCap))
      {
        assert Owned(o) && Owned(st);
        StepKeepsOther(o.slotID, Names(o.stream, o.consumer), views[o], st.slotID, views[st], op, maxCap, b);
      }
    }

    lemma StepKeepsTable(st: SlotState, op: SlotOp)
      requires TableOk() && st in views && !op.OpDelete?
      ensures StaysListed(st, Apply(views[st], op, maxCap))
    {
      AppendsKeepNamed(st.slotID, Names(st.stream, st.consumer), views[st], op, maxCap, []);
      assert forall k :: k in byName ==> Listed(k, byName[k]);
    }

    lemma WrittenGrows(b: Book, rs: seq<Rec>)
      ensures b.log <= Written(b, rs).log
    {
    }

    lemma StepIsSound(st: SlotState, op: SlotOp, b: Book)
      requires Sound(b, nextID) && st in views && Owned(st)
      ensures var b' := BookAfter(b, st.slotID, views[st], op, maxCap);
              && Sound(b', nextID) && b.log <= b'.log && b'.closed == b.closed
              && b'.log == Written(b, Appends(views[st], op, st.slotID)).log
    {
      StepKeepsSound(st.slotID, views[st], op, maxCap, b, nextID);
      WrittenGrows(b, Appends(views[st], op, st.slotID));
    }

    // The records of a step are in the log; the books are brought up to it.
    ghost method CloseBooks(st: SlotState, op: SlotOp, b: Book)
      requires Stepping(b) && st in views && Allowed(views[st], op) && StaysListed(st, Apply(views[st], op, maxCap))
      requires book == Written(b, Appends(views[st], op, st.slotID))
      modifies this`book, this`views
      ensures Consistent() && book == BookAfter(b, st.slotID, old(views[st]), op, maxCap)
      ensures views == old(views)[st := Apply(old(views[st]), op, maxCap)]
    {
      assert Owned(st);
      StepAgrees(st, op, b);
      StepIsSound(st, op, b);
      Settle(st, Apply(views[st], op, maxCap), BookAfter(b, st.slotID, views[st], op, maxCap));
    }

    ghost method Settle(st: SlotState, v: Slot, b: Book)
      requires maxCap > 0 && TableOk() && InStep() && st in views && StaysListed(st, v)
      requires HandleOk(st, v, b) && forall o :: o in views && o != st ==> HandleOk(o, views[o], b)
      requires Sound(b, nextID) && b.log == book.log && b.closed == book.closed && synced <= |b.log|
      modifies this`book, this`views
      ensures Consistent() && book == b && views == old(views)[st := v]
    {
      book := b;
      views := views[st := v];
      assert forall k :: k in byName ==> old(Listed(k, byName[k]));
    }

    // The table lists no deleted slot once this one is in state `v`.
    ghost predicate StaysListed(st: SlotState, v: Slot)
      reads `byName
    {
      v.tombed ==> forall k :: k in byName ==> byName[k] != st
    }

    ghost method CloseSweep(st: SlotState, was: Slot, op: SlotOp, b: Book)
      requires Stepping(b) && st in views && views[st] == was && op.OpSweep? && Allowed(was, op)
      requires st.View() == Sweep(was, op.cutoff)
      requires forall o :: o in views && o != st ==> o.View() == views[o]
      requires book == Written(b, Expires(st.slotID, op.order))
      modifies this`book, this`views
      ensures Valid() && book == BookAfter(b, st.slotID, was, op, maxCap) && views == old(views)[st := st.View()]
    {
      StepKeepsTable(st, op);
      CloseBooks(st, op, b);
    }

    // Writes the single record of a step and closes the books on it.
    method LogSeqOp(st: SlotState, kind: Op, ts: U64, n: U64, ghost op: SlotOp) returns (err: Option<Error>)
      requires Stepped(st, op) && !op.OpDelete?
      requires Appends(views[st], op, st.slotID) == [SeqOp(kind, st.slotID, ts, n)]
      modifies this`file, this`book, this`recsSinceSnap, this`views
      ensures Valid() && book == BookAfter(old(book), st.slotID, old(views[st]), op, maxCap)
      ensures views == old(views)[st := Apply(old(views[st]), op, maxCap)]
      ensures err == if closed then Some(Closed) else None
      ensures recsSinceSnap == if kind == Record && !closed then old(recsSinceSnap) + 1 else old(recsSinceSnap)
    {
      StepKeepsTable(st, op);
      err := WriteStep(st, kind, ts, n, op);
    }

    method WriteStep(st: SlotState, kind: Op, ts: U64, n: U64, ghost op: SlotOp) returns (err: Option<Error>)
      requires Consistent() && st in views && Allowed(views[st], op)
      requires StaysListed(st, Apply(views[st], op, maxCap))
      requires Appends(views[st], op, st.slotID) == [SeqOp(kind, st.slotID, ts, n)]
      modifies this`file, this`book, this`recsSinceSnap, this`views
      ensures Consistent() && book == BookAfter(old(book), st.slotID, old(views[st]), op, maxCap)
      ensures views == old(views)[st := Apply(old(views[st]), op, maxCap)]
      ensures err == if closed then Some(Closed) else None
      ensures recsSinceSnap == if kind == Record && !closed then old(recsSinceSnap) + 1 else old(recsSinceSnap)
    {
      ghost var b := book;
      err := AppendSeqOp(kind, st.slotID, ts, n);
      CloseBooks(st, op, b);
    }

    // ---- Slots ----

    // The book once a new slot's Register is in the log.
    lemma Entered(st: SlotState, reg: Rec, b: Book)
      requires forall o :: o in views ==> HandleOk(o, views[o], b) && o.slotID < reg.slot
      requires reg == Register(st.slotID, reg.ts, st.stream, st.consumer)
      requires Sound(b, reg.slot) && reg.slot < 0xFFFF_FFFF
      ensures var b' := BookEntered(b, reg);
              && (forall o :: o in views ==> HandleOk(o, views[o], b')) && HandleOk(st, NEW_SLOT, b')
              && Sound(b', reg.slot + 1) && (b.pristine && !b.closed ==> reg.slot !in b'.loose)
              && b'.log == Written(b, [reg]).log && b'.closed == b.closed
    {
      forall o | o in views
        ensures HandleOk(o, views[o], BookEntered(b, reg))
      {
        EnterKeepsOther(o.slotID, Names(o.stream, o.consumer), views[o], reg, b);
      }
      EnteredAgrees(reg, b);
      EnterKeepsSound(b, reg, reg.slot);
    }

    // The book goes over to `b`, which every handle agrees with, the new one
    // included.
    ghost method EnterHandle(st: SlotState, b: Book)
      requires maxCap > 0 && st !in views && HandleOk(st, NEW_SLOT, b)
      requires forall o :: o in views ==> HandleOk(o, views[o], b)
      requires forall o :: o in views ==> Owned(o) && o.slotID < st.slotID
      requires forall k :: k in byName && byName[k] != st ==> Listed(k, byName[k])
      requires forall k :: k in byName && byName[k] == st ==> k == st.key
      requires st.wal == this && nextID == st.slotID + 1 && st.View() == NEW_SLOT
      requires st.key == SlotKey(st.stream, st.consumer)
      requires forall o :: o in views ==> o.View() == views[o]
      requires InStep() && book.log == b.log && book.closed == b.closed
      requires Sound(b, nextID) && synced <= |b.log|
      modifies this`book, this`views, this`owner
      ensures Valid() && views == old(views)[st := NEW_SLOT] && book == b
      ensures owner == old(owner)[st.slotID := st]
    {
      owner := owner[st.slotID := st];
      book := b;
      views := views[st := NEW_SLOT];
      forall k | k in byName
        ensures Listed(k, byName[k])
      {
        assert byName[k] != st ==> old(Listed(k, byName[k]));
      }
    }

    // A slot rebuilt from the log takes its place; ids are restored in order.
    method Install(st: SlotState)
      requires st.key == SlotKey(st.stream, st.consumer)
      modifies `byName, `nextID, `views, `owner
      ensures views == old(views)[st := st.View()] && owner == old(owner)[st.slotID := st]
      ensures byName == old(byName)[st.key := st]
      ensures nextID == if st.slotID >= old(nextID) then (st.slotID + 1) % 0x1_0000_0000 else old(nextID)
    {
      byName := byName[SlotKey(st.stream, st.consumer) := st];
      if st.slotID >= nextID {
        nextID := (st.slotID + 1) % 0x1_0000_0000;
      }
      views, owner := views[st := st.View()], owner[st.slotID := st];
    }

    method AppendRegister(reg: Rec) returns (err: Option<Error>)
      requires reg.Register? && InStep()
      modifies this`file, this`book
      ensures InStep() && book == Written(old(book), [reg])
      ensures err == if closed then Some(Closed) else None
    {
      var frame := WriteRegister(crc, reg.slot, reg.ts, Names(reg.stream, reg.consumer));
      err := AppendFrame(frame, reg);
    }

    // A handle for a pair of names that has none, with the next slot id.
    method NewSlot(stream: Name, consumer: Name, now: I64) returns (st: SlotState, err: Option<Error>)
      requires Valid() && nextID < 0xFFFF_FFFF && SlotKey(stream, consumer) !in byName
      modifies `file, `book, `byName, `nextID, `views, `owner
      ensures Valid() && fresh(st) && st.stream == stream && st.consumer == consumer && st.slotID == old(nextID)
      ensures views == old(views)[st := NEW_SLOT] && byName == old(byName)[SlotKey(stream, consumer) := st]
      ensures book == BookEntered(old(book), Register(st.slotID, AsU64(now), stream, consumer))
      ensures nextID == old(nextID) + 1 && owner == old(owner)[st.slotID := st]
      ensures err == if closed then Some(Closed) else None
      ensures old(book).pristine && !closed ==> st.slotID !in book.loose
    {
      st := new SlotState(this, nextID, stream, consumer);
      ghost var reg := Register(nextID, AsU64(now), stream, consumer);
      Entered(st, reg, book);
      err := Enroll(st, now, BookEntered(book, reg));
    }

    method Enroll(st: SlotState, now: I64, ghost b: Book) returns (err: Option<Error>)
      requires Valid() && nextID < 0xFFFF_FFFF && st !in views && st.View() == NEW_SLOT && st.wal == this
      requires st.slotID == nextID && st.key == SlotKey(st.stream, st.consumer) && st.key !in byName
      requires HandleOk(st, NEW_SLOT, b) && (forall o :: o in views ==> HandleOk(o, views[o], b))
               && Sound(b, nextID + 1)
      requires var reg := Register(nextID, AsU64(now), st.stream, st.consumer);
               b.log == Written(book, [reg]).log && b.closed == closed
      modifies `file, `book, `byName, `nextID, `views, `owner
      ensures Valid() && book == b && nextID == old(nextID) + 1 && owner == old(owner)[st.slotID := st]
      ensures views == old(views)[st := NEW_SLOT] && byName == old(byName)[st.key := st]
      ensures err == if closed then Some(Closed) else None
    {
      err := AppendRegister(Register(nextID, AsU64(now), st.stream, st.consumer));
      nextID := nextID + 1;
      byName := byName[SlotKey(st.stream, st.consumer) := st];
      EnterHandle(st, b);
    }

    // Resolves a pair of names to its handle, registering it on first use.
    method GetSlot(stream: Name, consumer: Name, now: I64) returns (r: Option<SlotState>, err: Option<Error>)
      requires Valid()
      modifies `file, `book, `byName, `nextID, `views, `owner
      ensures Valid()
      ensures var key := SlotKey(stream, consumer);
              if |stream| > MAX_NAME || |consumer| > MAX_NAME then
                r == None && err == Some(NameTooLong) && Untouched()
              else if key in old(byName) then
                r == Some(old(byName)[key]) && err == None && Untouched()
              else if old(nextID) == 0xFFFF_FFFF then
                r == None && err == Some(SlotOverflow) && Untouched()
              else
                && r.Some? && var st := r.value;
                && fresh(st) && st.stream == stream && st.consumer == consumer && st.slotID == old(nextID)
                && views == old(views)[st := NEW_SLOT] && byName == old(byName)[key := st]
                && book.log == old(book.log) +
                     (if closed then [] else [Register(st.slotID, AsU64(now), stream, consumer)])
                && book == BookEntered(old(book), Register(st.slotID, AsU64(now), stream, consumer))
                && nextID == old(nextID) + 1 && owner == old(owner)[st.slotID := st]
                && err == (if closed then Some(Closed) else None)
                && (old(book).pristine && !closed ==> st.slotID !in book.loose)
      ensures r.Some? ==> r.value in views && !views[r.value].tombed && r.value.key == SlotKey(stream, consumer)
    {
      if |stream| > MAX_NAME || |consumer| > MAX_NAME {
        return None, Some(NameTooLong);
      }
      var key := SlotKey(stream, consumer);
      if key in byName {
        assert Listed(key, byName[key]);
        return Some(byName[key]), None;
      }
      if nextID == 0xFFFF_FFFF {
        return None, Some(SlotOverflow);
      }
      var st;
      st, err := NewSlot(stream, consumer, now);
      assert Listed(key, st);
      r := Some(st);
    }

    twostate predicate Untouched()
      reads `file, `book, `byName, `nextID, `views, `owner
    {
      && file == old(file) && book == old(book) && byName == old(byName) && nextID == old(nextID)
      && views == old(views) && owner == old(owner)
    }

    method AppendTombstone(slotID: U32, ts: U64) returns (err: Option<Error>)
      requires InStep()
      modifies this`file, this`book
      ensures InStep() && book == Written(old(book), [Tombstone(slotID, ts)])
      ensures err == if closed then Some(Closed) else None
    {
      var buf := new Byte[21];
      ghost var was := buf[..];
      var size := EncodeTombstone(crc, buf, slotID, ts);
      SpliceHead(was, FrameOf(crc, Tombstone(slotID, ts)));
      assert Writes(LogCodec(crc), crc, Tombstone(slotID, ts));
      err := AppendFrame(buf[..size], Tombstone(slotID, ts));
    }

    // Forgets a slot: its handle stays with whoever holds it, emptied for good.
    method DeleteSlot(stream: Name, consumer: Name, now: I64) returns (err: Option<Error>)
      requires Valid()
      modifies `file, `book, `byName, `views, byName.Values
      ensures Valid()
      ensures var key := SlotKey(stream, consumer);
              if key !in old(byName) then
                && err == Some(UnknownSlot) && file == old(file) && book == old(book)
                && byName == old(byName) && views == old(views)
              else
                var st := old(byName)[key];
                && err == (if closed then Some(Closed) else None)
                && byName == old(byName) - {key} && views == old(views)[st := Delete(old(views)[st])]
                && book.log == old(book.log) + (if closed then [] else [Tombstone(st.slotID, AsU64(now))])
                && book == BookAfter(old(book), st.slotID, old(views)[st], OpDelete(now), maxCap)
    {
      var key := SlotKey(stream, consumer);
      if key !in byName {
        return Some(UnknownSlot);
      }
      assert Listed(key, byName[key]);
      err := DropSlot(byName[key], key, now);
    }

    method DropSlot(st: SlotState, key: Name, now: I64) returns (err: Option<Error>)
      requires Valid() && key in byName && byName[key] == st && st in views
      modifies `file, `book, `byName, `views, st
      ensures Valid() && err == if closed then Some(Closed) else None
      ensures byName == old(byName) - {key} && views == old(views)[st := Delete(old(views)[st])]
      ensures book == BookAfter(old(book), st.slotID, old(views)[st], OpDelete(now), maxCap)
    {
      ghost var b := book;
      Unlist(st, key);
      st.Reset();
      err := AppendTombstone(st.slotID, AsU64(now));
      CloseDelete(st, now, b);
    }

    method Unlist(st: SlotState, key: Name)
      requires TableOk() && key in byName && byName[key] == st
      modifies `byName
      ensures TableOk() && byName == old(byName) - {key} && forall k :: k in byName ==> byName[k] != st
    {
      forall k | k in byName && k != key
        ensures byName[k] != st
      {
        assert Listed(k, byName[k]) && Listed(key, st);
      }
      byName := byName - {key};
      assert forall k :: k in byName ==> k in old(byName) && old(Listed(k, byName[k]));
    }

    ghost method CloseDelete(st: SlotState, now: I64, b: Book)
      requires Stepping(b) && st in views && forall k :: k in byName ==> byName[k] != st
      requires book == Written(b, [Tombstone(st.slotID, AsU64(now))])
      requires st.View() == Delete(views[st]) && forall o :: o in views && o != st ==> o.View() == views[o]
      modifies this`book, this`views
      ensures Valid() && views == old(views)[st := Delete(old(views)[st])]
      ensures book == BookAfter(b, st.slotID, old(views)[st], OpDelete(now), maxCap)
    {
      CloseBooks(st, OpDelete(now), b);
    }

    // ---- Snapshots and expiry ----

    method AppendSnapshot(st: SlotState, now: I64) returns (err: Option<Error>)
      requires InStep() && st.live != map[]
      modifies this`file, this`book
      ensures InStep() && book == Written(old(book), [SnapshotRec(st.View(), st.slotID, AsU64(now))])
      ensures err == if closed then Some(Closed) else None
    {
      var seqs := SortSeqs(st.live);
      var frame := WriteSnapshot(crc, st.slotID, AsU64(now), seqs);
      err := AppendFrame(frame, SnapshotRec(st.View(), st.slotID, AsU64(now)));
    }

    // One Snapshot record of a slot, if it holds anything.
    method SnapshotSlot(st: SlotState, now: I64) returns (err: Option<Error>)
      requires Valid() && st in views
      modifies this`file, this`book
      ensures Valid() && book == BookAfter(old(book), st.slotID, views[st], OpSnapshot(now), maxCap)
      ensures err == if closed && views[st].live != map[] then Some(Closed) else None
    {
      if st.live == map[] {
        EmptySnapshot(book, st.slotID, views[st], now);
        return None;
      }
      ghost var b := book;
      err := AppendSnapshot(st, now);
      CloseSnapshot(st, now, b);
    }

    lemma EmptySnapshot(b: Book, id: U32, v: Slot, now: I64)
      requires v.live == map[]
      ensures BookAfter(b, id, v, OpSnapshot(now), maxCap) == b
    {
      assert id !in b.loose ==> b.loose - {id} == b.loose;
    }

    ghost method CloseSnapshot(st: SlotState, now: I64, b: Book)
      requires Stepping(b) && st in views && views[st].live != map[]
      requires book == Written(b, [SnapshotRec(views[st], st.slotID, AsU64(now))])
      modifies this`book
      ensures Consistent() && book == BookAfter(b, st.slotID, views[st], OpSnapshot(now), maxCap)
    {
      assert Owned(st);
      StepAgrees(st, OpSnapshot(now), b);
      StepKeepsSound(st.slotID, views[st], OpSnapshot(now), maxCap, b, nextID);
      WrittenGrows(b, Appends(views[st], OpSnapshot(now), st.slotID));
      book := Noted(book, st.slotID, views[st], OpSnapshot(now), maxCap);
    }

    // The slots done so far have been snapshotted.
    ghost predicate Snapshotted(visits: seq<Visit>, done: set<SlotState>, b: Book, now: I64)
      reads `book, `views
    {
      Tours(visits, done, views) && Snapshots(visits, now) && book == BookTour(b, visits, maxCap)
    }

    // Nothing is known less of any slot than in the book `b`.
    ghost predicate Refreshed(b: Book)
      reads `book
    {
      NoLess(b, book)
    }

    lemma SnapshottedRefreshes(visits: seq<Visit>, done: set<SlotState>, b: Book, now: I64)
      requires Snapshotted(visits, done, b, now)
      ensures Refreshed(b)
    {
      SnapshotsRefresh(b, visits, maxCap, now);
    }

    method SnapshotNext(st: SlotState, now: I64, ghost done: set<SlotState>, ghost visits: seq<Visit>, ghost b: Book)
      returns (err: Option<Error>, ghost visits': seq<Visit>)
      requires Valid() && st in views && st !in done && Snapshotted(visits, done, b, now) && !(closed && AnyLive(done))
      modifies this`file, this`book
      ensures Valid() && Snapshotted(visits', done + {st}, b, now)
      ensures err == if closed && AnyLive(done + {st}) then Some(Closed) else None
    {
      err := SnapshotSlot(st, now);
      BookTourSnoc(b, visits, st, views[st], OpSnapshot(now), maxCap);
      ToursSnoc(visits, done, views, st, OpSnapshot(now));
      AnyLiveSnoc(done, st);
      visits' := visits + [Visit(st, views[st], OpSnapshot(now))];
    }

    lemma AnyLiveSnoc(done: set<SlotState>, st: SlotState)
      requires st in views
      ensures AnyLive(done + {st}) <==> AnyLive(done) || views[st].live != map[]
    {
    }

    // Snapshots the slots in whatever order they come, up to the first error;
    // `rest` are those not reached.
    method SnapshotEach(sts: set<SlotState>, now: I64)
      returns (err: Option<Error>, ghost visits: seq<Visit>, ghost rest: set<SlotState>)
      requires Valid() && sts <= views.Keys
      modifies this`file, this`book
      ensures Valid() && Snapshotted(visits, sts - rest, old(book), now) && (err.None? ==> rest == {})
      ensures err == if closed && AnyLive(sts) then Some(Closed) else None
    {
      err, visits := None, [];
      var todo := sts;
      NoneLeft(sts);
      while err.None? && todo != {}
        invariant Valid() && todo <= sts && Snapshotted(visits, sts - todo, old(book), now)
        invariant err == if closed && AnyLive(sts - todo) then Some(Closed) else None
        decreases |todo|
      {
        var st :| st in todo;
        err, visits := SnapshotNext(st, now, sts - todo, visits, old(book));
        TakeOne(sts, todo, st);
        todo := todo - {st};
      }
      rest := todo;
    }

    method SnapshotListed(now: I64) returns (err: Option<Error>, ghost visits: seq<Visit>)
      requires Valid()
      modifies this`file, this`book
      ensures Valid() && err == if closed && AnyLive(byName.Values) then Some(Closed) else None
      ensures Refreshed(old(book)) && (err.None? ==> Snapshotted(visits, byName.Values, old(book), now))
    {
      ghost var rest;
      ValuesAreHandles();
      err, visits, rest := SnapshotEach(byName.Values, now);
      NoneLeft(byName.Values);
      SnapshottedRefreshes(visits, byName.Values - rest, old(book), now);
    }

    ghost predicate AnyLive(sts: set<SlotState>)
      reads `views
    {
      exists st :: st in sts && st in views && views[st].live != map[]
    }

    // A Snapshot for every listed slot that is not empty, after which the log
    // knows of each exactly what memory holds. It fails only on a closed log.
    method Snapshot(now: I64) returns (err: Option<Error>, ghost visits: seq<Visit>)
      requires Valid()
      modifies `file, `book, `recsSinceSnap
      ensures Valid() && err == if closed && AnyLive(byName.Values) then Some(Closed) else None
      ensures Refreshed(old(book)) && (err.None? ==> Snapshotted(visits, byName.Values, old(book), now))
      ensures recsSinceSnap == if err.None? then 0 else old(recsSinceSnap)
    {
      err, visits := SnapshotListed(now);
      recsSinceSnap := if err.Some? then recsSinceSnap else 0;
    }

    lemma ValuesAreHandles()
      requires TableOk()
      ensures byName.Values <= views.Keys
    {
      forall st | st in byName.Values
        ensures st in views
      {
        var k :| k in byName && byName[k] == st;
        assert Listed(k, byName[k]);
      }
    }

    lemma HandlesOwnIds(sts: set<SlotState>)
      requires TableOk() && sts <= views.Keys
      ensures OwnIds(sts)
    {
      assert forall st :: st in sts ==> Owned(st);
    }

    // The slots done so far have been swept.
    ghost predicate Swept(visits: seq<Visit>, done: set<SlotState>, vs: map<SlotState, Slot>, b: Book, cutoff: I64)
      reads `book, `views
    {
      && Tours(visits, done, vs) && Sweeps(visits, cutoff) && book == BookTour(b, visits, maxCap)
      && SweptTo(views, done, vs, cutoff)
    }

    method SweepNext(st: SlotState, cutoff: I64, ghost done: set<SlotState>, ghost visits: seq<Visit>,
                     ghost vs: map<SlotState, Slot>, ghost b: Book)
      returns (ghost visits': seq<Visit>)
      requires Valid() && st in views && st !in done && Swept(visits, done, vs, b, cutoff)
      modifies this`file, this`book, this`recsSinceSnap, this`views, st
      ensures Valid() && Swept(visits', done + {st}, vs, b, cutoff) && recsSinceSnap == old(recsSinceSnap)
    {
      ghost var ws := views;
      ghost var order := st.SweepLocked(cutoff);
      ghost var op := OpSweep(cutoff, order);
      SweptSnoc(visits, b, st, vs[st], op, maxCap, cutoff);
      ToursSnoc(visits, done, vs, st, op);
      SweptToSnoc(ws, views, done, vs, cutoff, st);
      visits' := visits + [Visit(st, vs[st], op)];
    }

    // Expiry over a list of slots, one after the other.
    method SweepEach(sts: set<SlotState>, cutoff: I64) returns (ghost visits: seq<Visit>)
      requires Valid() && sts <= views.Keys
      modifies `file, `book, `recsSinceSnap, `views, sts
      ensures Valid() && Swept(visits, sts, old(views), old(book), cutoff) && recsSinceSnap == old(recsSinceSnap)
    {
      visits := [];
      var rest := sts;
      NoneLeft(sts);
      while rest != {}
        invariant Valid() && rest <= sts && Swept(visits, sts - rest, old(views), old(book), cutoff)
        invariant recsSinceSnap == old(recsSinceSnap)
        decreases |rest|
      {
        var st :| st in rest;
        visits := SweepNext(st, cutoff, sts - rest, visits, old(views), old(book));
        TakeOne(sts, rest, st);
        rest := rest - {st};
      }
    }

    // The periodic expiry of everything older than the cutoff: every listed slot
    // loses exactly that, and one Expire record is written for each seq lost.
    method SweepOnce(cutoff: I64) returns (ghost visits: seq<Visit>)
      requires Valid()
      modifies `file, `book, `recsSinceSnap, `views, byName.Values
      ensures Valid() && byName.Values <= views.Keys
      ensures AllSpared(views, byName.Values, old(views), cutoff)
      ensures !closed ==>
                && old(book.log) <= book.log
                && ExpiriesOf(book.log[|old(book.log)|..], byName.Values, old(views), cutoff)
      ensures Swept(visits, byName.Values, old(views), old(book), cutoff) && recsSinceSnap == old(recsSinceSnap)
      ensures SameFlags(old(book), book)
    {
      ValuesAreHandles();
      HandlesOwnIds(byName.Values);
      visits := SweepEach(byName.Values, cutoff);
      SweepsKeepFlags(old(book), visits, maxCap, cutoff);
      SweptSpares(views, byName.Values, old(views), cutoff);
      SweepsWrite(old(book), book, visits, byName.Values, old(views), maxCap, cutoff);
    }

    // ---- Durability ----

    lemma CompactionAgrees(rs: seq<Rec>, log: seq<Rec>, cutoff: I64, now: I64)
      requires Sound(book, nextID) && forall o :: o in views ==> HandleOk(o, views[o], book) && Owned(o)
      requires (AllStorable(book.log) ==> rs == book.log) && Compacts(log, rs, cutoff, now)
      ensures var gone, ahead := Gone(views.Keys, rs, cutoff), AheadOf(views, now);
              var b' := BookCompacted(book, log, cutoff, now, gone, ahead, owner.Keys);
              Sound(b', nextID) && forall o :: o in views ==> HandleOk(o, views[o], b')
    {
      var gone, ahead, all := Gone(views.Keys, rs, cutoff), AheadOf(views, now), owner.Keys;
      forall o | o in views
        ensures HandleOk(o, views[o], BookCompacted(book, log, cutoff, now, gone, ahead, all))
      {
        assert o.slotID in gone || Survives(rs, o.slotID, Names(o.stream, o.consumer), cutoff);
        AheadIsOwn(now, o);
        CompactKeepsSlot(o.slotID, Names(o.stream, o.consumer), views[o], book, rs, log, cutoff, now, gone, ahead, all);
      }
      CompactKeepsSound(book, nextID, rs, log, cutoff, now, gone, ahead, all);
    }

    lemma AheadIsOwn(now: I64, st: SlotState)
      requires st in views && forall o :: o in views ==> Owned(o)
      ensures st.slotID in AheadOf(views, now) <==> Ahead(views[st], now)
    {
      if st.slotID in AheadOf(views, now) {
        var o :| o in views && Ahead(views[o], now) && o.slotID == st.slotID;
        assert Owned(o) && Owned(st);
      }
    }

    lemma RewrittenAgrees(cutoff: I64, now: I64)
      requires Sound(book, nextID) && TableOk() && forall o :: o in views ==> HandleOk(o, views[o], book)
      ensures var b' := BookRewritten(book, crc, views, owner.Keys, cutoff, now);
              && Sound(b', nextID) && (forall o :: o in views ==> HandleOk(o, views[o], b'))
              && b'.log == CompactLog(ReadBack(crc, book.log), cutoff, AsU64(now)) && b'.closed == book.closed
    {
      var rs := ReadBack(crc, book.log);
      CompactLogCompacts(rs, cutoff, now);
      assert forall o :: o in views ==> Owned(o);
      CompactionAgrees(rs, CompactLog(rs, cutoff, AsU64(now)), cutoff, now);
    }

    // The store goes over to another book that every slot agrees with.
    ghost method Adopt(b: Book)
      requires maxCap > 0 && TableOk() && file == FileOf(crc, b.log) && closed == b.closed && Sound(b, nextID)
      requires forall o :: o in views ==> HandleOk(o, views[o], b)
      modifies this`book, this`synced
      ensures Consistent() && synced == |book.log| && book == b
    {
      book := b;
      synced := |book.log|;
    }

    // The file becomes the compacted one; memory is left alone.
    method Compact(cutoff: I64, now: I64) returns (err: Option<Error>)
      requires Valid()
      modifies `file, `book, `recsSinceSnap, `synced
      ensures Valid() && err == if closed then Some(Closed) else None
      ensures closed ==> book == old(book) && synced == old(synced) && recsSinceSnap == old(recsSinceSnap)
      ensures !closed ==>
                && book == BookRewritten(old(book), crc, views, owner.Keys, cutoff, now)
                && synced == |book.log| && recsSinceSnap == 0
    {
      if closed {
        return Some(Closed);
      }
      ghost var b := BookRewritten(book, crc, views, owner.Keys, cutoff, now);
      RewrittenAgrees(cutoff, now);
      Rewrite(cutoff, now, b);
      err := None;
    }

    method Rewrite(cutoff: I64, now: I64, ghost b: Book)
      requires Valid() && !b.closed && !closed && b.log == CompactLog(ReadBack(crc, book.log), cutoff, AsU64(now))
      requires Sound(b, nextID) && forall o :: o in views ==> HandleOk(o, views[o], b)
      modifies `file, `book, `recsSinceSnap, `synced
      ensures Valid() && book == b && synced == |book.log| && recsSinceSnap == 0
    {
      RewriteFile(cutoff, now);
      Adopt(b);
    }

    // Scans the old file for what is live and puts the compacted one in its place.
    method RewriteFile(cutoff: I64, now: I64)
      requires InStep()
      modifies this`file, this`recsSinceSnap
      ensures file == FileOf(crc, CompactLog(ReadBack(crc, book.log), cutoff, AsU64(now))) && recsSinceSnap == 0
    {
      ReopenIsLog(crc, book.log);
      var ok, acc := ScanLiveState(crc, file, cutoff);
      var size;
      file, size := WriteCompacted(crc, acc, AsU64(now));
      recsSinceSnap := 0;
    }

    // Flushes what was appended; then compacts a file over its threshold, or
    // snapshots when enough records have gathered.
    method Sync(cutoff: I64, now: I64) returns (err: Option<Error>, ghost visits: seq<Visit>)
      requires Valid()
      modifies `file, `book, `recsSinceSnap, `synced
      ensures Valid() && err == if closed then Some(Closed) else None
      ensures closed ==> book == old(book) && synced == old(synced) && recsSinceSnap == old(recsSinceSnap)
      ensures !closed ==>
                if compactAtBytes > 0 && |old(file)| >= compactAtBytes then
                  && book == BookRewritten(old(book), crc, views, owner.Keys, cutoff, now)
                  && synced == |book.log| && recsSinceSnap == 0
                else
                  && synced == |old(book).log|
                  && if snapshotEveryN > 0 && old(recsSinceSnap) >= snapshotEveryN then
                       Snapshotted(visits, byName.Values, old(book), now) && recsSinceSnap == 0
                     else book == old(book) && recsSinceSnap == old(recsSinceSnap)
    {
      visits := [];
      if closed {
        return Some(Closed), visits;
      }
      synced := |book.log|;
      if compactAtBytes > 0 && |file| >= compactAtBytes {
        err := Compact(cutoff, now);
        return;
      }
      err := None;
      if snapshotEveryN > 0 && recsSinceSnap >= snapshotEveryN {
        err, visits := Snapshot(now);
      }
    }

    method Close()
      requires Valid()
      modifies this`closed, this`synced, this`book
      ensures Valid() && closed && book == old(book).(closed := true)
      ensures synced == if old(closed) then old(synced) else |book.log|
    {
      if closed {
        return;
      }
      ghost var b := book;
      synced := |book.log|;
      closed := true;
      book := book.(closed := true);
      ClosedSound(b, nextID);
      forall o | o in views
        ensures HandleOk(o, views[o], book)
      {
        ClosedAgrees(o.slotID, Names(o.stream, o.consumer), views[o], b);
      }
    }
  }
}
