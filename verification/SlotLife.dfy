// What a slot remembers of each seq, since when and until when, read off the
// operations on it.
module SlotLife {
  import opened Bytes
  import opened Format
  import opened Replay
  import opened Sorting
  import opened Compaction
  import opened SlotModel

  // ---- One operation ----

  // The entries a full queue gives up for a new one.
  function Oldest(q: seq<U64>, n: U64, cap: nat): seq<U64> {
    if |q| < cap then [] else (q + [n])[..|q| + 1 - cap]
  }

  // The seq is new to the slot, and is still there when room has been made.
  predicate TakesIn(s: Slot, op: SlotOp, cap: nat, n: U64) {
    op.OpCheck? && op.n == n && !s.tombed && n !in s.live && n !in Oldest(s.fifo, n, cap)
  }

  // The seq goes, if it was there.
  predicate TakesOut(s: Slot, op: SlotOp, cap: nat, n: U64) {
    match op
    case OpCheck(m, _) => !s.tombed && m !in s.live && n in Oldest(s.fifo, m, cap)
    case OpConfirm(m, _) => n == m
    case OpConfirmTo(cursor, _) => n <= cursor
    case OpSweep(cutoff, _) => n in s.live && s.live[n] < cutoff
    case OpSnapshot(_) => false
    case OpDelete(_) => true
  }

  // What is live after an operation, and the date of it.
  predicate Turns(s: Slot, op: SlotOp, cap: nat, s': Slot, n: U64) {
    && (n in s'.live <==> TakesIn(s, op, cap, n) || (n in s.live && !TakesOut(s, op, cap, n)))
    && (n in s'.live ==> s'.live[n] == if n in s.live then s.live[n] else op.now)
  }

  lemma OldestIsOverflow(q: seq<U64>, n: U64, cap: nat)
    ensures Oldest(q, n, cap) == (q + [n])[..Overflow(q + [n], cap)]
  {
  }

  lemma InsertTurns(s: Slot, n: U64, now: I64, cap: nat, x: U64)
    requires !s.tombed && n !in s.live
    ensures Turns(s, OpCheck(n, now), cap, Insert(s, n, now, cap), x)
  {
    OldestIsOverflow(s.fifo, n, cap);
  }

  lemma DropTurns(s: Slot, gone: set<U64>, x: U64)
    ensures x in DropKeys(s, gone).live <==> x in s.live && x !in gone
    ensures x in DropKeys(s, gone).live ==> DropKeys(s, gone).live[x] == s.live[x]
  {
    DropKeysLive(s, gone);
  }

  lemma ApplyTurns(s: Slot, op: SlotOp, cap: nat, n: U64)
    ensures Turns(s, op, cap, Apply(s, op, cap), n)
  {
    match op
    case OpCheck(m, now) =>
      if !s.tombed && m !in s.live {
        InsertTurns(s, m, now, cap, n);
      }
    case OpConfirmTo(cursor, _) => DropTurns(s, AtMost(s, cursor), n);
    case OpSweep(cutoff, _) => DropTurns(s, OlderThan(s, cutoff), n);
    case _ =>
  }

  // ---- The test-and-set ----

  // A new seq is dated now, and the queue keeps the newest entries it has room
  // for; the seqs of the others go, and those that stay keep their dates.
  ghost predicate TakenIn(s: Slot, s': Slot, n: U64, now: I64, cap: nat) {
    && s'.fifo == (s.fifo + [n])[|Oldest(s.fifo, n, cap)|..]
    && (forall x :: x in s'.live <==> (x == n || x in s.live) && x !in Oldest(s.fifo, n, cap))
    && (forall x :: x in s'.live ==> s'.live[x] == if x == n then now else s.live[x])
    && !s'.tombed && s'.maxSeq == (if n > s.maxSeq then n else s.maxSeq)
    && s'.minSeq == if s'.fifo == [] then s.minSeq else s'.fifo[0]
  }

  // What checking and recording a seq answers and leaves.
  ghost predicate TestedAndSet(s: Slot, s': Slot, n: U64, now: I64, cap: nat, isNew: bool) {
    && (isNew <==> s.tombed || n !in s.live)
    && if !isNew || s.tombed then s' == s else TakenIn(s, s', n, now, cap)
  }

  lemma InsertTakesIn(s: Slot, n: U64, now: I64, cap: nat)
    requires !s.tombed
    ensures TakenIn(s, Insert(s, n, now, cap), n, now, cap)
  {
    OldestIsOverflow(s.fifo, n, cap);
  }

  lemma CheckRecordTests(s: Slot, n: U64, now: I64, cap: nat)
    ensures var (isNew, s') := CheckRecord(s, n, now, cap);
            TestedAndSet(s, s', n, now, cap, isNew)
  {
    if !s.tombed && n !in s.live {
      InsertTakesIn(s, n, now, cap);
    }
  }

  // What an operation makes of the queue: a confirmed seq's entry stays in it, a
  // cursor or a sweep that drops anything leaves just the live entries.
  lemma QueueTells(s: Slot, op: SlotOp, cap: nat)
    ensures var s' := Apply(s, op, cap);
            match op
            case OpCheck(n, _) =>
              if s.tombed || n in s.live then s' == s
              else
                && s'.fifo == (s.fifo + [n])[|Oldest(s.fifo, n, cap)|..]
                && s'.maxSeq == (if n > s.maxSeq then n else s.maxSeq)
                && s'.minSeq == if s'.fifo == [] then s.minSeq else s'.fifo[0]
            case OpConfirm(_, _) => SameQueue(s, s')
            case OpConfirmTo(_, _) => SameQueue(s, s') || QueueCompacted(s, s')
            case OpSweep(_, _) => SameQueue(s, s') || QueueCompacted(s, s')
            case OpSnapshot(_) => s' == s
            case OpDelete(_) => s'.fifo == [] && s'.minSeq == 0 && s'.maxSeq == 0
    ensures op.OpConfirmTo? || op.OpSweep? ==>
              var s' := Apply(s, op, cap);
              if s'.live.Keys == s.live.Keys then s' == s else s.fifo == [] || QueueCompacted(s, s')
  {
    match op
    case OpCheck(n, now) =>
      if !s.tombed && n !in s.live {
        InsertTakesIn(s, n, now, cap);
      }
    case OpConfirmTo(n, _) => DropTells(s, AtMost(s, n));
    case OpSweep(cutoff, _) => DropTells(s, OlderThan(s, cutoff));
    case _ =>
  }

  predicate SameQueue(s: Slot, s': Slot) {
    s'.fifo == s.fifo && s'.minSeq == s.minSeq && s'.maxSeq == s.maxSeq
  }

  predicate QueueCompacted(s: Slot, s': Slot) {
    s'.fifo == Kept(s.fifo, s'.live.Keys) && s'.minSeq == MinOf(s'.fifo) && s'.maxSeq == s.maxSeq
  }

  lemma DropTells(s: Slot, gone: set<U64>)
    ensures var s' := DropKeys(s, gone);
            && (if s'.live.Keys == s.live.Keys then s' == s else s.fifo == [] || QueueCompacted(s, s'))
            && (SameQueue(s, s') || QueueCompacted(s, s'))
  {
    DropKeysLive(s, gone);
    if s.live.Keys * gone != {} {
      var n :| n in s.live.Keys * gone;
      assert n !in s.live.Keys - gone;
    }
  }

  // ---- Runs ----

  // The states of a slot that starts empty, one operation after the other.
  ghost predicate Trace(at: nat -> Slot, ops: seq<SlotOp>, cap: nat) {
    at(0).live == map[] && forall i: nat, n: U64 :: i < |ops| ==> TurnsAt(at, ops, cap, i, n)
  }

  ghost predicate TurnsAt(at: nat -> Slot, ops: seq<SlotOp>, cap: nat, i: nat, n: U64)
    requires i < |ops|
  {
    Turns(at(i), ops[i], cap, at(i + 1), n)
  }

  // Taken in by the i-th operation, and not taken out before the m-th.
  ghost predicate LiveSince(at: nat -> Slot, ops: seq<SlotOp>, cap: nat, n: U64, i: nat, m: nat) {
    && i < m <= |ops| && TakesIn(at(i), ops[i], cap, n)
    && forall j :: i < j < m ==> !TakesOut(at(j), ops[j], cap, n)
  }

  lemma LiveSinceStep(at: nat -> Slot, ops: seq<SlotOp>, cap: nat, n: U64, m: nat, m': nat)
    requires m < |ops| && m' == m + 1
    ensures (exists i: nat :: LiveSince(at, ops, cap, n, i, m')) <==>
            TakesIn(at(m), ops[m], cap, n)
            || (!TakesOut(at(m), ops[m], cap, n) && exists i: nat :: LiveSince(at, ops, cap, n, i, m))
  {
    if i: nat :| LiveSince(at, ops, cap, n, i, m') && i < m {
      assert LiveSince(at, ops, cap, n, i, m);
    }
    if TakesIn(at(m), ops[m], cap, n) {
      assert LiveSince(at, ops, cap, n, m, m');
    } else if !TakesOut(at(m), ops[m], cap, n) {
      if i: nat :| LiveSince(at, ops, cap, n, i, m) {
        assert LiveSince(at, ops, cap, n, i, m');
      }
    }
  }

  lemma {:induction false} LiveIffSince(at: nat -> Slot, ops: seq<SlotOp>, cap: nat, n: U64, m: nat)
    requires Trace(at, ops, cap) && m <= |ops|
    ensures n in at(m).live <==> exists i: nat :: LiveSince(at, ops, cap, n, i, m)
  {
    if m > 0 {
      LiveIffSince(at, ops, cap, n, m - 1);
      assert TurnsAt(at, ops, cap, m - 1, n);
      LiveSinceStep(at, ops, cap, n, m - 1, m);
    }
  }

  lemma {:induction false} DatedSince(at: nat -> Slot, ops: seq<SlotOp>, cap: nat, n: U64, i: nat, m: nat)
    requires Trace(at, ops, cap) && LiveSince(at, ops, cap, n, i, m)
    ensures n in at(m).live && at(m).live[n] == ops[i].now
  {
    assert TurnsAt(at, ops, cap, m - 1, n);
    if i < m - 1 {
      DatedSince(at, ops, cap, n, i, m - 1);
    }
  }

  // The states of the log's slot.
  function RunAt(ops: seq<SlotOp>, cap: nat): nat -> Slot {
    (i: nat) => if i <= |ops| then Run(NEW_SLOT, ops[..i], cap) else NEW_SLOT
  }

  lemma RunIsTrace(ops: seq<SlotOp>, cap: nat)
    ensures Trace(RunAt(ops, cap), ops, cap) && RunAt(ops, cap)(|ops|) == Run(NEW_SLOT, ops, cap)
  {
    forall i: nat, n: U64 | i < |ops|
      ensures TurnsAt(RunAt(ops, cap), ops, cap, i, n)
    {
      assert ops[..i + 1][..i] == ops[..i];
      ApplyTurns(Run(NEW_SLOT, ops[..i], cap), ops[i], cap, n);
    }
    assert ops[..|ops|] == ops;
  }

  // In every run a seq is remembered exactly if some check took it in and
  // nothing took it out since: no eviction, confirmation, cursor or deletion,
  // and no sweep with a cutoff past its date.
  lemma LiveIffTakenInAndKept(ops: seq<SlotOp>, cap: nat, n: U64)
    ensures n in Run(NEW_SLOT, ops, cap).live <==>
            exists i: nat :: LiveSince(RunAt(ops, cap), ops, cap, n, i, |ops|)
  {
    RunIsTrace(ops, cap);
    LiveIffSince(RunAt(ops, cap), ops, cap, n, |ops|);
  }

  // And it is dated with the time of that check.
  lemma DatedWhenTakenIn(ops: seq<SlotOp>, cap: nat, n: U64, i: nat)
    requires LiveSince(RunAt(ops, cap), ops, cap, n, i, |ops|)
    ensures n in Run(NEW_SLOT, ops, cap).live && Run(NEW_SLOT, ops, cap).live[n] == ops[i].now
  {
    RunIsTrace(ops, cap);
    DatedSince(RunAt(ops, cap), ops, cap, n, i, |ops|);
  }

  // So a seq recorded at some time stays through every sweep whose cutoff is
  // not later, and goes with the first whose cutoff is.
  lemma SweepSparesIff(ops: seq<SlotOp>, cap: nat, n: U64, i: nat, cutoff: I64, order: seq<Expiry>)
    requires LiveSince(RunAt(ops, cap), ops, cap, n, i, |ops|)
    ensures n in Run(NEW_SLOT, ops + [OpSweep(cutoff, order)], cap).live <==> cutoff <= ops[i].now
  {
    var all := ops + [OpSweep(cutoff, order)];
    assert all[..|ops|] == ops;
    DatedWhenTakenIn(ops, cap, n, i);
    ApplyTurns(Run(NEW_SLOT, ops, cap), OpSweep(cutoff, order), cap, n);
  }

  // ---- The in-memory slot ----

  function AsSlotOp(op: SetOp): SlotOp {
    match op
    case Check(n, now) => OpCheck(n, now)
    case ConfirmSeq(n) => OpConfirm(n, 0)
    case ConfirmCursor(cursor) => OpConfirmTo(cursor, 0)
  }

  function AsSlotOps(ops: seq<SetOp>): seq<SlotOp> {
    seq(|ops|, i requires 0 <= i < |ops| => AsSlotOp(ops[i]))
  }

  ghost function MemAt(ops: seq<SetOp>, cap: nat): nat -> Slot {
    (i: nat) => if i <= |ops| then MemRun(ops[..i], cap).1 else NEW_SLOT
  }

  lemma MemStepTurns(s: Slot, op: SetOp, cap: nat, n: U64)
    ensures Turns(s, AsSlotOp(op), cap, MemStep(s, op, cap).1, n)
  {
    ApplyTurns(s, AsSlotOp(op), cap, n);
  }

  lemma MemIsTrace(ops: seq<SetOp>, cap: nat)
    ensures Trace(MemAt(ops, cap), AsSlotOps(ops), cap) && MemAt(ops, cap)(|ops|) == MemRun(ops, cap).1
  {
    forall i: nat, n: U64 | i < |ops|
      ensures TurnsAt(MemAt(ops, cap), AsSlotOps(ops), cap, i, n)
    {
      assert ops[..i + 1][..i] == ops[..i];
      MemStepTurns(MemRun(ops[..i], cap).1, ops[i], cap, n);
    }
    assert ops[..|ops|] == ops;
  }

  // The same holds of the in-memory slot.
  lemma MemLiveIffTakenInAndKept(ops: seq<SetOp>, cap: nat, n: U64)
    ensures n in MemRun(ops, cap).1.live <==>
            exists i: nat :: LiveSince(MemAt(ops, cap), AsSlotOps(ops), cap, n, i, |ops|)
  {
    MemIsTrace(ops, cap);
    LiveIffSince(MemAt(ops, cap), AsSlotOps(ops), cap, n, |ops|);
  }

  lemma MemDatedWhenTakenIn(ops: seq<SetOp>, cap: nat, n: U64, i: nat)
    requires LiveSince(MemAt(ops, cap), AsSlotOps(ops), cap, n, i, |ops|)
    ensures ops[i].Check? && n in MemRun(ops, cap).1.live && MemRun(ops, cap).1.live[n] == ops[i].now
  {
    MemIsTrace(ops, cap);
    DatedSince(MemAt(ops, cap), AsSlotOps(ops), cap, n, i, |ops|);
  }

  // ---- Expiry ----

  predicate Older(s: Slot, cutoff: I64, n: U64) {
    n in s.live && s.live[n] < cutoff
  }

  // What a sweep leaves: exactly the seqs that are not older, as they were dated.
  ghost predicate SparesYoung(s: Slot, s': Slot, cutoff: I64) {
    forall n :: (n in s'.live <==> n in s.live && s.live[n] >= cutoff) && (n in s'.live ==> s'.live[n] == s.live[n])
  }

  lemma SweepSparesYoung(s: Slot, cutoff: I64)
    ensures SparesYoung(s, Sweep(s, cutoff), cutoff)
  {
    DropKeysLive(s, OlderThan(s, cutoff));
  }

  // The records are one Expire of this slot for each seq that is older, and
  // nothing else.
  ghost predicate ExpiresEach(rs: seq<Rec>, id: U32, s: Slot, cutoff: I64) {
    && (forall i :: 0 <= i < |rs| ==>
          rs[i].SeqOp? && rs[i].op == Expire && rs[i].slot == id && Older(s, cutoff, rs[i].n))
    && (forall n :: Older(s, cutoff, n) ==> exists i :: 0 <= i < |rs| && NamesSeq(rs[i], n))
    && (forall i, j :: 0 <= i < j < |rs| && rs[i].SeqOp? && rs[j].SeqOp? ==> rs[i].n != rs[j].n)
  }

  predicate NamesSeq(r: Rec, n: U64) {
    r.SeqOp? && r.n == n
  }

  // No seq is expired twice.
  predicate Once(order: seq<Expiry>) {
    forall i, j :: 0 <= i < j < |order| ==> order[i].n != order[j].n
  }

  lemma {:induction false} ExpiresAre(id: U32, order: seq<Expiry>)
    ensures |Expires(id, order)| == |order|
    ensures forall i :: 0 <= i < |order| ==> Expires(id, order)[i] == SeqOp(Expire, id, AsU64(order[i].at), order[i].n)
  {
    if order != [] {
      ExpiresAre(id, order[..|order| - 1]);
    }
  }

  lemma ExpiresEachOnce(s: Slot, id: U32, cutoff: I64, order: seq<Expiry>)
    requires ExpiredSeqs(order) == OlderThan(s, cutoff) && Once(order)
    ensures ExpiresEach(Expires(id, order), id, s, cutoff)
  {
    ExpiresAre(id, order);
    var rs := Expires(id, order);
    forall i | 0 <= i < |rs|
      ensures rs[i].SeqOp? && rs[i].op == Expire && rs[i].slot == id && Older(s, cutoff, rs[i].n)
    {
      assert order[i].n in ExpiredSeqs(order);
    }
    forall n | Older(s, cutoff, n)
      ensures exists i :: 0 <= i < |rs| && NamesSeq(rs[i], n)
    {
      assert n in ExpiredSeqs(order);
      var i :| 0 <= i < |order| && order[i].n == n;
      assert NamesSeq(rs[i], n);
    }
  }

  lemma {:induction false} ProjectAppend(a: seq<Rec>, b: seq<Rec>, id: U32)
    ensures Project(a + b, id) == Project(a, id) + Project(b, id)
  {
    if b == [] {
      assert a + b == a;
    } else {
      var k := |b| - 1;
      assert (a + b)[..|a + b| - 1] == a + b[..k];
      ProjectAppend(a, b[..k], id);
    }
  }

  lemma {:induction false} ProjectOwn(rs: seq<Rec>, id: U32)
    requires forall i :: 0 <= i < |rs| ==> rs[i].slot == id
    ensures Project(rs, id) == rs
  {
    if rs != [] {
      var k := |rs| - 1;
      ProjectOwn(rs[..k], id);
      assert rs == rs[..k] + [rs[k]];
    }
  }

  lemma {:induction false} ProjectForeign(rs: seq<Rec>, id: U32)
    requires forall i :: 0 <= i < |rs| ==> rs[i].slot != id
    ensures Project(rs, id) == []
  {
    if rs != [] {
      ProjectForeign(rs[..|rs| - 1], id);
    }
  }

  // ---- Deleted for good ----

  // A deleted slot stays empty whatever is done through a handle to it, answers
  // every check that the seq is new, and records none.
  lemma {:induction false} DeletedForGood(s: Slot, ops: seq<SlotOp>, cap: nat, n: U64, now: I64, id: U32)
    ensures var s' := Run(Delete(s), ops, cap);
            && s'.live == map[] && s'.tombed
            && CheckRecord(s', n, now, cap).0 && Appends(s', OpCheck(n, now), id) == []
  {
    if ops != [] {
      var k := |ops| - 1;
      var before := Run(Delete(s), ops[..k], cap);
      DeletedForGood(s, ops[..k], cap, n, now, id);
      match ops[k]
      case OpConfirmTo(cursor, _) => DropKeysLive(before, AtMost(before, cursor));
      case OpSweep(cutoff, _) => DropKeysLive(before, OlderThan(before, cutoff));
      case _ =>
    }
  }

  // ---- The log dates what memory dates ----

  // What memory has and is not older than the cutoff the log has too, with the
  // same date.
  ghost predicate DatesAlike(s: Slot, v: SlotView, cutoff: I64) {
    forall n :: n in s.live && (cutoff <= 0 || cutoff <= s.live[n]) ==> n in v.live && v.live[n] == s.live[n]
  }

  lemma DropDatesAlike(s: Slot, s': Slot, v: SlotView, v': SlotView, gone: set<U64>, cutoff: I64)
    requires DatesAlike(s, v, cutoff) && s'.live == s.live - gone
    requires forall n :: n in v.live && n !in gone ==> n in v'.live && v'.live[n] == v.live[n]
    ensures DatesAlike(s', v', cutoff)
  {
  }

  lemma InsertDatesAlike(s: Slot, v: SlotView, n: U64, now: I64, cap: nat, id: U32, cutoff: I64)
    requires DatesAlike(s, v, cutoff)
    ensures DatesAlike(Insert(s, n, now, cap), StepSlot(v, SeqOp(Record, id, AsU64(now), n), id, cutoff), cutoff)
  {
  }

  ghost predicate StaysAlike(s: Slot, v: SlotView, op: SlotOp, cap: nat, id: U32, cutoff: I64) {
    var s', v' := Apply(s, op, cap), SlotFrom(v, Appends(s, op, id), id, cutoff);
    DatesAlike(s', v', cutoff)
  }

  lemma CheckAlike(s: Slot, v: SlotView, n: U64, now: I64, cap: nat, id: U32, cutoff: I64)
    requires DatesAlike(s, v, cutoff)
    ensures StaysAlike(s, v, OpCheck(n, now), cap, id, cutoff)
  {
    if !s.tombed && n !in s.live {
      AppendedOne(v, SeqOp(Record, id, AsU64(now), n), id, cutoff);
      InsertDatesAlike(s, v, n, now, cap, id, cutoff);
    }
  }

  lemma ConfirmAlike(s: Slot, v: SlotView, n: U64, now: I64, cap: nat, id: U32, cutoff: I64)
    requires DatesAlike(s, v, cutoff)
    ensures StaysAlike(s, v, OpConfirm(n, now), cap, id, cutoff)
  {
    AppendedOne(v, SeqOp(Confirm, id, AsU64(now), n), id, cutoff);
  }

  lemma ConfirmToAlike(s: Slot, v: SlotView, n: U64, now: I64, cap: nat, id: U32, cutoff: I64)
    requires DatesAlike(s, v, cutoff)
    ensures StaysAlike(s, v, OpConfirmTo(n, now), cap, id, cutoff)
  {
    var r := SeqOp(ConfirmUpTo, id, AsU64(now), n);
    AppendedOne(v, r, id, cutoff);
    DropKeysLive(s, AtMost(s, n));
    UpToDatesAlike(s, ConfirmTo(s, n).1, v, StepSlot(v, r, id, cutoff), n, cutoff);
  }

  lemma SweepAlike(s: Slot, v: SlotView, c: I64, order: seq<Expiry>, cap: nat, id: U32, cutoff: I64)
    requires DatesAlike(s, v, cutoff) && ExpiredSeqs(order) == OlderThan(s, c)
    ensures StaysAlike(s, v, OpSweep(c, order), cap, id, cutoff)
  {
    ExpiresDrop(v, id, order, cutoff);
    DropKeysLive(s, OlderThan(s, c));
    DropDatesAlike(s, Sweep(s, c), v, SlotFrom(v, Expires(id, order), id, cutoff), OlderThan(s, c), cutoff);
  }

  lemma StepDatesAlike(s: Slot, v: SlotView, op: SlotOp, cap: nat, id: U32, cutoff: I64)
    requires DatesAlike(s, v, cutoff) && Allowed(s, op) && !op.OpSnapshot?
    ensures StaysAlike(s, v, op, cap, id, cutoff)
  {
    match op
    case OpCheck(n, now) => CheckAlike(s, v, n, now, cap, id, cutoff);
    case OpConfirm(n, now) => ConfirmAlike(s, v, n, now, cap, id, cutoff);
    case OpConfirmTo(n, now) => ConfirmToAlike(s, v, n, now, cap, id, cutoff);
    case OpSweep(c, order) => SweepAlike(s, v, c, order, cap, id, cutoff);
    case OpDelete(now) => AppendedOne(v, Tombstone(id, AsU64(now)), id, cutoff);
  }

  lemma UpToDatesAlike(s: Slot, s': Slot, v: SlotView, v': SlotView, n: U64, cutoff: I64)
    requires DatesAlike(s, v, cutoff) && s'.live == s.live - AtMost(s, n) && v'.live == DropUpTo(v.live, n)
    ensures DatesAlike(s', v', cutoff)
  {
  }

  // In every run without a snapshot, which restamps what it lists, the log
  // replayed with any cutoff dates each seq that memory holds, and that is not
  // older, with the time it was recorded.
  lemma {:induction false} RunDatesAlike(ops: seq<SlotOp>, cap: nat, id: U32, cutoff: I64)
    requires RunAllowed(NEW_SLOT, ops, cap) && forall i :: 0 <= i < |ops| ==> !ops[i].OpSnapshot?
    ensures DatesAlike(Run(NEW_SLOT, ops, cap), SlotOf(RunLog(NEW_SLOT, ops, cap, id), id, cutoff), cutoff)
  {
    if ops != [] {
      var k := |ops| - 1;
      var s := Run(NEW_SLOT, ops[..k], cap);
      var log := RunLog(NEW_SLOT, ops[..k], cap, id);
      assert forall i :: 0 <= i < k ==> ops[..k][i] == ops[i];
      RunDatesAlike(ops[..k], cap, id, cutoff);
      StepDatesAlike(s, SlotOf(log, id, cutoff), ops[k], cap, id, cutoff);
      SlotFromAppend(NO_SLOT, log, Appends(s, ops[k], id), id, cutoff);
    }
  }

  // An eviction is not logged: the log goes on remembering what memory gave up,
  // and so remembers more.
  lemma EvictionStaysLogged(s: Slot, v: SlotView, n: U64, now: I64, cap: nat, id: U32, x: U64)
    requires x in s.live && x in v.live && TakesOut(s, OpCheck(n, now), cap, x)
    ensures var s', v' := Apply(s, OpCheck(n, now), cap), SlotFrom(v, Appends(s, OpCheck(n, now), id), id, 0);
            x !in s'.live && x in v'.live && !Exact(s', v')
  {
    ApplyTurns(s, OpCheck(n, now), cap, x);
    AppendedOne(v, SeqOp(Record, id, AsU64(now), n), id, 0);
  }

  // ---- What a snapshot lists ----

  lemma SnapshotListsExactly(s: Slot, id: U32, ts: U64)
    requires s.live != map[]
    ensures ListsExactly(SnapshotRec(s, id, ts), s.live.Keys)
  {
    AscBounds(s.live.Keys);
  }
}
