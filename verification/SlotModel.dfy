// One slot in memory: the live set, the insertion queue that bounds it, and the
// min/max gate in front of it. Both stores keep this state; the write-ahead
// log's slot also appends a record for every change.
module SlotModel {
  import opened Bytes
  import opened Format
  import opened Replay
  import opened Sorting

  datatype Slot = Slot(live: Live, fifo: seq<U64>, minSeq: U64, maxSeq: U64, tombed: bool)

  const NEW_SLOT := Slot(map[], [], 0, 0, false)

  // ---- The gate ----

  predicate Fresh(s: Slot, n: U64) {
    s.maxSeq == 0 || n > s.maxSeq || n < s.minSeq
  }

  predicate Seen(s: Slot, n: U64) {
    !Fresh(s, n) && n in s.live
  }

  // ---- Operations ----

  function Elems(q: seq<U64>): set<U64> {
    set n | n in q
  }

  // How many of the oldest entries a queue over capacity loses.
  function Overflow(q: seq<U64>, cap: nat): (k: nat)
    ensures k <= |q|
  {
    if |q| > cap then |q| - cap else 0
  }

  function Insert(s: Slot, n: U64, now: I64, cap: nat): Slot {
    var q := s.fifo + [n];
    var k := Overflow(q, cap);
    Slot(s.live[n := now] - Elems(q[..k]), q[k..],
         if q[k..] == [] then s.minSeq else q[k],
         if n > s.maxSeq then n else s.maxSeq, s.tombed)
  }

  // True when the seq is to be treated as new.
  function CheckRecord(s: Slot, n: U64, now: I64, cap: nat): (bool, Slot) {
    if s.tombed then (true, s)
    else if n in s.live then (false, s)
    else (true, Insert(s, n, now, cap))
  }

  function ConfirmOne(s: Slot, n: U64): Slot {
    s.(live := s.live - {n})
  }

  // The queue entries still live, in order.
  function Kept(q: seq<U64>, keys: set<U64>): seq<U64> {
    if q == [] then []
    else Kept(q[..|q| - 1], keys) + (if q[|q| - 1] in keys then [q[|q| - 1]] else [])
  }

  // The running minimum as the code keeps it, 0 standing for "none yet".
  function MinOf(q: seq<U64>): U64 {
    if q == [] then 0
    else
      var m, n := MinOf(q[..|q| - 1]), q[|q| - 1];
      if m == 0 || n < m then n else m
  }

  function CompactFifo(s: Slot): Slot {
    if s.fifo == [] then s
    else
      var q := Kept(s.fifo, s.live.Keys);
      s.(fifo := q, minSeq := MinOf(q))
  }

  function DropKeys(s: Slot, gone: set<U64>): Slot {
    var s' := s.(live := s.live - gone);
    if s.live.Keys * gone == {} then s else CompactFifo(s')
  }

  function AtMost(s: Slot, cursor: U64): set<U64> {
    set n | n in s.live && n <= cursor
  }

  function ConfirmTo(s: Slot, cursor: U64): (nat, Slot) {
    (|AtMost(s, cursor)|, DropKeys(s, AtMost(s, cursor)))
  }

  function OlderThan(s: Slot, cutoff: I64): set<U64> {
    set n | n in s.live && s.live[n] < cutoff
  }

  function Sweep(s: Slot, cutoff: I64): Slot {
    DropKeys(s, OlderThan(s, cutoff))
  }

  function Delete(s: Slot): Slot {
    Slot(map[], [], 0, 0, true)
  }

  // ---- Operations as a run, and the records they append ----

  // A seq expired by the sweeper, and the time its record is dated.
  datatype Expiry = Expiry(n: U64, at: I64)

  function ExpiredSeqs(order: seq<Expiry>): set<U64> {
    set x | x in order :: x.n
  }

  datatype SlotOp =
    | OpCheck(n: U64, now: I64)
    | OpConfirm(n: U64, now: I64)
    | OpConfirmTo(n: U64, now: I64)
    | OpSweep(cutoff: I64, order: seq<Expiry>)
    | OpSnapshot(now: I64)
    | OpDelete(now: I64)

  // The sweeper visits the expired seqs in whatever order the map gives them.
  predicate Allowed(s: Slot, op: SlotOp) {
    op.OpSweep? ==> ExpiredSeqs(op.order) == OlderThan(s, op.cutoff)
  }

  function Apply(s: Slot, op: SlotOp, cap: nat): Slot {
    match op
    case OpCheck(n, now) => CheckRecord(s, n, now, cap).1
    case OpConfirm(n, _) => ConfirmOne(s, n)
    case OpConfirmTo(n, _) => ConfirmTo(s, n).1
    case OpSweep(cutoff, _) => Sweep(s, cutoff)
    case OpSnapshot(_) => s
    case OpDelete(_) => Delete(s)
  }

  function Expires(id: U32, order: seq<Expiry>): seq<Rec> {
    if order == [] then []
    else
      var k := |order| - 1;
      Expires(id, order[..k]) + [SeqOp(Expire, id, AsU64(order[k].at), order[k].n)]
  }

  ghost function SnapshotRec(s: Slot, id: U32, ts: U64): Rec
    requires s.live != map[]
  {
    var ns := Asc64(s.live.Keys);
    Snapshot(id, ts, ns[0], ns[|ns| - 1], ns)
  }

  ghost function Appends(s: Slot, op: SlotOp, id: U32): seq<Rec> {
    match op
    case OpCheck(n, now) =>
      if s.tombed || n in s.live then [] else [SeqOp(Record, id, AsU64(now), n)]
    case OpConfirm(n, now) => [SeqOp(Confirm, id, AsU64(now), n)]
    case OpConfirmTo(n, now) => [SeqOp(ConfirmUpTo, id, AsU64(now), n)]
    case OpSweep(_, order) => Expires(id, order)
    case OpSnapshot(now) => if s.live == map[] then [] else [SnapshotRec(s, id, AsU64(now))]
    case OpDelete(now) => [Tombstone(id, AsU64(now))]
  }

  function Run(s: Slot, ops: seq<SlotOp>, cap: nat): Slot {
    if ops == [] then s else Apply(Run(s, ops[..|ops| - 1], cap), ops[|ops| - 1], cap)
  }

  ghost function RunLog(s: Slot, ops: seq<SlotOp>, cap: nat, id: U32): seq<Rec> {
    if ops == [] then []
    else RunLog(s, ops[..|ops| - 1], cap, id) + Appends(Run(s, ops[..|ops| - 1], cap), ops[|ops| - 1], id)
  }

  predicate RunAllowed(s: Slot, ops: seq<SlotOp>, cap: nat) {
    ops == []
    || (RunAllowed(s, ops[..|ops| - 1], cap) && Allowed(Run(s, ops[..|ops| - 1], cap), ops[|ops| - 1]))
  }

  // ---- Memory and log ----

  // The earliest time there is, and one later than every other.
  const BEGINNING: int := -0x8000_0000_0000_0000
  const NEVER: int := 0x8000_0000_0000_0000

  // A log replayed with this cutoff owes memory a seq dated `t`: it is not
  // older than `floor` nor than the cutoff, and the cutoff is not past `limit`.
  predicate Owed(t: int, floor: int, limit: int, cutoff: I64) {
    floor <= t && (cutoff <= 0 || (cutoff <= t && cutoff <= limit))
  }

  // What the log replayed with this cutoff gives the slot has all it owes.
  predicate Holds(s: Slot, v: SlotView, floor: int, limit: int, cutoff: I64) {
    forall n :: n in s.live && Owed(s.live[n], floor, limit, cutoff) ==> n in v.live
  }

  // The log remembers nothing that memory does not.
  predicate Exact(s: Slot, v: SlotView) {
    v.live.Keys <= s.live.Keys
  }

  // An insertion whose evictions take a live seq leaves it behind in the log;
  // a snapshot of a non-empty slot, or its deletion, makes the two equal again.
  predicate ExactAfter(s: Slot, op: SlotOp, cap: nat, exact: bool) {
    match op
    case OpCheck(n, now) => exact && (s.tombed || Apply(s, op, cap).live.Keys == s.live.Keys + {n})
    case OpSnapshot(_) => exact || s.live != map[]
    case OpDelete(_) => true
    case _ => exact
  }

  // A non-empty snapshot and a deletion leave nothing in memory that the log
  // has forgotten.
  predicate Refreshes(s: Slot, op: SlotOp) {
    op.OpDelete? || (op.OpSnapshot? && s.live != map[])
  }

  function FloorAfter(s: Slot, op: SlotOp, floor: int): int {
    if Refreshes(s, op) then BEGINNING else floor
  }

  // Some live seq is dated later than this.
  predicate Ahead(s: Slot, now: int) {
    exists n :: n in s.live && s.live[n] > now
  }

  // A snapshot redates what it lists: a cutoff past it drops seqs that memory
  // dates later.
  function LimitAfter(s: Slot, op: SlotOp, limit: int): int {
    if op.OpSnapshot? && s.live != map[] then (if Ahead(s, op.now) then op.now else NEVER)
    else if op.OpDelete? then NEVER
    else limit
  }

  lemma ExpiredSeqsSnoc(order: seq<Expiry>, x: Expiry)
    ensures ExpiredSeqs(order + [x]) == ExpiredSeqs(order) + {x.n}
  {
    var all := order + [x];
    assert all[|order|] in all;
    assert forall y :: y in order ==> y in all;
  }

  lemma {:induction false} ExpiresDrop(v: SlotView, id: U32, order: seq<Expiry>, cutoff: I64)
    ensures SlotFrom(v, Expires(id, order), id, cutoff).live == v.live - ExpiredSeqs(order)
  {
    if order != [] {
      var k := |order| - 1;
      ExpiresDrop(v, id, order[..k], cutoff);
      var all := Expires(id, order);
      assert all[..|all| - 1] == Expires(id, order[..k]);
      assert order == order[..k] + [order[k]];
      ExpiredSeqsSnoc(order[..k], order[k]);
    }
  }

  lemma DropKeysLive(s: Slot, gone: set<U64>)
    ensures DropKeys(s, gone).live == s.live - gone && DropKeys(s, gone).live.Keys == s.live.Keys - gone
    ensures DropKeys(s, gone).tombed == s.tombed && DropKeys(s, gone).maxSeq == s.maxSeq
  {
    if s.live.Keys * gone == {} {
      assert s.live.Keys == (s.live.Keys - gone) + s.live.Keys * gone;
    }
  }

  lemma AppendedOne(v: SlotView, r: Rec, id: U32, cutoff: I64)
    ensures SlotFrom(v, [r], id, cutoff) == StepSlot(v, r, id, cutoff)
  {
    assert [r][..0] == [];
  }

  // What one step with its records does to the two.
  ghost predicate StepOk(s: Slot, v: SlotView, op: SlotOp, cap: nat, id: U32, floor: int, limit: int, cutoff: I64) {
    var s', v' := Apply(s, op, cap), SlotFrom(v, Appends(s, op, id), id, cutoff);
    Holds(s', v', FloorAfter(s, op, floor), LimitAfter(s, op, limit), cutoff)
  }

  ghost predicate StepExact(s: Slot, v: SlotView, op: SlotOp, cap: nat, id: U32, exact: bool) {
    ExactAfter(s, op, cap, exact) ==> Exact(Apply(s, op, cap), SlotFrom(v, Appends(s, op, id), id, 0))
  }

  lemma CheckHolds(s: Slot, v: SlotView, n: U64, now: I64, cap: nat, id: U32, floor: int, limit: int, cutoff: I64)
    requires Holds(s, v, floor, limit, cutoff)
    ensures StepOk(s, v, OpCheck(n, now), cap, id, floor, limit, cutoff)
  {
    if !s.tombed && n !in s.live {
      AppendedOne(v, SeqOp(Record, id, AsU64(now), n), id, cutoff);
    }
  }

  lemma DropHolds(s: Slot, v: SlotView, v': SlotView, gone: set<U64>, floor: int, limit: int, cutoff: I64)
    requires Holds(s, v, floor, limit, cutoff) && v.live.Keys - gone <= v'.live.Keys
    ensures Holds(DropKeys(s, gone), v', floor, limit, cutoff)
  {
    DropKeysLive(s, gone);
  }

  lemma SnapshotReplaces(s: Slot, v: SlotView, now: I64, id: U32, cutoff: I64)
    requires s.live != map[]
    ensures var live := SlotFrom(v, [SnapshotRec(s, id, AsU64(now))], id, cutoff).live;
            live.Keys == if Expired(AsU64(now), cutoff) then {} else s.live.Keys
  {
    var keys := s.live.Keys;
    AppendedOne(v, SnapshotRec(s, id, AsU64(now)), id, cutoff);
    assert forall n: U64 :: n in Asc64(keys) <==> n in keys;
  }

  lemma RestampedHolds(s: Slot, v: SlotView, now: I64, cutoff: I64)
    requires !Expired(AsU64(now), cutoff) ==> s.live.Keys <= v.live.Keys
    ensures Holds(s, v, BEGINNING, if Ahead(s, now) then now else NEVER, cutoff)
  {
  }

  // With any cutoff, every step keeps what the log owes memory.
  lemma StepStaysHeld(s: Slot, v: SlotView, op: SlotOp, cap: nat, id: U32, floor: int, limit: int, cutoff: I64)
    requires Holds(s, v, floor, limit, cutoff) && Allowed(s, op)
    ensures StepOk(s, v, op, cap, id, floor, limit, cutoff)
  {
    match op
    case OpCheck(n, now) => CheckHolds(s, v, n, now, cap, id, floor, limit, cutoff);
    case OpConfirm(n, now) => AppendedOne(v, SeqOp(Confirm, id, AsU64(now), n), id, cutoff);
    case OpConfirmTo(n, now) =>
      var r := SeqOp(ConfirmUpTo, id, AsU64(now), n);
      AppendedOne(v, r, id, cutoff);
      ConfirmedHolds(s, v, SlotFrom(v, [r], id, cutoff), n, floor, limit, cutoff);
    case OpSweep(c, order) =>
      ExpiresDrop(v, id, order, cutoff);
      DropHolds(s, v, SlotFrom(v, Expires(id, order), id, cutoff), OlderThan(s, c), floor, limit, cutoff);
    case OpSnapshot(now) =>
      if s.live != map[] {
        SnapshotReplaces(s, v, now, id, cutoff);
        RestampedHolds(s, SlotFrom(v, [SnapshotRec(s, id, AsU64(now))], id, cutoff), now, cutoff);
      }
    case OpDelete(now) => AppendedOne(v, Tombstone(id, AsU64(now)), id, cutoff);
  }

  lemma ConfirmedHolds(s: Slot, v: SlotView, v': SlotView, n: U64, floor: int, limit: int, cutoff: I64)
    requires Holds(s, v, floor, limit, cutoff) && v'.live == DropUpTo(v.live, n)
    ensures Holds(ConfirmTo(s, n).1, v', floor, limit, cutoff)
  {
    DropKeysLive(s, AtMost(s, n));
  }

  lemma CheckExact(s: Slot, v: SlotView, n: U64, now: I64, cap: nat, id: U32, exact: bool)
    requires exact ==> Exact(s, v)
    ensures StepExact(s, v, OpCheck(n, now), cap, id, exact)
  {
    if !s.tombed && n !in s.live {
      AppendedOne(v, SeqOp(Record, id, AsU64(now), n), id, 0);
    }
  }

  lemma DropExact(s: Slot, v: SlotView, v': SlotView, gone: set<U64>)
    requires Exact(s, v) && v'.live.Keys <= v.live.Keys - gone
    ensures Exact(DropKeys(s, gone), v')
  {
    DropKeysLive(s, gone);
  }

  lemma UpToExact(s: Slot, v: SlotView, v': SlotView, n: U64)
    requires Exact(s, v) && v'.live == DropUpTo(v.live, n)
    ensures Exact(ConfirmTo(s, n).1, v')
  {
    DropExact(s, v, v', AtMost(s, n));
  }

  // And nothing more is in the log, if nothing was and no live seq is evicted.
  lemma StepStaysExact(s: Slot, v: SlotView, op: SlotOp, cap: nat, id: U32, exact: bool)
    requires (exact ==> Exact(s, v)) && Allowed(s, op)
    ensures StepExact(s, v, op, cap, id, exact)
  {
    match op
    case OpCheck(n, now) => CheckExact(s, v, n, now, cap, id, exact);
    case OpConfirm(n, now) => AppendedOne(v, SeqOp(Confirm, id, AsU64(now), n), id, 0);
    case OpConfirmTo(n, now) =>
      var r := SeqOp(ConfirmUpTo, id, AsU64(now), n);
      AppendedOne(v, r, id, 0);
      if exact {
        UpToExact(s, v, SlotFrom(v, [r], id, 0), n);
      }
    case OpSweep(c, order) =>
      ExpiresDrop(v, id, order, 0);
      if exact {
        DropExact(s, v, SlotFrom(v, Expires(id, order), id, 0), OlderThan(s, c));
      }
    case OpSnapshot(now) =>
      if s.live != map[] {
        SnapshotReplaces(s, v, now, id, 0);
      }
    case OpDelete(now) => AppendedOne(v, Tombstone(id, AsU64(now)), id, 0);
  }

  predicate RunExact(ops: seq<SlotOp>, cap: nat) {
    ops == []
    || ExactAfter(Run(NEW_SLOT, ops[..|ops| - 1], cap), ops[|ops| - 1], cap, RunExact(ops[..|ops| - 1], cap))
  }

  // The latest cutoff a run leaves nothing to fear from.
  function RunLimit(ops: seq<SlotOp>, cap: nat): int {
    if ops == [] then NEVER
    else LimitAfter(Run(NEW_SLOT, ops[..|ops| - 1], cap), ops[|ops| - 1], RunLimit(ops[..|ops| - 1], cap))
  }

  lemma {:induction false} RunStaysHeld(ops: seq<SlotOp>, cap: nat, id: U32, cutoff: I64)
    requires RunAllowed(NEW_SLOT, ops, cap)
    ensures Holds(Run(NEW_SLOT, ops, cap), SlotOf(RunLog(NEW_SLOT, ops, cap, id), id, cutoff), BEGINNING,
                  RunLimit(ops, cap), cutoff)
  {
    if ops != [] {
      var k := |ops| - 1;
      var s := Run(NEW_SLOT, ops[..k], cap);
      var log := RunLog(NEW_SLOT, ops[..k], cap, id);
      RunStaysHeld(ops[..k], cap, id, cutoff);
      StepStaysHeld(s, SlotOf(log, id, cutoff), ops[k], cap, id, BEGINNING, RunLimit(ops[..k], cap), cutoff);
      SlotFromAppend(NO_SLOT, log, Appends(s, ops[k], id), id, cutoff);
    }
  }

  lemma {:induction false} RunStaysExact(ops: seq<SlotOp>, cap: nat, id: U32)
    requires RunAllowed(NEW_SLOT, ops, cap)
    ensures RunExact(ops, cap) ==> Exact(Run(NEW_SLOT, ops, cap), SlotOf(RunLog(NEW_SLOT, ops, cap, id), id, 0))
  {
    if ops != [] {
      var k := |ops| - 1;
      var s := Run(NEW_SLOT, ops[..k], cap);
      var log := RunLog(NEW_SLOT, ops[..k], cap, id);
      RunStaysExact(ops[..k], cap, id);
      StepStaysExact(s, SlotOf(log, id, 0), ops[k], cap, id, RunExact(ops[..k], cap));
      SlotFromAppend(NO_SLOT, log, Appends(s, ops[k], id), id, 0);
    }
  }

  function WithoutRegisters(rs: seq<Rec>): seq<Rec> {
    if rs == [] then []
    else WithoutRegisters(rs[..|rs| - 1]) + (if rs[|rs| - 1].Register? then [] else [rs[|rs| - 1]])
  }

  lemma {:induction false} RegistersHoldNoSeqs(rs: seq<Rec>, id: U32, cutoff: I64)
    ensures SlotOf(rs, id, cutoff).live == SlotOf(WithoutRegisters(rs), id, cutoff).live
  {
    if rs != [] {
      var k := |rs| - 1;
      RegistersHoldNoSeqs(rs[..k], id, cutoff);
      if !rs[k].Register? {
        SlotOfSnoc(WithoutRegisters(rs[..k]), rs[k], id, cutoff);
      } else {
        assert WithoutRegisters(rs) == WithoutRegisters(rs[..k]);
      }
    }
  }

  // After any run of a slot, in any log where that slot's records appear in
  // order among those of other slots, with its Register anywhere: what memory
  // holds is held by the log, and by nothing more unless an eviction dropped a
  // live seq and no snapshot followed. With a cutoff, what is not older than it
  // is held, unless the cutoff is past a snapshot of the slot that was dated
  // before one of its seqs.
  lemma MemoryWithinLog(ops: seq<SlotOp>, cap: nat, id: U32, log: seq<Rec>, cutoff: I64)
    requires RunAllowed(NEW_SLOT, ops, cap)
    requires WithoutRegisters(Project(log, id)) == RunLog(NEW_SLOT, ops, cap, id)
    ensures var s, v := Run(NEW_SLOT, ops, cap), SlotOf(log, id, 0);
            s.live.Keys <= v.live.Keys && (RunExact(ops, cap) ==> s.live.Keys == v.live.Keys)
    ensures Holds(Run(NEW_SLOT, ops, cap), SlotOf(log, id, cutoff), BEGINNING, RunLimit(ops, cap), cutoff)
  {
    LogOfRun(ops, cap, id, log, 0);
    RunStaysHeld(ops, cap, id, 0);
    RunStaysExact(ops, cap, id);
    LogOfRun(ops, cap, id, log, cutoff);
    RunStaysHeld(ops, cap, id, cutoff);
    var s := Run(NEW_SLOT, ops, cap);
    assert forall n :: n in s.live ==> Owed(s.live[n], BEGINNING, RunLimit(ops, cap), 0);
  }

  lemma LogOfRun(ops: seq<SlotOp>, cap: nat, id: U32, log: seq<Rec>, cutoff: I64)
    requires WithoutRegisters(Project(log, id)) == RunLog(NEW_SLOT, ops, cap, id)
    ensures SlotOf(log, id, cutoff).live == SlotOf(RunLog(NEW_SLOT, ops, cap, id), id, cutoff).live
  {
    RegistersHoldNoSeqs(Project(log, id), id, cutoff);
    SlotDependsOnItsRecords(log, id, cutoff);
  }

  // ---- The queue covers the set ----

  predicate Covered(s: Slot) {
    s.live.Keys <= Elems(s.fifo)
  }

  lemma ElemsSnoc(q: seq<U64>, n: U64)
    ensures Elems(q + [n]) == Elems(q) + {n}
  {
  }

  lemma {:induction false} KeptElems(q: seq<U64>, keys: set<U64>)
    ensures Elems(Kept(q, keys)) == Elems(q) * keys
    ensures |Kept(q, keys)| <= |q|
  {
    if q != [] {
      var k := |q| - 1;
      KeptElems(q[..k], keys);
      ElemsSnoc(Kept(q[..k], keys), q[k]);
      ElemsSnoc(q[..k], q[k]);
      assert q == q[..k] + [q[k]];
      assert (Elems(q[..k]) + {q[k]}) * keys == Elems(q[..k]) * keys + (if q[k] in keys then {q[k]} else {});
      assert q[k] !in keys ==> Kept(q, keys) == Kept(q[..k], keys);
    }
  }

  // Exactly the entries still live are kept, each as often as it was there, in
  // the order they were in.
  lemma {:induction false} KeptOfParts(a: seq<U64>, b: seq<U64>, keys: set<U64>)
    ensures Kept(a + b, keys) == Kept(a, keys) + Kept(b, keys)
    ensures |b| == 1 ==> Kept(b, keys) == if b[0] in keys then b else []
    decreases |b|
  {
    if b == [] {
      assert a + b == a;
    } else {
      var k := |b| - 1;
      assert (a + b)[..|a + b| - 1] == a + b[..k];
      KeptOfParts(a, b[..k], keys);
    }
  }

  lemma SplitElems(q: seq<U64>, k: nat)
    requires k <= |q|
    ensures Elems(q) == Elems(q[..k]) + Elems(q[k..])
  {
    assert q == q[..k] + q[k..];
  }

  lemma DropKeysCovered(s: Slot, gone: set<U64>)
    requires Covered(s)
    ensures Covered(DropKeys(s, gone)) && |DropKeys(s, gone).fifo| <= |s.fifo|
  {
    KeptElems(s.fifo, (s.live - gone).Keys);
  }

  lemma InsertCovered(s: Slot, n: U64, now: I64, cap: nat)
    requires Covered(s)
    ensures Covered(Insert(s, n, now, cap)) && |Insert(s, n, now, cap).fifo| <= cap
  {
    var q := s.fifo + [n];
    SplitElems(q, Overflow(q, cap));
    assert Elems(q) == Elems(s.fifo) + {n};
  }

  lemma ApplyCovered(s: Slot, op: SlotOp, cap: nat)
    requires Covered(s)
    ensures Covered(Apply(s, op, cap))
    ensures |Apply(s, op, cap).fifo| <= |s.fifo| || |Apply(s, op, cap).fifo| <= cap
  {
    match op
    case OpCheck(n, now) => if !s.tombed && n !in s.live { InsertCovered(s, n, now, cap); }
    case OpConfirmTo(n, _) => DropKeysCovered(s, AtMost(s, n));
    case OpSweep(cutoff, _) => DropKeysCovered(s, OlderThan(s, cutoff));
    case _ =>
  }

  lemma {:induction false} ElemsCard(q: seq<U64>)
    ensures |Elems(q)| <= |q|
  {
    if q != [] {
      ElemsCard(q[..|q| - 1]);
      assert q == q[..|q| - 1] + [q[|q| - 1]];
      assert Elems(q) == Elems(q[..|q| - 1]) + {q[|q| - 1]};
    }
  }

  lemma CoveredCard(s: Slot)
    requires Covered(s)
    ensures |s.live| <= |s.fifo|
  {
    ElemsCard(s.fifo);
    var rest := Elems(s.fifo) - s.live.Keys;
    assert Elems(s.fifo) == s.live.Keys + rest;
    assert |s.live.Keys| == |s.live|;
  }

  // In every run the live seqs are all queued, and a slot that started empty
  // never holds more than its capacity.
  lemma {:induction false} RunBounded(ops: seq<SlotOp>, cap: nat)
    ensures var s := Run(NEW_SLOT, ops, cap); Covered(s) && |s.live| <= |s.fifo| <= cap
  {
    if ops != [] {
      var s := Run(NEW_SLOT, ops[..|ops| - 1], cap);
      RunBounded(ops[..|ops| - 1], cap);
      ApplyCovered(s, ops[|ops| - 1], cap);
    }
    CoveredCard(Run(NEW_SLOT, ops, cap));
  }

  // A recorded seq survives its own insertion exactly when no dead copy of it
  // is among the entries evicted to make room.
  lemma InsertedSurvivesIff(s: Slot, n: U64, now: I64, cap: nat)
    requires cap > 0
    ensures n in Insert(s, n, now, cap).live <==> n !in s.fifo[..Overflow(s.fifo + [n], cap)]
  {
    var q := s.fifo + [n];
    assert q[..Overflow(q, cap)] == s.fifo[..Overflow(q, cap)];
  }

  // ---- The gate and the set ----

  ghost predicate GateExact(s: Slot) {
    forall n: U64 :: Seen(s, n) <==> n in s.live
  }

  predicate GateOpen(s: Slot) {
    forall n :: n in s.live ==> s.maxSeq > 0 && s.minSeq <= n <= s.maxSeq
  }

  lemma GateExactIffOpen(s: Slot)
    ensures GateExact(s) <==> GateOpen(s)
  {
    if GateExact(s) {
      forall n | n in s.live
        ensures s.maxSeq > 0 && s.minSeq <= n <= s.maxSeq
      {
        assert Seen(s, n);
      }
    }
  }

  // The gate stays exact across an insertion exactly when the entry left at
  // the head of the queue is not above any live seq, and a maximum is known.
  lemma GateAfterInsertIff(s: Slot, n: U64, now: I64, cap: nat)
    requires GateExact(s) && cap > 0
    ensures var q := s.fifo + [n];
            var k := Overflow(q, cap);
            var left := s.live.Keys + {n} - Elems(q[..k]);
            GateExact(Insert(s, n, now, cap))
            <==> (forall x :: x in left ==> q[k] <= x && (n > 0 || s.maxSeq > 0))
  {
    var s' := Insert(s, n, now, cap);
    GateExactIffOpen(s);
    GateExactIffOpen(s');
    var q := s.fifo + [n];
    var k := Overflow(q, cap);
    assert s'.live.Keys == s.live.Keys + {n} - Elems(q[..k]);
    assert s'.minSeq == q[k];
    assert forall x :: x in s'.live ==> x <= s'.maxSeq;
  }

  // Recording 50 and then 10 leaves 10 in the set and outside the gate.
  lemma OutOfOrderHidesSeq(now: I64)
    ensures var s := Insert(Insert(NEW_SLOT, 50, now, 100), 10, now, 100);
            10 in s.live && Fresh(s, 10) && !Seen(s, 10)
  {
  }

  predicate Rising(q: seq<U64>) {
    Ascending(q) && (forall i :: 0 <= i < |q| ==> q[i] > 0)
  }

  // What keeps the gate exact: a rising queue that covers the set, with the
  // bounds around it.
  predicate InOrder(s: Slot) {
    && Covered(s) && Rising(s.fifo)
    && (forall i :: 0 <= i < |s.fifo| ==> s.fifo[i] <= s.maxSeq)
    && (s.live != map[] ==> s.minSeq <= s.fifo[0])
  }

  // Each newly inserted seq is positive and above everything queued.
  predicate InsertsUpwards(s: Slot, op: SlotOp) {
    op.OpCheck? && !s.tombed && op.n !in s.live ==>
      op.n > 0 && forall i :: 0 <= i < |s.fifo| ==> s.fifo[i] < op.n
  }

  lemma InOrderGate(s: Slot)
    requires InOrder(s)
    ensures GateExact(s)
  {
    forall n | n in s.live
      ensures s.maxSeq > 0 && s.minSeq <= n <= s.maxSeq
    {
      assert n in Elems(s.fifo);
      var i :| 0 <= i < |s.fifo| && s.fifo[i] == n;
      assert s.fifo[0] <= s.fifo[i];
    }
    GateExactIffOpen(s);
  }

  lemma RisingSnoc(q: seq<U64>, n: U64, hi: U64)
    requires Rising(q) && (forall i :: 0 <= i < |q| ==> q[i] < n) && 0 < n <= hi
    requires MinOf(q) == if q == [] then 0 else q[0]
    ensures Rising(q + [n]) && (forall i :: 0 <= i < |q + [n]| ==> (q + [n])[i] <= hi)
    ensures MinOf(q + [n]) == (q + [n])[0]
  {
    assert (q + [n])[..|q|] == q;
  }

  lemma {:induction false} KeptRising(q: seq<U64>, keys: set<U64>, hi: U64)
    requires Rising(q) && forall i :: 0 <= i < |q| ==> q[i] <= hi
    ensures Rising(Kept(q, keys))
    ensures forall i :: 0 <= i < |Kept(q, keys)| ==> Kept(q, keys)[i] <= hi
    ensures MinOf(Kept(q, keys)) == if Kept(q, keys) == [] then 0 else Kept(q, keys)[0]
    decreases |q|
  {
    if q != [] {
      var k := |q| - 1;
      assert forall i :: 0 <= i < k ==> q[..k][i] == q[i] && q[i] < q[k];
      KeptRising(q[..k], keys, q[k] - 1);
      if q[k] in keys {
        RisingSnoc(Kept(q[..k], keys), q[k], hi);
      } else {
        assert Kept(q, keys) == Kept(q[..k], keys);
      }
    }
  }

  lemma DropKeysInOrder(s: Slot, gone: set<U64>)
    requires InOrder(s)
    ensures InOrder(DropKeys(s, gone))
  {
    DropKeysCovered(s, gone);
    KeptRising(s.fifo, (s.live - gone).Keys, s.maxSeq);
    KeptElems(s.fifo, (s.live - gone).Keys);
  }

  lemma InsertInOrder(s: Slot, n: U64, now: I64, cap: nat)
    requires InOrder(s) && cap > 0 && n > 0
    requires forall i :: 0 <= i < |s.fifo| ==> s.fifo[i] < n
    ensures InOrder(Insert(s, n, now, cap))
  {
    InsertCovered(s, n, now, cap);
  }

  lemma ApplyInOrder(s: Slot, op: SlotOp, cap: nat)
    requires InOrder(s) && InsertsUpwards(s, op) && cap > 0
    ensures InOrder(Apply(s, op, cap))
  {
    match op
    case OpCheck(n, now) => if !s.tombed && n !in s.live { InsertInOrder(s, n, now, cap); }
    case OpConfirmTo(n, _) => DropKeysInOrder(s, AtMost(s, n));
    case OpSweep(cutoff, _) => DropKeysInOrder(s, OlderThan(s, cutoff));
    case _ =>
  }

  predicate RunUpwards(s: Slot, ops: seq<SlotOp>, cap: nat) {
    ops == []
    || (RunUpwards(s, ops[..|ops| - 1], cap) && InsertsUpwards(Run(s, ops[..|ops| - 1], cap), ops[|ops| - 1]))
  }

  // While seqs arrive in ascending order the gate answers exactly as the set
  // does, through evictions, confirmations and expiry.
  lemma {:induction false} GateExactOverRuns(s: Slot, ops: seq<SlotOp>, cap: nat)
    requires InOrder(s) && RunUpwards(s, ops, cap) && cap > 0
    ensures InOrder(Run(s, ops, cap)) && GateExact(Run(s, ops, cap))
  {
    if ops != [] {
      GateExactOverRuns(s, ops[..|ops| - 1], cap);
      ApplyInOrder(Run(s, ops[..|ops| - 1], cap), ops[|ops| - 1], cap);
    }
    InOrderGate(Run(s, ops, cap));
  }

  // ---- How the gate recovers ----

  predicate EndsInZero(q: seq<U64>) {
    q != [] && q[|q| - 1] == 0
  }

  lemma {:induction false} MinOfIsLeast(q: seq<U64>)
    requires q != []
    ensures MinOf(q) == 0 <==> q[|q| - 1] == 0
    ensures 0 !in q ==> MinOf(q) in q && forall n :: n in q ==> MinOf(q) <= n
  {
    var k := |q| - 1;
    assert q == q[..k] + [q[k]];
    if q[..k] != [] {
      MinOfIsLeast(q[..k]);
      assert q[..k][k - 1] == q[k - 1];
    }
  }

  // The least of the queue, as the code finds it, bounds it from below exactly
  // if seq 0 is not queued or is the last entry: a 0 passed over starts the
  // search anew.
  lemma MinOfBoundsIff(q: seq<U64>)
    requires q != []
    ensures (forall n :: n in q ==> MinOf(q) <= n) <==> (0 in q ==> EndsInZero(q))
  {
    MinOfIsLeast(q);
  }

  predicate Topped(s: Slot) {
    forall n :: n in s.live ==> s.maxSeq > 0 && n <= s.maxSeq
  }

  predicate BelowMax(s: Slot) {
    forall n :: n in s.live ==> n <= s.maxSeq
  }

  // Dropping live seqs, by a cursor or by expiry, makes the gate exact whatever
  // it was before, exactly if every seq left is within the maximum and a seq 0
  // that is left is the last in the queue.
  lemma GateAfterDropIff(s: Slot, gone: set<U64>)
    requires Covered(s) && s.live.Keys * gone != {}
    ensures var s' := DropKeys(s, gone);
            GateExact(s') <==> Topped(s') && (0 in s'.live ==> EndsInZero(s'.fifo))
  {
    var s' := DropKeys(s, gone);
    DropKeysCovered(s, gone);
    KeptElems(s.fifo, (s.live - gone).Keys);
    GateExactIffOpen(s');
    assert s.fifo != [] by {
      var n :| n in s.live.Keys * gone;
      assert n in Elems(s.fifo);
    }
    assert Elems(s'.fifo) == s'.live.Keys && s'.minSeq == MinOf(s'.fifo);
    assert forall n :: n in s'.fifo <==> n in s'.live by {
      assert forall n :: n in s'.fifo <==> n in Elems(s'.fifo);
    }
    if s'.fifo != [] {
      MinOfBoundsIff(s'.fifo);
    }
  }

  lemma ApplyBelowMax(s: Slot, op: SlotOp, cap: nat)
    requires BelowMax(s)
    ensures BelowMax(Apply(s, op, cap))
  {
    if op.OpConfirmTo? {
      DropKeysLive(s, AtMost(s, op.n));
    } else if op.OpSweep? {
      DropKeysLive(s, OlderThan(s, op.cutoff));
    }
  }

  lemma {:induction false} RunBelowMax(ops: seq<SlotOp>, cap: nat)
    ensures BelowMax(Run(NEW_SLOT, ops, cap))
  {
    if ops != [] {
      RunBelowMax(ops[..|ops| - 1], cap);
      ApplyBelowMax(Run(NEW_SLOT, ops[..|ops| - 1], cap), ops[|ops| - 1], cap);
    }
  }

  lemma DropHeals(s: Slot, gone: set<U64>)
    requires Covered(s) && BelowMax(s) && s.live.Keys * gone != {}
    ensures 0 !in DropKeys(s, gone).live ==> GateExact(DropKeys(s, gone))
  {
    DropKeysLive(s, gone);
    GateAfterDropIff(s, gone);
  }

  // So in every run, in whatever order seqs came, a cursor or a sweep that
  // drops anything leaves the gate exact if it does not leave seq 0.
  lemma DropHealsGate(ops: seq<SlotOp>, cap: nat, gone: set<U64>)
    requires Run(NEW_SLOT, ops, cap).live.Keys * gone != {}
    ensures var s' := DropKeys(Run(NEW_SLOT, ops, cap), gone); 0 !in s'.live ==> GateExact(s')
  {
    RunBounded(ops, cap);
    RunBelowMax(ops, cap);
    DropHeals(Run(NEW_SLOT, ops, cap), gone);
  }

  // ---- A slot as replay leaves it ----

  ghost function Rebuilt(live: Live): Slot {
    var q := Asc64(live.Keys);
    if q == [] then Slot(live, q, 0, 0, false) else Slot(live, q, q[0], q[|q| - 1], false)
  }

  // Directly after replay the gate is exact for every positive seq, in whatever
  // order they were recorded.
  lemma GateAfterReplay(live: Live, n: U64)
    requires n > 0
    ensures Seen(Rebuilt(live), n) <==> n in live
  {
    var q := Asc64(live.Keys);
    assert n in q <==> n in live.Keys;
    if n in live {
      var i :| 0 <= i < |q| && q[i] == n;
    }
  }

  lemma AscElems(keys: set<U64>)
    ensures Elems(Asc64(keys)) == keys
  {
    forall x: U64
      ensures x in Elems(Asc64(keys)) <==> x in keys
    {
      assert x in Asc64(keys) <==> x in keys;
    }
  }

  // Unless seq 0 was recorded, later runs may start from there.
  lemma RebuiltInOrder(live: Live)
    requires 0 !in live
    ensures InOrder(Rebuilt(live))
  {
    var q := Asc64(live.Keys);
    AscElems(live.Keys);
    assert forall i :: 0 <= i < |q| ==> q[i] in Elems(q);
    assert Rising(q);
  }

  // The gate stays exact after a restart while seqs go on arriving in order.
  lemma GateExactAfterReplay(live: Live, ops: seq<SlotOp>, cap: nat)
    requires 0 !in live && RunUpwards(Rebuilt(live), ops, cap) && cap > 0
    ensures GateExact(Run(Rebuilt(live), ops, cap))
  {
    RebuiltInOrder(live);
    GateExactOverRuns(Rebuilt(live), ops, cap);
  }

  // ---- Two stores, one set ----

  // The in-memory store's slot: confirming up to a cursor leaves its queue as
  // it is and finds the minimum in the set itself.
  ghost function MemConfirmTo(s: Slot, cursor: U64): (nat, Slot) {
    var gone := AtMost(s, cursor);
    var live := s.live - gone;
    (|gone|, if gone == {} then s else s.(live := live, minSeq := MinOfSet(live.Keys)))
  }

  ghost function MinOfSet(keys: set<U64>): U64 {
    if keys == {} then 0 else Least(keys)
  }

  datatype SetOp = Check(n: U64, now: I64) | ConfirmSeq(n: U64) | ConfirmCursor(n: U64)
  datatype Answer = IsNew(new': bool) | Nothing | Removed(count: nat)

  function WalStep(s: Slot, op: SetOp, cap: nat): (Answer, Slot) {
    match op
    case Check(n, now) => var (b, s') := CheckRecord(s, n, now, cap); (IsNew(b), s')
    case ConfirmSeq(n) => (Nothing, ConfirmOne(s, n))
    case ConfirmCursor(n) => var (k, s') := ConfirmTo(s, n); (Removed(k), s')
  }

  ghost function MemStep(s: Slot, op: SetOp, cap: nat): (Answer, Slot) {
    match op
    case Check(n, now) => var (b, s') := CheckRecord(s, n, now, cap); (IsNew(b), s')
    case ConfirmSeq(n) => (Nothing, ConfirmOne(s, n))
    case ConfirmCursor(n) => var (k, s') := MemConfirmTo(s, n); (Removed(k), s')
  }

  // The plain set both stand for.
  function SetStep(s: set<U64>, op: SetOp): (Answer, set<U64>) {
    match op
    case Check(n, _) => (IsNew(n !in s), s + {n})
    case ConfirmSeq(n) => (Nothing, s - {n})
    case ConfirmCursor(n) =>
      var gone := set x | x in s && x <= n;
      (Removed(|gone|), s - gone)
  }

  function WalRun(ops: seq<SetOp>, cap: nat): (seq<Answer>, Slot) {
    if ops == [] then ([], NEW_SLOT)
    else
      var (sofar, s) := WalRun(ops[..|ops| - 1], cap);
      var (a, s') := WalStep(s, ops[|ops| - 1], cap);
      (sofar + [a], s')
  }

  ghost function MemRun(ops: seq<SetOp>, cap: nat): (seq<Answer>, Slot) {
    if ops == [] then ([], NEW_SLOT)
    else
      var (sofar, s) := MemRun(ops[..|ops| - 1], cap);
      var (a, s') := MemStep(s, ops[|ops| - 1], cap);
      (sofar + [a], s')
  }

  function SetRun(ops: seq<SetOp>): (seq<Answer>, set<U64>) {
    if ops == [] then ([], {})
    else
      var (sofar, s) := SetRun(ops[..|ops| - 1]);
      var (a, s') := SetStep(s, ops[|ops| - 1]);
      (sofar + [a], s')
  }

  // The live seqs that making room for a new one takes, itself included.
  ghost function EvictedLive(s: Slot, n: U64, cap: nat): set<U64> {
    (s.live.Keys + {n}) * Elems((s.fifo + [n])[..Overflow(s.fifo + [n], cap)])
  }

  ghost predicate EvictsLive(s: Slot, n: U64, cap: nat) {
    EvictedLive(s, n, cap) != {}
  }

  lemma InsertKeys(s: Slot, n: U64, now: I64, cap: nat)
    ensures Insert(s, n, now, cap).live.Keys == s.live.Keys + {n} - EvictedLive(s, n, cap)
    ensures Insert(s, n, now, cap).tombed == s.tombed
  {
    var gone := Elems((s.fifo + [n])[..Overflow(s.fifo + [n], cap)]);
    assert Insert(s, n, now, cap).live.Keys == s.live.Keys + {n} - gone;
  }

  lemma PartsIff(all: set<U64>, a: set<U64>, b: set<U64>)
    requires a <= all && b <= all
    ensures all - a == all - b <==> a == b
  {
    assert a == all - (all - a) && b == all - (all - b);
  }

  lemma InsertKeepsIff(s: Slot, n: U64, now: I64, cap: nat)
    ensures Insert(s, n, now, cap).live.Keys == s.live.Keys + {n} <==> !EvictsLive(s, n, cap)
  {
    var all := s.live.Keys + {n};
    InsertKeys(s, n, now, cap);
    PartsIff(all, EvictedLive(s, n, cap), {});
    assert all - {} == all;
  }

  // The step evicts no live seq.
  ghost predicate KeepsLive(s: Slot, op: SetOp, cap: nat) {
    op.Check? && op.n !in s.live ==> !EvictsLive(s, op.n, cap)
  }

  ghost predicate WalKeepsLive(ops: seq<SetOp>, cap: nat) {
    ops == []
    || (WalKeepsLive(ops[..|ops| - 1], cap) && KeepsLive(WalRun(ops[..|ops| - 1], cap).1, ops[|ops| - 1], cap))
  }

  ghost predicate MemKeepsLive(ops: seq<SetOp>, cap: nat) {
    ops == []
    || (MemKeepsLive(ops[..|ops| - 1], cap) && KeepsLive(MemRun(ops[..|ops| - 1], cap).1, ops[|ops| - 1], cap))
  }

  lemma ConfirmToAgrees(s: Slot, n: U64)
    ensures var gone := set x | x in s.live.Keys && x <= n;
            && ConfirmTo(s, n).0 == |gone| == MemConfirmTo(s, n).0
            && ConfirmTo(s, n).1.live.Keys == s.live.Keys - gone == MemConfirmTo(s, n).1.live.Keys
            && ConfirmTo(s, n).1.tombed == s.tombed == MemConfirmTo(s, n).1.tombed
            && |ConfirmTo(s, n).1.fifo| <= |s.fifo| == |MemConfirmTo(s, n).1.fifo|
  {
    var gone := set x | x in s.live.Keys && x <= n;
    assert AtMost(s, n) == gone;
    DropKeysLive(s, gone);
    KeptElems(s.fifo, (s.live - gone).Keys);
  }

  lemma CheckIff(s: Slot, keys: set<U64>, n: U64, now: I64, cap: nat)
    requires s.live.Keys == keys && !s.tombed
    ensures var op := Check(n, now);
            var (b, s') := CheckRecord(s, n, now, cap);
            && IsNew(b) == SetStep(keys, op).0 && !s'.tombed
            && (s'.live.Keys == SetStep(keys, op).1 <==> KeepsLive(s, op, cap))
  {
    if n in keys {
      assert keys + {n} == keys;
    } else {
      InsertKeys(s, n, now, cap);
      InsertKeepsIff(s, n, now, cap);
    }
  }

  // A step that starts from the same set answers as the set does, and ends in
  // the same set exactly if it evicts no live seq.
  lemma StepIff(s: Slot, keys: set<U64>, op: SetOp, cap: nat)
    requires s.live.Keys == keys && !s.tombed
    ensures WalStep(s, op, cap).0 == SetStep(keys, op).0 == MemStep(s, op, cap).0
    ensures !WalStep(s, op, cap).1.tombed && !MemStep(s, op, cap).1.tombed
    ensures WalStep(s, op, cap).1.live.Keys == SetStep(keys, op).1 <==> KeepsLive(s, op, cap)
    ensures MemStep(s, op, cap).1.live.Keys == SetStep(keys, op).1 <==> KeepsLive(s, op, cap)
  {
    match op
    case Check(n, now) => CheckIff(s, keys, n, now, cap);
    case ConfirmSeq(_) =>
    case ConfirmCursor(n) => ConfirmToAgrees(s, n);
  }

  ghost predicate WalIsSet(ops: seq<SetOp>, cap: nat) {
    WalRun(ops, cap).1.live.Keys == SetRun(ops).1
  }

  ghost predicate MemIsSet(ops: seq<SetOp>, cap: nat) {
    MemRun(ops, cap).1.live.Keys == SetRun(ops).1
  }

  lemma PrefixesSnoc(ops: seq<SetOp>, cap: nat)
    requires ops != []
    ensures var k := |ops| - 1;
            && ((forall j :: 0 <= j <= |ops| ==> WalIsSet(ops[..j], cap))
                <==> (forall j :: 0 <= j <= k ==> WalIsSet(ops[..k][..j], cap)) && WalIsSet(ops, cap))
            && ((forall j :: 0 <= j <= |ops| ==> MemIsSet(ops[..j], cap))
                <==> (forall j :: 0 <= j <= k ==> MemIsSet(ops[..k][..j], cap)) && MemIsSet(ops, cap))
  {
    var k := |ops| - 1;
    assert ops[..|ops|] == ops && forall j :: 0 <= j <= k ==> ops[..k][..j] == ops[..j];
  }

  // The log's slot holds what the plain set holds all along exactly if no step
  // evicts a live seq, and then it has answered every call as the set would.
  lemma {:induction false} WalRefinesSetIff(ops: seq<SetOp>, cap: nat)
    ensures (forall j :: 0 <= j <= |ops| ==> WalIsSet(ops[..j], cap)) <==> WalKeepsLive(ops, cap)
    ensures WalKeepsLive(ops, cap) ==> WalRun(ops, cap).0 == SetRun(ops).0
    ensures !WalRun(ops, cap).1.tombed
  {
    if ops == [] {
      assert ops[..0] == ops;
    } else {
      var k := |ops| - 1;
      var s, keys := WalRun(ops[..k], cap).1, SetRun(ops[..k]).1;
      WalRefinesSetIff(ops[..k], cap);
      PrefixesSnoc(ops, cap);
      WholePrefix(ops[..k], cap);
      WalStaysUp(s, ops[k], cap);
      if s.live.Keys == keys {
        StepIff(s, keys, ops[k], cap);
      }
    }
  }

  lemma WholePrefix(ops: seq<SetOp>, cap: nat)
    ensures (forall j :: 0 <= j <= |ops| ==> WalIsSet(ops[..j], cap)) ==> WalIsSet(ops, cap)
    ensures (forall j :: 0 <= j <= |ops| ==> MemIsSet(ops[..j], cap)) ==> MemIsSet(ops, cap)
  {
    assert ops[..|ops|] == ops;
  }

  lemma WalStaysUp(s: Slot, op: SetOp, cap: nat)
    requires !s.tombed
    ensures !WalStep(s, op, cap).1.tombed && !MemStep(s, op, cap).1.tombed
  {
    if op.ConfirmCursor? {
      ConfirmToAgrees(s, op.n);
    }
  }

  // Likewise the in-memory slot, whose queue confirmations never shorten.
  lemma {:induction false} MemRefinesSetIff(ops: seq<SetOp>, cap: nat)
    ensures (forall j :: 0 <= j <= |ops| ==> MemIsSet(ops[..j], cap)) <==> MemKeepsLive(ops, cap)
    ensures MemKeepsLive(ops, cap) ==> MemRun(ops, cap).0 == SetRun(ops).0
    ensures !MemRun(ops, cap).1.tombed
  {
    if ops == [] {
      assert ops[..0] == ops;
    } else {
      var k := |ops| - 1;
      var s, keys := MemRun(ops[..k], cap).1, SetRun(ops[..k]).1;
      MemRefinesSetIff(ops[..k], cap);
      PrefixesSnoc(ops, cap);
      WholePrefix(ops[..k], cap);
      WalStaysUp(s, ops[k], cap);
      if s.live.Keys == keys {
        StepIff(s, keys, ops[k], cap);
      }
    }
  }

  // While neither evicts a live seq both stores answer every call as the plain
  // set would, and hold exactly what it holds.
  lemma StoresRefineSet(ops: seq<SetOp>, cap: nat)
    requires WalKeepsLive(ops, cap) && MemKeepsLive(ops, cap)
    ensures WalRun(ops, cap).0 == SetRun(ops).0 == MemRun(ops, cap).0
    ensures WalRun(ops, cap).1.live.Keys == SetRun(ops).1 == MemRun(ops, cap).1.live.Keys
  {
    WalRefinesSetIff(ops, cap);
    MemRefinesSetIff(ops, cap);
    WholePrefix(ops, cap);
  }

  // From the same set the two stores' next sets are the same exactly if they
  // evict the same live seqs.
  lemma StoresPartIff(w: Slot, m: Slot, op: SetOp, cap: nat)
    requires w.live.Keys == m.live.Keys && !w.tombed && !m.tombed
    ensures WalStep(w, op, cap).0 == MemStep(m, op, cap).0
    ensures WalStep(w, op, cap).1.live.Keys == MemStep(m, op, cap).1.live.Keys
            <==> (op.Check? && op.n !in w.live ==> EvictedLive(w, op.n, cap) == EvictedLive(m, op.n, cap))
  {
    match op
    case Check(n, now) =>
      if n !in w.live {
        InsertKeys(w, n, now, cap);
        InsertKeys(m, n, now, cap);
        PartsIff(w.live.Keys + {n}, EvictedLive(w, n, cap), EvictedLive(m, n, cap));
      }
    case ConfirmSeq(_) =>
    case ConfirmCursor(n) =>
      ConfirmToAgrees(w, n);
      ConfirmToAgrees(m, n);
      assert (set x | x in w.live.Keys && x <= n) == set x | x in m.live.Keys && x <= n;
  }

  // A queue with room for each new seq evicts nothing. A duplicate needs none.
  predicate HasRoom(s: Slot, op: SetOp, cap: nat) {
    op.Check? && op.n !in s.live ==> |s.fifo| < cap
  }

  ghost predicate NeverEvicts(ops: seq<SetOp>, cap: nat) {
    ops == []
    || (NeverEvicts(ops[..|ops| - 1], cap) && HasRoom(MemRun(ops[..|ops| - 1], cap).1, ops[|ops| - 1], cap))
  }

  lemma RoomStep(w: Slot, m: Slot, op: SetOp, cap: nat)
    requires w.live.Keys == m.live.Keys && |w.fifo| <= |m.fifo| && !w.tombed && !m.tombed && HasRoom(m, op, cap)
    ensures KeepsLive(w, op, cap) && KeepsLive(m, op, cap)
    ensures |WalStep(w, op, cap).1.fifo| <= |MemStep(m, op, cap).1.fifo|
  {
    if op.Check? && op.n !in w.live {
      assert (w.fifo + [op.n])[..0] == [] && (m.fifo + [op.n])[..0] == [];
    } else if op.ConfirmCursor? {
      ConfirmToAgrees(w, op.n);
      ConfirmToAgrees(m, op.n);
    }
  }

  // Room in the in-memory store, which needs it longer, is room in both.
  lemma {:induction false} RoomIsEnough(ops: seq<SetOp>, cap: nat)
    requires NeverEvicts(ops, cap)
    ensures WalKeepsLive(ops, cap) && MemKeepsLive(ops, cap)
    ensures |WalRun(ops, cap).1.fifo| <= |MemRun(ops, cap).1.fifo|
  {
    if ops != [] {
      var k := |ops| - 1;
      RoomIsEnough(ops[..k], cap);
      StoresRefineSet(ops[..k], cap);
      WalRefinesSetIff(ops[..k], cap);
      MemRefinesSetIff(ops[..k], cap);
      RoomStep(WalRun(ops[..k], cap).1, MemRun(ops[..k], cap).1, ops[k], cap);
    }
  }
}
