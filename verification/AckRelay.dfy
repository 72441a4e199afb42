// Acknowledgements that did not reach the wire, kept per consumer until the
// broker confirms them, they expire, or a generation change wipes them.
module AckRelay {
  import opened Bytes
  import opened Sorting

  // One consumer: the deferred seqs with the time each was recorded, and the
  // one time the code keeps for all of them.
  datatype Tier = Tier(generation: U32, born: map<U64, int>, oldest: Option<int>)

  const NO_TIER := Tier(0, map[], None)

  // Every consumer, and what became of the seqs ever deferred.
  datatype Hot = Hot(tiers: map<U32, Tier>, inserted: nat, confirmed: nat, expired: nat, wiped: nat)

  const NO_HOT := Hot(map[], 0, 0, 0, 0)

  function TierOf(h: Hot, c: U32): Tier {
    if c in h.tiers then h.tiers[c] else NO_TIER
  }

  function Pending(h: Hot, c: U32): set<U64> {
    TierOf(h, c).born.Keys
  }

  // ---- One consumer ----

  function TierRecord(t: Tier, n: U64, now: int): Tier {
    if n in t.born then t else t.(born := t.born[n := now], oldest := if t.oldest.None? then Some(now) else t.oldest)
  }

  function TierDrop(t: Tier, gone: set<U64>): Tier {
    var rest := t.born - gone;
    t.(born := rest, oldest := if rest == map[] then None else t.oldest)
  }

  function TierWipe(t: Tier, generation: U32): Tier {
    Tier(generation, map[], None)
  }

  predicate Overdue(t: Tier, cutoff: int) {
    t.oldest.Some? && t.oldest.value < cutoff
  }

  function TierExpire(t: Tier, cutoff: int): Tier {
    if Overdue(t, cutoff) then TierWipe(t, t.generation) else t
  }

  function NextGeneration(g: U32): U32 {
    var n: nat := g;
    (n + 1) % 0x1_0000_0000
  }

  // ---- Operations ----

  function Recorded(h: Hot, c: U32, n: U64, now: int): Hot {
    h.(tiers := h.tiers[c := TierRecord(TierOf(h, c), n, now)],
       inserted := h.inserted + if n in Pending(h, c) then 0 else 1)
  }

  // The broker confirms `gone`, as a list or as everything up to a cursor.
  function Confirmed(h: Hot, c: U32, gone: set<U64>): Hot {
    if c !in h.tiers then h
    else h.(tiers := h.tiers[c := TierDrop(h.tiers[c], gone)], confirmed := h.confirmed + |Pending(h, c) * gone|)
  }

  function UpTo(pending: set<U64>, cursor: U64): set<U64> {
    set n | n in pending && n <= cursor
  }

  function ConfirmedUpTo(h: Hot, c: U32, cursor: U64): Hot {
    Confirmed(h, c, UpTo(Pending(h, c), cursor))
  }

  function Wipe(h: Hot, c: U32, generation: U32): Hot {
    h.(tiers := h.tiers[c := TierWipe(TierOf(h, c), generation)], wiped := h.wiped + |Pending(h, c)|)
  }

  function EnsuredGeneration(h: Hot, c: U32, generation: U32): Hot {
    if TierOf(h, c).generation != generation then Wipe(h, c, generation)
    else h.(tiers := h.tiers[c := TierOf(h, c)])
  }

  function Bumped(h: Hot, c: U32): Hot {
    Wipe(h, c, NextGeneration(TierOf(h, c).generation))
  }

  function Expire(h: Hot, c: U32, cutoff: int): Hot {
    if c in h.tiers && Overdue(h.tiers[c], cutoff)
    then h.(tiers := h.tiers[c := TierExpire(h.tiers[c], cutoff)], expired := h.expired + |Pending(h, c)|)
    else h
  }

  datatype Op =
    | OpRecord(c: U32, n: U64, now: int)
    | OpConfirm(c: U32, ns: seq<U64>)
    | OpConfirmUpTo(c: U32, cursor: U64)
    | OpEnsure(c: U32, generation: U32)
    | OpBump(c: U32)
    | OpExpire(c: U32, cutoff: int)

  function Elems(ns: seq<U64>): set<U64> {
    set n | n in ns
  }

  function Apply(h: Hot, op: Op): Hot {
    match op
    case OpRecord(c, n, now) => Recorded(h, c, n, now)
    case OpConfirm(c, ns) => Confirmed(h, c, Elems(ns))
    case OpConfirmUpTo(c, cursor) => ConfirmedUpTo(h, c, cursor)
    case OpEnsure(c, generation) => EnsuredGeneration(h, c, generation)
    case OpBump(c) => Bumped(h, c)
    case OpExpire(c, cutoff) => Expire(h, c, cutoff)
  }

  function From(h: Hot, ops: seq<Op>): Hot {
    if ops == [] then h else Apply(From(h, ops[..|ops| - 1]), ops[|ops| - 1])
  }

  function Run(ops: seq<Op>): Hot {
    From(NO_HOT, ops)
  }

  lemma ExpiredNext(h: Hot, ops: seq<Op>, c: U32, cutoff: int)
    ensures From(h, ops + [OpExpire(c, cutoff)]) == Expire(From(h, ops), c, cutoff)
  {
    assert (ops + [OpExpire(c, cutoff)])[..|ops|] == ops;
  }

  // A sweep part way through: all consumers but those in `rest` are expired.
  ghost predicate Swept(was: Hot, h: Hot, rest: set<U32>, cutoff: int) {
    && h.tiers.Keys == was.tiers.Keys
    && forall c :: c in was.tiers ==>
         h.tiers[c] == if c in rest then was.tiers[c] else TierExpire(was.tiers[c], cutoff)
  }

  // And `ops` are the expiries that led here.
  ghost predicate Midway(was: Hot, h: Hot, ops: seq<Op>, rest: set<U32>, cutoff: int) {
    Swept(was, h, rest, cutoff) && h == From(was, ops)
  }

  lemma SweptMore(was: Hot, h: Hot, rest: set<U32>, cutoff: int, c: U32)
    requires Swept(was, h, rest, cutoff) && c in rest && c in was.tiers
    ensures Swept(was, Expire(h, c, cutoff), rest - {c}, cutoff)
  {
    assert Expire(h, c, cutoff).tiers.Keys == h.tiers.Keys;
  }

  // ---- Conservation ----

  // The deferred seqs of all consumers together.
  ghost function HotCount(tiers: map<U32, Tier>): nat
    decreases |tiers|
  {
    if tiers == map[] then 0
    else
      var c := Least(tiers.Keys);
      |tiers[c].born| + HotCount(tiers - {c})
  }

  lemma {:induction false} HotCountWithout(tiers: map<U32, Tier>, c: U32)
    requires c in tiers
    ensures HotCount(tiers) == |tiers[c].born| + HotCount(tiers - {c})
    decreases |tiers|
  {
    var d := Least(tiers.Keys);
    if c != d {
      HotCountWithout(tiers - {d}, c);
      assert Least((tiers - {c}).Keys) == d by {
        assert IsLeast(d, (tiers - {c}).Keys);
      }
      assert tiers - {d} - {c} == tiers - {c} - {d};
    }
  }

  lemma HotCountUpdate(h: Hot, c: U32, t: Tier)
    ensures HotCount(h.tiers[c := t]) + |Pending(h, c)| == HotCount(h.tiers) + |t.born|
  {
    HotCountWithout(h.tiers[c := t], c);
    assert h.tiers[c := t] - {c} == h.tiers - {c};
    if c in h.tiers {
      HotCountWithout(h.tiers, c);
    } else {
      assert h.tiers - {c} == h.tiers;
    }
  }

  predicate TierOk(t: Tier) {
    t.oldest.None? <==> t.born == map[]
  }

  // Every seq ever deferred is still pending, or was confirmed, or expired, or
  // was wiped; and a consumer has an oldest time exactly while it has pending
  // seqs.
  ghost predicate Conserved(h: Hot) {
    && h.inserted == HotCount(h.tiers) + h.confirmed + h.expired + h.wiped
    && forall c :: c in h.tiers ==> TierOk(h.tiers[c])
  }

  lemma DropCounts(born: map<U64, int>, gone: set<U64>)
    ensures |(born - gone).Keys| + |born.Keys * gone| == |born.Keys|
  {
    assert (born - gone).Keys == born.Keys - gone;
    assert born.Keys == (born.Keys - gone) + born.Keys * gone;
  }

  lemma RecordConserves(h: Hot, c: U32, n: U64, now: int)
    requires Conserved(h)
    ensures Conserved(Recorded(h, c, n, now))
  {
    var t := TierRecord(TierOf(h, c), n, now);
    HotCountUpdate(h, c, t);
    assert n !in Pending(h, c) ==> t.born.Keys == Pending(h, c) + {n};
  }

  lemma ConfirmedCount(h: Hot, c: U32, gone: set<U64>)
    requires c in h.tiers
    ensures HotCount(Confirmed(h, c, gone).tiers) + |Pending(h, c) * gone| == HotCount(h.tiers)
  {
    HotCountUpdate(h, c, TierDrop(TierOf(h, c), gone));
    DropCounts(TierOf(h, c).born, gone);
  }

  lemma ConfirmedConserves(h: Hot, c: U32, gone: set<U64>)
    requires Conserved(h)
    ensures Conserved(Confirmed(h, c, gone))
  {
    if c in h.tiers {
      ConfirmedCount(h, c, gone);
      assert TierOk(TierDrop(h.tiers[c], gone));
    }
  }

  lemma WipeConserves(h: Hot, c: U32, generation: U32)
    requires Conserved(h)
    ensures Conserved(Wipe(h, c, generation))
  {
    HotCountUpdate(h, c, TierWipe(TierOf(h, c), generation));
  }

  lemma EnsureConserves(h: Hot, c: U32, generation: U32)
    requires Conserved(h)
    ensures Conserved(EnsuredGeneration(h, c, generation))
  {
    if TierOf(h, c).generation != generation {
      WipeConserves(h, c, generation);
    } else {
      HotCountUpdate(h, c, TierOf(h, c));
    }
  }

  lemma ExpireConserves(h: Hot, c: U32, cutoff: int)
    requires Conserved(h)
    ensures Conserved(Expire(h, c, cutoff))
  {
    HotCountUpdate(h, c, TierExpire(TierOf(h, c), cutoff));
  }

  lemma ApplyConserves(h: Hot, op: Op)
    requires Conserved(h)
    ensures Conserved(Apply(h, op))
  {
    match op
    case OpRecord(c, n, now) => RecordConserves(h, c, n, now);
    case OpConfirm(c, ns) => ConfirmedConserves(h, c, Elems(ns));
    case OpConfirmUpTo(c, cursor) => ConfirmedConserves(h, c, UpTo(Pending(h, c), cursor));
    case OpEnsure(c, generation) => EnsureConserves(h, c, generation);
    case OpBump(c) => WipeConserves(h, c, NextGeneration(TierOf(h, c).generation));
    case OpExpire(c, cutoff) => ExpireConserves(h, c, cutoff);
  }

  lemma {:induction false} RunConserves(ops: seq<Op>)
    ensures Conserved(Run(ops))
  {
    if ops != [] {
      RunConserves(ops[..|ops| - 1]);
      ApplyConserves(Run(ops[..|ops| - 1]), ops[|ops| - 1]);
    }
  }

  // ---- What is pending, read off the operations ----

  // The operation takes the seq of the consumer out.
  predicate TakesOut(h: Hot, op: Op, c: U32, n: U64) {
    && op.c == c
    && match op
       case OpRecord(_, _, _) => false
       case OpConfirm(_, ns) => n in ns
       case OpConfirmUpTo(_, cursor) => n <= cursor
       case OpEnsure(_, generation) => generation != TierOf(h, c).generation
       case OpBump(_) => true
       case OpExpire(_, cutoff) => TierOf(h, c).oldest.Some? && TierOf(h, c).oldest.value < cutoff
  }

  // Recorded where it was not pending.
  predicate TakesIn(h: Hot, op: Op, c: U32, n: U64) {
    op.OpRecord? && op.c == c && op.n == n && n !in Pending(h, c)
  }

  lemma PendingAfterIff(h: Hot, op: Op, c: U32, n: U64)
    ensures n in Pending(Apply(h, op), c) <==> TakesIn(h, op, c, n) || (n in Pending(h, c) && !TakesOut(h, op, c, n))
  {
    ApplyIsLocal(h, op, c);
  }

  lemma BornAfter(h: Hot, op: Op, c: U32, n: U64)
    requires n in Pending(Apply(h, op), c)
    ensures TierOf(Apply(h, op), c).born[n] == if TakesIn(h, op, c, n) then op.now else TierOf(h, c).born[n]
  {
    ApplyIsLocal(h, op, c);
    PendingAfterIff(h, op, c, n);
  }

  // A consumer is at the generation it was last set to, counted on modulo 2^32.
  lemma GenerationAfter(h: Hot, op: Op, c: U32)
    ensures TierOf(Apply(h, op), c).generation ==
            if op.c != c then TierOf(h, c).generation
            else match op
              case OpEnsure(_, generation) => generation
              case OpBump(_) => (TierOf(h, c).generation as int + 1) % 0x1_0000_0000
              case _ => TierOf(h, c).generation
  {
    ApplyIsLocal(h, op, c);
  }

  // Recorded by the i-th operation, and not taken out since.
  ghost predicate PendingSince(ops: seq<Op>, c: U32, n: U64, i: nat) {
    && i < |ops| && TakesIn(Run(ops[..i]), ops[i], c, n)
    && forall j :: i < j < |ops| ==> !TakesOut(Run(ops[..j]), ops[j], c, n)
  }

  lemma PendingSinceSnoc(ops: seq<Op>, c: U32, n: U64, i: nat)
    requires ops != [] && i < |ops| - 1
    ensures var k := |ops| - 1;
            PendingSince(ops, c, n, i) <==>
            PendingSince(ops[..k], c, n, i) && !TakesOut(Run(ops[..k]), ops[k], c, n)
  {
    var k := |ops| - 1;
    assert forall j :: 0 <= j <= k ==> ops[..k][..j] == ops[..j];
  }

  lemma PendingSinceStep(ops: seq<Op>, c: U32, n: U64)
    requires ops != []
    ensures var k := |ops| - 1;
            (exists i: nat :: PendingSince(ops, c, n, i)) <==>
            TakesIn(Run(ops[..k]), ops[k], c, n)
            || (!TakesOut(Run(ops[..k]), ops[k], c, n) && exists i: nat :: PendingSince(ops[..k], c, n, i))
  {
    var k := |ops| - 1;
    if i: nat :| PendingSince(ops, c, n, i) && i < k {
      PendingSinceSnoc(ops, c, n, i);
    }
    if TakesIn(Run(ops[..k]), ops[k], c, n) {
      assert PendingSince(ops, c, n, k);
    } else if !TakesOut(Run(ops[..k]), ops[k], c, n) {
      if i: nat :| PendingSince(ops[..k], c, n, i) {
        PendingSinceSnoc(ops, c, n, i);
      }
    }
  }

  // A seq is pending exactly if some Record found it not pending and nothing
  // took it out since.
  lemma {:induction false} PendingIffRecordedAndKept(ops: seq<Op>, c: U32, n: U64)
    ensures n in Pending(Run(ops), c) <==> exists i: nat :: PendingSince(ops, c, n, i)
  {
    if ops != [] {
      var k := |ops| - 1;
      PendingIffRecordedAndKept(ops[..k], c, n);
      PendingAfterIff(Run(ops[..k]), ops[k], c, n);
      PendingSinceStep(ops, c, n);
    }
  }

  // And it is dated by that Record.
  lemma {:induction false} BornWhenRecorded(ops: seq<Op>, c: U32, n: U64, i: nat)
    requires PendingSince(ops, c, n, i)
    ensures n in Pending(Run(ops), c) && TierOf(Run(ops), c).born[n] == ops[i].now
  {
    var k := |ops| - 1;
    PendingIffRecordedAndKept(ops, c, n);
    BornAfter(Run(ops[..k]), ops[k], c, n);
    if i < k {
      PendingSinceSnoc(ops, c, n, i);
      BornWhenRecorded(ops[..k], c, n, i);
    }
  }

  // Which of the counters an operation moves, and by how much.
  lemma CountedOnce(h: Hot, op: Op)
    requires Conserved(h)
    ensures var h', c := Apply(h, op), op.c;
            var gone: int := |Pending(h, c)| - |Pending(h', c)|;
            && h'.inserted == h.inserted + (if op.OpRecord? && op.n !in Pending(h, c) then 1 else 0)
            && h'.confirmed == h.confirmed + (if op.OpConfirm? || op.OpConfirmUpTo? then gone else 0)
            && h'.expired == h.expired + (if op.OpExpire? then gone else 0)
            && h'.wiped == h.wiped + (if op.OpEnsure? || op.OpBump? then gone else 0)
  {
    ApplyConserves(h, op);
    ApplyIsLocal(h, op, op.c);
    match op
    case OpConfirm(c, ns) => DropCounts(TierOf(h, c).born, Elems(ns));
    case OpConfirmUpTo(c, cursor) => DropCounts(TierOf(h, c).born, UpTo(Pending(h, c), cursor));
    case _ =>
  }

  // ---- Ages ----

  // No pending seq is older than the time kept for its consumer.
  predicate TierAges(t: Tier, now: int) {
    TierOk(t) && forall n :: n in t.born ==> t.oldest.value <= t.born[n] <= now
  }

  predicate AgesOk(h: Hot, now: int) {
    forall c :: c in h.tiers ==> TierAges(h.tiers[c], now)
  }

  // The clock does not run backwards.
  function Clock(ops: seq<Op>): int {
    if ops == [] then 0 else if ops[|ops| - 1].OpRecord? then ops[|ops| - 1].now else Clock(ops[..|ops| - 1])
  }

  predicate Forward(ops: seq<Op>) {
    ops == [] || (Forward(ops[..|ops| - 1]) && Clock(ops[..|ops| - 1]) <= Clock(ops))
  }

  lemma TierKeepsAges(t: Tier, op: Op, was: int, now: int)
    requires TierAges(t, was) && was <= now && (op.OpRecord? ==> op.now == now)
    ensures match op
      case OpRecord(_, n, _) => TierAges(TierRecord(t, n, now), now)
      case OpConfirm(_, ns) => TierAges(TierDrop(t, Elems(ns)), now)
      case OpConfirmUpTo(_, cursor) => TierAges(TierDrop(t, UpTo(t.born.Keys, cursor)), now)
      case _ => TierAges(t, now)
  {
  }

  lemma ApplyKeepsAges(h: Hot, op: Op, was: int, now: int)
    requires AgesOk(h, was) && was <= now && (op.OpRecord? ==> op.now == now)
    ensures AgesOk(Apply(h, op), now)
  {
    TierKeepsAges(TierOf(h, op.c), op, was, now);
    forall c | c in Apply(h, op).tiers
      ensures TierAges(Apply(h, op).tiers[c], now)
    {
      assert c != op.c ==> TierAges(h.tiers[c], was);
    }
  }

  lemma {:induction false} RunKeepsAges(ops: seq<Op>)
    requires Forward(ops)
    ensures AgesOk(Run(ops), Clock(ops))
  {
    if ops != [] {
      RunKeepsAges(ops[..|ops| - 1]);
      ApplyKeepsAges(Run(ops[..|ops| - 1]), ops[|ops| - 1], Clock(ops[..|ops| - 1]), Clock(ops));
    }
  }

  // After a consumer's expiry nothing recorded before the cutoff is pending.
  lemma NothingOldAfterExpiry(ops: seq<Op>, c: U32, cutoff: int, n: U64)
    requires Forward(ops) && n in Pending(Expire(Run(ops), c, cutoff), c)
    ensures TierOf(Expire(Run(ops), c, cutoff), c).born[n] >= cutoff
  {
    RunKeepsAges(ops);
  }

  // The time kept is that of the oldest pending seq.
  ghost predicate OldestExact(t: Tier) {
    t.oldest.Some? ==>
      && (exists n :: n in t.born && t.born[n] == t.oldest.value)
      && (forall n :: n in t.born ==> t.oldest.value <= t.born[n])
  }

  // The time kept is not renewed when seqs are confirmed, so it stays exact
  // exactly when nothing is left or a seq of that time is.
  lemma DropKeepsOldestIff(t: Tier, gone: set<U64>)
    requires TierOk(t) && OldestExact(t)
    ensures OldestExact(TierDrop(t, gone)) <==>
            t.born.Keys <= gone || exists n :: n in t.born && n !in gone && t.born[n] == t.oldest.value
  {
    var t' := TierDrop(t, gone);
    if t.born.Keys <= gone {
      assert t'.born == map[];
    } else {
      var m :| m in t.born.Keys && m !in gone;
      assert m in t'.born;
      if OldestExact(t') {
        var n :| n in t'.born && t'.born[n] == t'.oldest.value;
        assert n in t.born && n !in gone;
      }
      if n :| n in t.born && n !in gone && t.born[n] == t.oldest.value {
        assert n in t'.born && t'.born[n] == t'.oldest.value;
      }
    }
  }

  // The i-th operation is the Record that last found the consumer with nothing
  // pending: it has had something pending ever since.
  ghost predicate Began(ops: seq<Op>, c: U32, i: nat) {
    && i < |ops| && ops[i].OpRecord? && ops[i].c == c && Pending(Run(ops[..i]), c) == {}
    && forall k :: i < k <= |ops| ==> Pending(Run(ops[..k]), c) != {}
  }

  ghost predicate BeganAt(ops: seq<Op>, c: U32, t: int) {
    exists i :: 0 <= i < |ops| && Began(ops, c, i) && ops[i].now == t
  }

  lemma BeganSnoc(ops: seq<Op>, c: U32, i: nat)
    requires ops != [] && i < |ops| - 1
    ensures Began(ops, c, i) <==> Began(ops[..|ops| - 1], c, i) && Pending(Run(ops), c) != {}
  {
    var before := ops[..|ops| - 1];
    assert ops[..|ops|] == ops && before[..i] == ops[..i];
    assert forall k :: i < k <= |before| ==> before[..k] == ops[..k];
    if Began(before, c, i) && Pending(Run(ops), c) != {} {
      forall k | i < k <= |ops|
        ensures Pending(Run(ops[..k]), c) != {}
      {
        if k < |ops| {
          assert Pending(Run(before[..k]), c) != {};
        }
      }
    }
    if Began(ops, c, i) {
      assert Pending(Run(ops[..|ops|]), c) != {};
      forall k | i < k <= |before|
        ensures Pending(Run(before[..k]), c) != {}
      {
        assert Pending(Run(ops[..k]), c) != {};
      }
    }
  }

  lemma BeganLast(ops: seq<Op>, c: U32)
    requires ops != []
    ensures var k := |ops| - 1;
            Began(ops, c, k) <==> ops[k].OpRecord? && ops[k].c == c && Pending(Run(ops[..k]), c) == {}
  {
    assert ops[..|ops|] == ops;
  }

  lemma EmptyAfter(ops: seq<Op>, c: U32, i: nat, k: nat)
    requires i < k <= |ops| && Pending(Run(ops[..k]), c) == {}
    ensures !Began(ops, c, i)
  {
  }

  // Something has been pending since time t exactly if it had been before and
  // still is, or if this is the Record that began it.
  lemma BeganAtStep(ops: seq<Op>, c: U32, t: int)
    requires ops != []
    ensures var k := |ops| - 1;
            BeganAt(ops, c, t) <==>
              if Pending(Run(ops[..k]), c) == {} then ops[k].OpRecord? && ops[k].c == c && ops[k].now == t
              else Pending(Run(ops), c) != {} && BeganAt(ops[..k], c, t)
  {
    var k := |ops| - 1;
    BeganLast(ops, c);
    if Pending(Run(ops[..k]), c) == {} {
      forall i | 0 <= i < k
        ensures !Began(ops, c, i)
      {
        EmptyAfter(ops, c, i, k);
      }
    } else {
      forall i | 0 <= i < k
        ensures Began(ops, c, i) <==> Began(ops[..k], c, i) && Pending(Run(ops), c) != {}
      {
        BeganSnoc(ops, c, i);
      }
      BeganBefore(ops, c, t);
    }
  }

  lemma BeganBefore(ops: seq<Op>, c: U32, t: int)
    requires ops != [] && !Began(ops, c, |ops| - 1)
    requires forall i :: 0 <= i < |ops| - 1 ==>
               (Began(ops, c, i) <==> Began(ops[..|ops| - 1], c, i) && Pending(Run(ops), c) != {})
    ensures BeganAt(ops, c, t) <==> Pending(Run(ops), c) != {} && BeganAt(ops[..|ops| - 1], c, t)
  {
    var before := ops[..|ops| - 1];
    if BeganAt(ops, c, t) {
      var i :| 0 <= i < |ops| && Began(ops, c, i) && ops[i].now == t;
      assert before[i] == ops[i] && Began(before, c, i);
    }
    if Pending(Run(ops), c) != {} && BeganAt(before, c, t) {
      var i :| 0 <= i < |before| && Began(before, c, i) && before[i].now == t;
      assert before[i] == ops[i] && Began(ops, c, i);
    }
  }

  // What an operation does to its own consumer.
  function TierApply(t: Tier, op: Op): Tier {
    match op
    case OpRecord(_, n, now) => TierRecord(t, n, now)
    case OpConfirm(_, ns) => TierDrop(t, Elems(ns))
    case OpConfirmUpTo(_, cursor) => TierDrop(t, UpTo(t.born.Keys, cursor))
    case OpEnsure(_, generation) => if t.generation != generation then TierWipe(t, generation) else t
    case OpBump(_) => TierWipe(t, NextGeneration(t.generation))
    case OpExpire(_, cutoff) => TierExpire(t, cutoff)
  }

  lemma ApplyIsLocal(h: Hot, op: Op, c: U32)
    ensures TierOf(Apply(h, op), c) == if c == op.c then TierApply(TierOf(h, c), op) else TierOf(h, c)
  {
    assert op.c !in h.tiers ==> NO_TIER.born - UpTo({}, 0) == map[];
    NothingToDrop(if op.OpConfirm? then Elems(op.ns) else if op.OpConfirmUpTo? then UpTo({}, op.cursor) else {});
  }

  lemma NothingToDrop(gone: set<U64>)
    ensures TierDrop(NO_TIER, gone) == NO_TIER
  {
  }

  lemma TierApplyKeepsTime(t: Tier, op: Op)
    requires TierOk(t)
    ensures var t' := TierApply(t, op);
            && t'.oldest ==
                 (if t'.born == map[] then None
                  else if t.born == map[] then (if op.OpRecord? then Some(op.now) else None)
                  else t.oldest)
            && (t.born == map[] ==> (op.OpRecord? <==> t'.born != map[]))
  {
  }

  // What an operation does to the time kept.
  lemma KeptTimeStep(h: Hot, op: Op, c: U32)
    requires Conserved(h)
    ensures var was, left := Pending(h, c), Pending(Apply(h, op), c);
            && TierOf(Apply(h, op), c).oldest ==
                 (if left == {} then None
                  else if was == {} then (if op.OpRecord? then Some(op.now) else None)
                  else TierOf(h, c).oldest)
            && (was == {} && op.OpRecord? && op.c == c ==> left != {})
            && (was == {} && left != {} ==> op.OpRecord? && op.c == c)
  {
    var t, t' := TierOf(h, c), TierOf(Apply(h, op), c);
    assert TierOk(t);
    assert (t.born == map[] <==> t.born.Keys == {}) && (t'.born == map[] <==> t'.born.Keys == {});
    ApplyIsLocal(h, op, c);
    TierApplyKeepsTime(t, op);
  }

  lemma KeptTimeNext(ops: seq<Op>, c: U32)
    requires ops != []
    ensures var k := |ops| - 1;
            var was, left := Pending(Run(ops[..k]), c), Pending(Run(ops), c);
            && TierOf(Run(ops), c).oldest ==
                 (if left == {} then None
                  else if was == {} then (if ops[k].OpRecord? then Some(ops[k].now) else None)
                  else TierOf(Run(ops[..k]), c).oldest)
            && (was == {} && ops[k].OpRecord? && ops[k].c == c ==> left != {})
            && (was == {} && left != {} ==> ops[k].OpRecord? && ops[k].c == c)
  {
    RunConserves(ops[..|ops| - 1]);
    KeptTimeStep(Run(ops[..|ops| - 1]), ops[|ops| - 1], c);
  }

  // In every run the time kept for a consumer is that of the Record that last
  // found it with nothing pending, confirmed since or not.
  lemma {:induction false} KeptTimeIff(ops: seq<Op>, c: U32, t: int)
    ensures TierOf(Run(ops), c).oldest == Some(t) <==> BeganAt(ops, c, t)
  {
    if ops != [] {
      KeptTimeIff(ops[..|ops| - 1], c, t);
      KeptTimeNext(ops, c);
      BeganAtStep(ops, c, t);
    }
  }

  // With a clock that runs forward, the time kept is exact exactly when a seq
  // recorded at that moment is still pending.
  lemma OldestExactIff(ops: seq<Op>, c: U32)
    requires Forward(ops)
    ensures OldestExact(TierOf(Run(ops), c)) <==>
            Pending(Run(ops), c) == {}
            || exists n :: n in Pending(Run(ops), c) && BeganAt(ops, c, TierOf(Run(ops), c).born[n])
  {
    var t := TierOf(Run(ops), c);
    TierOfRun(ops, c);
    forall n | n in t.born
      ensures BeganAt(ops, c, t.born[n]) <==> t.oldest == Some(t.born[n])
    {
      KeptTimeIff(ops, c, t.born[n]);
    }
    ExactIffReached(t, Clock(ops));
  }

  lemma TierOfRun(ops: seq<Op>, c: U32)
    requires Forward(ops)
    ensures TierAges(TierOf(Run(ops), c), Clock(ops))
  {
    RunKeepsAges(ops);
  }

  lemma ExactIffReached(t: Tier, now: int)
    requires TierAges(t, now)
    ensures OldestExact(t) <==> t.born.Keys == {} || exists n :: n in t.born && t.oldest == Some(t.born[n])
  {
    assert t.born == map[] <==> t.born.Keys == {};
  }

  // Expiry drops a seq recorded at or after the cutoff exactly when its
  // consumer has had something pending since before the cutoff.
  lemma YoungExpiresIff(ops: seq<Op>, c: U32, cutoff: int, n: U64)
    requires n in Pending(Run(ops), c) && TierOf(Run(ops), c).born[n] >= cutoff
    ensures n !in Pending(Expire(Run(ops), c, cutoff), c) <==> exists t :: t < cutoff && BeganAt(ops, c, t)
  {
    var tier := TierOf(Run(ops), c);
    RunConserves(ops);
    assert TierOk(tier);
    KeptTimeIff(ops, c, tier.oldest.value);
    if t :| t < cutoff && BeganAt(ops, c, t) {
      KeptTimeIff(ops, c, t);
    }
  }

  // A younger seq may thus be dropped with one confirmed long before: here 2,
  // recorded at 10, by a cutoff of 5.
  lemma StaleTimeExpiresYoungSeq(h: Hot, c: U32)
    requires c !in h.tiers
    ensures var h' := Confirmed(Recorded(Recorded(h, c, 1, 0), c, 2, 10), c, {1});
            2 in Pending(h', c) && TierOf(h', c).born[2] == 10 && 2 !in Pending(Expire(h', c, 5), c)
  {
    assert TierOf(Recorded(Recorded(h, c, 1, 0), c, 2, 10), c) == Tier(0, map[1 := 0, 2 := 10], Some(0));
    assert 2 in map[1 := 0, 2 := 10] - {1};
  }

  // ---- The relay ----

  class ConsumerState {
    var generation: U32
    var pending: set<U64>
    var oldestTs: Option<int>
    ghost var born: map<U64, int>

    ghost function View(): Tier
      reads this
    {
      Tier(generation, born, oldestTs)
    }

    ghost predicate Valid()
      reads this
    {
      pending == born.Keys
    }

    constructor ()
      ensures Valid() && View() == NO_TIER
    {
      generation, pending, oldestTs, born := 0, {}, None, map[];
    }

    method Record(n: U64, now: int)
      requires Valid()
      modifies this
      ensures Valid() && View() == TierRecord(old(View()), n, now)
    {
      if n !in pending {
        pending, born := pending + {n}, born[n := now];
        if oldestTs.None? {
          oldestTs := Some(now);
        }
      }
    }

    method Confirm(ns: seq<U64>) returns (removed: nat)
      requires Valid()
      modifies this
      ensures Valid() && View() == TierDrop(old(View()), Elems(ns)) && removed == |old(pending) * Elems(ns)|
    {
      removed := 0;
      for i := 0 to |ns|
        invariant Valid() && generation == old(generation) && oldestTs == old(oldestTs)
        invariant born == old(born) - Elems(ns[..i]) && removed == |old(pending) * Elems(ns[..i])|
      {
        OneMore(old(born), ns[..i], ns[i]);
        assert ns[..i + 1] == ns[..i] + [ns[i]];
        if ns[i] in pending {
          pending, born := pending - {ns[i]}, born - {ns[i]};
          removed := removed + 1;
        }
      }
      assert ns[..|ns|] == ns;
      if pending == {} {
        oldestTs := None;
      }
    }

    method ConfirmUpTo(cursor: U64) returns (removed: nat)
      requires Valid()
      modifies this
      ensures Valid() && View() == TierDrop(old(View()), UpTo(old(pending), cursor))
              && removed == |UpTo(old(pending), cursor)|
    {
      removed := 0;
      var rest := pending;
      ghost var was := born;
      assert was - UpTo({}, cursor) == was;
      while rest != {}
        invariant Valid() && rest <= was.Keys && generation == old(generation) && oldestTs == old(oldestTs)
        invariant born == was - UpTo(was.Keys - rest, cursor) && removed == |UpTo(was.Keys - rest, cursor)|
        decreases |rest|
      {
        var n :| n in rest;
        UpToOneMore(was, rest, n, cursor);
        rest := rest - {n};
        if n <= cursor {
          pending, born := pending - {n}, born - {n};
          removed := removed + 1;
        }
      }
      assert was.Keys - {} == was.Keys;
      if pending == {} {
        oldestTs := None;
      }
    }

    method Wipe(generation: U32)
      modifies this
      ensures Valid() && View() == TierWipe(old(View()), generation)
    {
      this.generation := generation;
      pending, born, oldestTs := {}, map[], None;
    }

    method Expire(cutoff: int) returns (removed: nat)
      requires Valid()
      modifies this
      ensures Valid() && View() == TierExpire(old(View()), cutoff)
      ensures removed == if Overdue(old(View()), cutoff) then |old(pending)| else 0
    {
      removed := 0;
      if oldestTs.Some? && oldestTs.value < cutoff {
        removed := |pending|;
        pending, born, oldestTs := {}, map[], None;
      }
    }
  }

  lemma OneMore(born: map<U64, int>, ns: seq<U64>, n: U64)
    ensures var gone, gone' := Elems(ns), Elems(ns + [n]);
            if n in born.Keys - gone
            then born - gone' == born - gone - {n} && |born.Keys * gone'| == |born.Keys * gone| + 1
            else born - gone' == born - gone && born.Keys * gone' == born.Keys * gone
  {
    var gone := Elems(ns);
    assert Elems(ns + [n]) == gone + {n};
    MinusOne(born, gone, n);
    MeetOne(born.Keys, gone, n);
  }

  lemma MeetOne(keys: set<U64>, gone: set<U64>, n: U64)
    ensures keys * (gone + {n}) == if n in keys - gone then keys * gone + {n} else keys * gone
  {
  }

  lemma MinusOne(born: map<U64, int>, gone: set<U64>, n: U64)
    ensures born - (gone + {n}) == born - gone - {n}
    ensures n !in born || n in gone ==> born - (gone + {n}) == born - gone
  {
    var a, b := born - (gone + {n}), born - gone - {n};
    assert a.Keys == b.Keys;
  }

  lemma UpToOneMore(born: map<U64, int>, rest: set<U64>, n: U64, cursor: U64)
    requires rest <= born.Keys && n in rest
    ensures var gone, gone' := UpTo(born.Keys - rest, cursor), UpTo(born.Keys - (rest - {n}), cursor);
            if n <= cursor then born - gone' == born - gone - {n} && |gone'| == |gone| + 1
            else gone' == gone
  {
    var gone := UpTo(born.Keys - rest, cursor);
    var gone' := UpTo(born.Keys - (rest - {n}), cursor);
    assert gone' == if n <= cursor then gone + {n} else gone;
  }

  lemma OneFewer(rest: set<U32>, all: set<U32>, c: U32)
    requires rest <= all && c in rest
    ensures rest - {c} <= all && |rest - {c}| < |rest|
  {
  }

  lemma Overwritten(m: map<U32, Tier>, c: U32, t: Tier, t': Tier)
    ensures m[c := t][c := t'] == m[c := t']
  {
  }

  class Relay {
    var byID: map<U32, ConsumerState>
    var confirmedTotal: U64
    var expiredTotal: U64
    ghost var hot: Hot

    ghost predicate StateOk(c: U32)
      requires c in byID
      reads this, byID.Values
    {
      c in hot.tiers && byID[c].Valid() && byID[c].View() == hot.tiers[c]
    }

    ghost predicate Valid()
      reads this, byID.Values
    {
      var ok :=
        && byID.Keys == hot.tiers.Keys
        && (forall c :: c in byID ==> StateOk(c))
        && (forall c, d :: c in byID && d in byID && byID[c] == byID[d] ==> c == d)
        && confirmedTotal == hot.confirmed % 0x1_0000_0000_0000_0000
        && expiredTotal == hot.expired % 0x1_0000_0000_0000_0000;
      ok
    }

    constructor ()
      ensures Valid() && hot == NO_HOT && byID == map[]
    {
      byID, confirmedTotal, expiredTotal, hot := map[], 0, 0, NO_HOT;
    }

    // The consumer's state, made on first use.
    method State(c: U32) returns (st: ConsumerState)
      requires Valid()
      modifies this
      ensures Valid() && c in byID && st == byID[c]
      ensures hot == old(hot).(tiers := old(hot).tiers[c := TierOf(old(hot), c)])
      ensures forall d :: d in byID ==> (d in old(byID) && byID[d] == old(byID)[d]) || (d == c && fresh(byID[d]))
    {
      if c !in byID {
        st := new ConsumerState();
        byID := byID[c := st];
        hot := hot.(tiers := hot.tiers[c := NO_TIER]);
        return;
      }
      assert hot.tiers[c := hot.tiers[c]] == hot.tiers;
      st := byID[c];
    }

    // Takes over what was done to one consumer's state.
    ghost method Note(c: U32, h: Hot)
      requires c in byID && byID.Keys == hot.tiers.Keys && h.tiers == hot.tiers[c := byID[c].View()] && byID[c].Valid()
      requires forall d :: d in byID && d != c ==> StateOk(d)
      requires forall c, d :: c in byID && d in byID && byID[c] == byID[d] ==> c == d
      requires confirmedTotal == h.confirmed % 0x1_0000_0000_0000_0000
               && expiredTotal == h.expired % 0x1_0000_0000_0000_0000
      modifies this`hot
      ensures Valid() && hot == h
    {
      forall d | d in byID && d != c
        ensures byID[d].Valid() && byID[d].View() == h.tiers[d]
      {
        assert StateOk(d);
      }
      hot := h;
    }

    twostate predicate StatesKnown()
      reads this`byID
    {
      forall c :: c in byID ==> (c in old(byID) && byID[c] == old(byID)[c]) || fresh(byID[c])
    }

    method Record(c: U32, n: U64, now: int)
      requires Valid()
      modifies this, byID.Values
      ensures Valid() && hot == Recorded(old(hot), c, n, now) && StatesKnown()
    {
      ghost var h := Recorded(hot, c, n, now);
      Overwritten(hot.tiers, c, TierOf(hot, c), h.tiers[c]);
      var st := State(c);
      assert forall d :: d in byID ==> StateOk(d);
      st.Record(n, now);
      Note(c, h);
    }

    method CountConfirmed(removed: nat, ghost was: nat)
      requires confirmedTotal == was % 0x1_0000_0000_0000_0000
      modifies this`confirmedTotal
      ensures confirmedTotal == (was + removed) % 0x1_0000_0000_0000_0000
    {
      if removed > 0 {
        confirmedTotal := (confirmedTotal as int + removed) % 0x1_0000_0000_0000_0000;
      }
    }

    method Confirm(c: U32, ns: seq<U64>)
      requires Valid()
      modifies this, byID.Values
      ensures Valid() && hot == Confirmed(old(hot), c, Elems(ns)) && byID == old(byID)
    {
      if c !in byID {
        return;
      }
      ghost var h := Confirmed(hot, c, Elems(ns));
      assert forall d :: d in byID ==> StateOk(d);
      var removed := byID[c].Confirm(ns);
      CountConfirmed(removed, hot.confirmed);
      Note(c, h);
    }

    method ConfirmUpTo(c: U32, cursor: U64) returns (removed: nat)
      requires Valid()
      modifies this, byID.Values
      ensures Valid() && hot == ConfirmedUpTo(old(hot), c, cursor) && byID == old(byID)
      ensures removed == |UpTo(Pending(old(hot), c), cursor)|
    {
      if c !in byID {
        assert UpTo({}, cursor) == {};
        return 0;
      }
      ghost var gone := UpTo(Pending(hot, c), cursor);
      ghost var h := Confirmed(hot, c, gone);
      assert forall d :: d in byID ==> StateOk(d);
      assert Pending(hot, c) * gone == gone;
      removed := byID[c].ConfirmUpTo(cursor);
      CountConfirmed(removed, hot.confirmed);
      Note(c, h);
    }

    method Generation(c: U32) returns (g: U32)
      requires Valid()
      ensures g == TierOf(hot, c).generation
    {
      if c !in byID {
        return 0;
      }
      assert StateOk(c);
      return byID[c].generation;
    }

    method EnsureGeneration(c: U32, generation: U32)
      requires Valid()
      modifies this, byID.Values
      ensures Valid() && hot == EnsuredGeneration(old(hot), c, generation) && StatesKnown()
    {
      ghost var h := EnsuredGeneration(hot, c, generation);
      Overwritten(hot.tiers, c, TierOf(hot, c), h.tiers[c]);
      var st := State(c);
      assert forall d :: d in byID ==> StateOk(d);
      if st.generation != generation {
        st.Wipe(generation);
        Note(c, h);
      }
    }

    method BumpGeneration(c: U32) returns (g: U32)
      requires Valid()
      modifies this, byID.Values
      ensures Valid() && hot == Bumped(old(hot), c) && StatesKnown() && g == TierOf(hot, c).generation
    {
      ghost var h := Bumped(hot, c);
      Overwritten(hot.tiers, c, TierOf(hot, c), h.tiers[c]);
      var st := State(c);
      assert forall d :: d in byID ==> StateOk(d);
      st.Wipe(NextGeneration(st.generation));
      Note(c, h);
      g := st.generation;
    }

    // Every deferred seq of a consumer, ascending.
    method PendingSeqs(c: U32) returns (ns: seq<U64>)
      requires Valid()
      ensures ns == Asc64(Pending(hot, c))
    {
      if c !in byID {
        return [];
      }
      assert StateOk(c);
      ns := Sort64(byID[c].pending);
    }

    method ExpireOne(c: U32, cutoff: int) returns (removed: nat)
      requires Valid() && c in byID
      modifies this`hot, this`expiredTotal, byID[c]
      ensures Valid() && hot == Expire(old(hot), c, cutoff) && old(hot).expired + removed == hot.expired
    {
      assert forall d :: d in byID ==> StateOk(d);
      removed := byID[c].Expire(cutoff);
      assert hot.tiers[c := hot.tiers[c]] == hot.tiers;
      expiredTotal := (expiredTotal as int + removed) % 0x1_0000_0000_0000_0000;
      Note(c, Expire(old(hot), c, cutoff));
    }

    method ExpireNext(c: U32, cutoff: int, ghost was: Hot, ghost ops: seq<Op>, ghost rest: set<U32>)
      returns (removed: nat, ghost more: seq<Op>)
      requires Valid() && c in byID && c in rest && Midway(was, hot, ops, rest, cutoff)
      modifies this`hot, this`expiredTotal, byID[c]
      ensures Valid() && Midway(was, hot, more, rest - {c}, cutoff)
      ensures old(hot).expired + removed == hot.expired
    {
      ghost var h := hot;
      SweptMore(was, h, rest, cutoff, c);
      ExpiredNext(was, ops, c, cutoff);
      more := ops + [OpExpire(c, cutoff)];
      removed := ExpireOne(c, cutoff);
    }

    // Expires every consumer whose time is before the cutoff, one at a time;
    // `ops` is the order they were visited in.
    method ExpireOlderThan(ttl: int, now: int) returns (total: nat, ghost ops: seq<Op>)
      requires Valid()
      modifies this`hot, this`expiredTotal, byID.Values
      ensures Valid() && hot == From(old(hot), ops) && hot.expired == old(hot).expired + total
      ensures ttl > 0 ==> Swept(old(hot), hot, {}, now - ttl)
      ensures ttl <= 0 ==> hot == old(hot)
    {
      if ttl <= 0 {
        return 0, [];
      }
      total, ops := ExpireBefore(now - ttl);
    }

    method ExpireBefore(cutoff: int) returns (total: nat, ghost ops: seq<Op>)
      requires Valid()
      modifies this`hot, this`expiredTotal, byID.Values
      ensures Valid() && Midway(old(hot), hot, ops, {}, cutoff) && hot.expired == old(hot).expired + total
    {
      total, ops := 0, [];
      var rest := byID.Keys;
      ghost var was := hot;
      while rest != {}
        invariant Valid() && rest <= byID.Keys
        invariant Midway(was, hot, ops, rest, cutoff) && hot.expired == was.expired + total
        decreases |rest|
      {
        var c :| c in rest;
        var removed;
        removed, ops := ExpireNext(c, cutoff, was, ops, rest);
        OneFewer(rest, byID.Keys, c);
        total := total + removed;
        rest := rest - {c};
      }
    }
  }
}
