// Rewriting the log as one Register and one Snapshot per non-empty slot.
module Compaction {
  import opened Bytes
  import opened Format
  import opened Replay
  import opened Sorting

  // A slot without a name is written under the zero value, two empty strings.
  function NameOr(v: SlotView): Names {
    match v.name
    case None => Names([], [])
    case Some(nm) => nm
  }

  ghost function CompactSlot(id: U32, v: SlotView, now: U64): seq<Rec> {
    if v.live == map[] then []
    else
      var ns := Asc64(v.live.Keys);
      [Register(id, now, NameOr(v).stream, NameOr(v).consumer), Snapshot(id, now, ns[0], ns[|ns| - 1], ns)]
  }

  // The record lists exactly these seqs, ascending, between the bounds it names.
  ghost predicate ListsExactly(r: Rec, keys: set<U64>) {
    && r.Snapshot? && (forall n: U64 :: n in r.seqs <==> n in keys)
    && (forall i, j :: 0 <= i < j < |r.seqs| ==> r.seqs[i] < r.seqs[j])
    && r.minSeq in keys && r.maxSeq in keys && forall n :: n in keys ==> r.minSeq <= n <= r.maxSeq
  }

  lemma AscBounds(keys: set<U64>)
    requires keys != {}
    ensures var ns := Asc64(keys);
            && |ns| > 0 && ns[0] in keys && ns[|ns| - 1] in keys
            && (forall n: U64 :: n in ns <==> n in keys) && forall n :: n in keys ==> ns[0] <= n <= ns[|ns| - 1]
  {
    var ns := Asc64(keys);
    assert forall n: U64 :: n in ns <==> n in keys;
    var m :| m in keys;
    assert m in ns;
    assert ns[0] in ns && ns[|ns| - 1] in ns;
    forall n | n in keys
      ensures ns[0] <= n <= ns[|ns| - 1]
    {
      var i :| 0 <= i < |ns| && ns[i] == n;
    }
  }

  // Each compacted slot is one Register and a Snapshot of exactly its seqs.
  lemma CompactedListsExactly(id: U32, v: SlotView, now: U64)
    requires v.live != map[]
    ensures var log := CompactSlot(id, v, now);
            && |log| == 2 && log[0] == Register(id, now, NameOr(v).stream, NameOr(v).consumer)
            && log[1].slot == id && log[1].ts == now && ListsExactly(log[1], v.live.Keys)
  {
    AscBounds(v.live.Keys);
  }

  ghost function CompactIds(acc: Acc, ids: seq<U32>, now: U64): seq<Rec> {
    if ids == [] then []
    else
      var k := |ids| - 1;
      CompactIds(acc, ids[..k], now) + CompactSlot(ids[k], ViewOf(acc, ids[k]), now)
  }

  ghost function Compacted(acc: Acc, now: U64): seq<Rec> {
    CompactIds(acc, Asc32(acc.slots.Keys), now)
  }

  ghost function CompactLog(rs: seq<Rec>, cutoff: I64, now: U64): seq<Rec> {
    Compacted(FoldScan(rs, cutoff), now)
  }

  function LogBytes(rs: seq<Rec>): nat {
    if rs == [] then 0 else LogBytes(rs[..|rs| - 1]) + 8 + PayloadSize(rs[|rs| - 1])
  }

  // What a slot means once compacted: the same seqs, all stamped with the time
  // of compaction, and no trace of a slot that held nothing.
  ghost function AfterCompaction(v: SlotView, now: U64): SlotView {
    if v.live == map[] then NO_SLOT
    else SlotView(Stamped(Asc64(v.live.Keys), AsI64(now)), Some(NameOr(v)))
  }

  lemma TwoRecords(v: SlotView, a: Rec, b: Rec, id: U32, cutoff: I64)
    ensures SlotFrom(v, [a, b], id, cutoff) == StepSlot(StepSlot(v, a, id, cutoff), b, id, cutoff)
    ensures LogBytes([a, b]) == 16 + PayloadSize(a) + PayloadSize(b)
  {
    assert [a, b][..1] == [a] && [a][..0] == [];
    assert SlotFrom(v, [a], id, cutoff) == StepSlot(v, a, id, cutoff);
    assert LogBytes([a]) == 8 + PayloadSize(a);
  }

  lemma CompactSlotMeaning(start: SlotView, id: U32, v: SlotView, now: U64, id': U32, cutoff: I64)
    requires !Expired(now, cutoff)
    ensures SlotFrom(start, CompactSlot(id, v, now), id', cutoff)
            == if id' != id || v.live == map[] then start else AfterCompaction(v, now)
  {
    if v.live != map[] {
      var log := CompactSlot(id, v, now);
      var ns := Asc64(v.live.Keys);
      TwoRecords(start, log[0], log[1], id', cutoff);
    }
  }

  lemma {:induction false} CompactIdsMeaning(acc: Acc, ids: seq<U32>, now: U64, id: U32, cutoff: I64)
    requires !Expired(now, cutoff) && Ascending(ids)
    ensures SlotOf(CompactIds(acc, ids, now), id, cutoff)
            == if id in ids then AfterCompaction(ViewOf(acc, id), now) else NO_SLOT
  {
    if ids != [] {
      var k := |ids| - 1;
      var before := CompactIds(acc, ids[..k], now);
      CompactIdsMeaning(acc, ids[..k], now, id, cutoff);
      SlotFromAppend(NO_SLOT, before, CompactSlot(ids[k], ViewOf(acc, ids[k]), now), id, cutoff);
      CompactSlotMeaning(SlotOf(before, id, cutoff), ids[k], ViewOf(acc, ids[k]), now, id, cutoff);
      assert ids == ids[..k] + [ids[k]];
    }
  }

  lemma AfterCompactionKeys(v: SlotView, now: U64)
    ensures AfterCompaction(v, now).live.Keys == v.live.Keys
  {
    assert forall n: U64 :: n in Asc64(v.live.Keys) <==> n in v.live.Keys;
  }

  lemma CompactLogMeaning(rs: seq<Rec>, id: U32, cutoff: I64, now: U64, later: I64)
    requires !Expired(now, later)
    ensures SlotOf(CompactLog(rs, cutoff, now), id, later) == AfterCompaction(SlotOf(rs, id, cutoff), now)
  {
    var acc := FoldScan(rs, cutoff);
    ScanMeaning(rs, id, cutoff);
    CompactIdsMeaning(acc, Asc32(acc.slots.Keys), now, id, later);
    assert id in Asc32(acc.slots.Keys) <==> id in acc.slots.Keys;
  }

  // ---- Meaning under continuation ----

  lemma {:induction false} ContinuationKeepsSeqs(a: SlotView, b: SlotView, suf: seq<Rec>, id: U32, cutoff: I64)
    requires a.live.Keys == b.live.Keys
    ensures SlotFrom(a, suf, id, cutoff).live.Keys == SlotFrom(b, suf, id, cutoff).live.Keys
  {
    if suf != [] {
      ContinuationKeepsSeqs(a, b, suf[..|suf| - 1], id, cutoff);
    }
  }

  lemma {:induction false} ContinuationKeepsNames(a: SlotView, b: SlotView, suf: seq<Rec>, id: U32, cutoff: I64)
    requires a.name == b.name
    ensures SlotFrom(a, suf, id, cutoff).name == SlotFrom(b, suf, id, cutoff).name
  {
    if suf != [] {
      ContinuationKeepsNames(a, b, suf[..|suf| - 1], id, cutoff);
    }
  }

  // Whatever is appended afterwards, the compacted log and the original give
  // every slot the same live seqs, and the same name to every slot that was
  // registered and not empty when compaction ran.
  lemma CompactionPreservesMeaning(rs: seq<Rec>, suf: seq<Rec>, id: U32, cutoff: I64, now: U64)
    requires !Expired(now, cutoff)
    ensures var was, now' := SlotOf(rs + suf, id, cutoff), SlotOf(CompactLog(rs, cutoff, now) + suf, id, cutoff);
            && now'.live.Keys == was.live.Keys
            && (SlotOf(rs, id, cutoff).name.Some? && SlotOf(rs, id, cutoff).live != map[] ==> now'.name == was.name)
  {
    var a, b := SlotOf(rs, id, cutoff), SlotOf(CompactLog(rs, cutoff, now), id, cutoff);
    CompactLogMeaning(rs, id, cutoff, now, cutoff);
    AfterCompactionKeys(a, now);
    SlotFromAppend(NO_SLOT, rs, suf, id, cutoff);
    SlotFromAppend(NO_SLOT, CompactLog(rs, cutoff, now), suf, id, cutoff);
    ContinuationKeepsSeqs(a, b, suf, id, cutoff);
    if a.name == b.name {
      ContinuationKeepsNames(a, b, suf, id, cutoff);
    }
  }

  lemma {:induction false} MoreExpiredIsSubset(a: SlotView, b: SlotView, rs: seq<Rec>, id: U32, early: I64, late: I64)
    requires early <= late && b.live.Keys <= a.live.Keys
    ensures SlotFrom(b, rs, id, late).live.Keys <= SlotFrom(a, rs, id, early).live.Keys
  {
    if rs != [] {
      MoreExpiredIsSubset(a, b, rs[..|rs| - 1], id, early, late);
    }
  }

  lemma {:induction false} ContinuationKeepsSubset(a: SlotView, b: SlotView, suf: seq<Rec>, id: U32, cutoff: I64)
    requires b.live.Keys <= a.live.Keys
    ensures SlotFrom(b, suf, id, cutoff).live.Keys <= SlotFrom(a, suf, id, cutoff).live.Keys
  {
    MoreExpiredIsSubset(a, b, suf, id, cutoff, cutoff);
  }

  // A reopen later than the compaction, with the cutoff moved on, still finds
  // every seq the original log would have given it: compaction restamps
  // entries, so it can only delay their expiry.
  lemma CompactionNeverForgets(rs: seq<Rec>, suf: seq<Rec>, id: U32, cutoff: I64, now: U64, later: I64)
    requires cutoff <= later && !Expired(now, later)
    ensures SlotOf(rs + suf, id, later).live.Keys
            <= SlotOf(CompactLog(rs, cutoff, now) + suf, id, later).live.Keys
  {
    CompactLogMeaning(rs, id, cutoff, now, later);
    AfterCompactionKeys(SlotOf(rs, id, cutoff), now);
    MoreExpiredIsSubset(NO_SLOT, NO_SLOT, rs, id, cutoff, later);
    SlotFromAppend(NO_SLOT, rs, suf, id, later);
    SlotFromAppend(NO_SLOT, CompactLog(rs, cutoff, now), suf, id, later);
    ContinuationKeepsSubset(SlotOf(CompactLog(rs, cutoff, now), id, later), SlotOf(rs, id, later), suf, id, later);
  }

  ghost predicate SameRecovered(a: seq<Rec>, b: seq<Rec>, id: U32, cutoff: I64) {
    match (Recovered(a, id, cutoff), Recovered(b, id, cutoff))
    case (None, None) => true
    case (Some(x), Some(y)) => x.0 == y.0 && x.1.Keys == y.1.Keys
    case _ => false
  }

  lemma RecoveredAlike(rs: seq<Rec>, suf: seq<Rec>, id: U32, cutoff: I64, now: U64)
    requires !Expired(now, cutoff)
    requires var v := SlotOf(rs, id, cutoff); v.name.Some? <==> v.live != map[]
    ensures SameRecovered(CompactLog(rs, cutoff, now) + suf, rs + suf, id, cutoff)
  {
    var c := CompactLog(rs, cutoff, now);
    var a, b := SlotOf(rs, id, cutoff), SlotOf(c, id, cutoff);
    CompactLogMeaning(rs, id, cutoff, now, cutoff);
    CompactionPreservesMeaning(rs, suf, id, cutoff, now);
    SlotFromAppend(NO_SLOT, rs, suf, id, cutoff);
    SlotFromAppend(NO_SLOT, c, suf, id, cutoff);
    ContinuationKeepsNames(a, b, suf, id, cutoff);
    RecoveredIsMeaning(c + suf, id, cutoff);
    RecoveredIsMeaning(rs + suf, id, cutoff);
  }

  // A slot is recovered as before under every continuation exactly if it was
  // registered just when it held something. The Register of an empty slot is
  // dropped, and what is appended for it later is then skipped; a slot that
  // held seqs and was never registered is written under two empty names.
  lemma CompactionKeepsSlotIff(rs: seq<Rec>, id: U32, cutoff: I64, now: U64)
    requires !Expired(now, cutoff)
    ensures (SlotOf(rs, id, cutoff).name.Some? <==> SlotOf(rs, id, cutoff).live != map[])
            <==> forall suf :: SameRecovered(CompactLog(rs, cutoff, now) + suf, rs + suf, id, cutoff)
  {
    var c, v := CompactLog(rs, cutoff, now), SlotOf(rs, id, cutoff);
    if v.name.Some? <==> v.live != map[] {
      forall suf
        ensures SameRecovered(c + suf, rs + suf, id, cutoff)
      {
        RecoveredAlike(rs, suf, id, cutoff, now);
      }
    } else {
      CompactLogMeaning(rs, id, cutoff, now, cutoff);
      RecoveredIsMeaning(c, id, cutoff);
      RecoveredIsMeaning(rs, id, cutoff);
      assert c + [] == c && rs + [] == rs;
      assert !SameRecovered(c + [], rs + [], id, cutoff);
    }
  }

  lemma ScanOfOne(id: U32, t: U64, n: U64, reg: Rec)
    requires reg.Register? && reg.slot == id
    ensures FoldScan([reg, SeqOp(Record, id, t, n)], 0)
            == Acc(map[id := Rebuild(None, map[n := AsI64(t)])], map[id := Names(reg.stream, reg.consumer)])
  {
    assert [reg, SeqOp(Record, id, t, n)][..1] == [reg] && [reg][..0] == [];
    assert FoldScan([reg], 0) == Acc(map[id := Rebuild(None, map[])], map[id := Names(reg.stream, reg.consumer)]);
  }

  lemma CompactOfOne(acc: Acc, id: U32, now: U64)
    requires acc.slots.Keys == {id}
    ensures Asc32(acc.slots.Keys) == [id] && Compacted(acc, now) == CompactSlot(id, ViewOf(acc, id), now)
  {
    var ids := Asc32(acc.slots.Keys);
    assert forall i: U32 :: i in ids <==> i in acc.slots.Keys;
    assert ids == [id] by {
      assert |ids| == 1 && ids[0] in ids;
    }
    assert ids[..0] == [];
    assert CompactIds(acc, [], now) == [];
    assert CompactIds(acc, ids, now) == [] + CompactSlot(id, ViewOf(acc, id), now);
  }

  // The seqs such a slot records afterwards are inherited by whichever slot is
  // next registered under its id.
  lemma OrphansAreInherited(id: U32, n: U64, t: U64, other: Names)
    ensures var log := [Register(id, t, [0x61], [0x62]), SeqOp(Record, id, t, n), SeqOp(Confirm, id, t, n)];
            var after := CompactLog(log, 0, t) + [SeqOp(Record, id, t, n)];
            && after == [SeqOp(Record, id, t, n)]
            && Recovered(after, id, 0) == None
            && Recovered(after + [Register(id, t, other.stream, other.consumer)], id, 0)
               == Some((other, map[n := AsI64(t)]))
  {
    var reg0 := Register(id, t, [0x61], [0x62]);
    var rec := SeqOp(Record, id, t, n);
    var log := [reg0, rec, SeqOp(Confirm, id, t, n)];
    assert log[..2] == [reg0, rec];
    ScanOfOne(id, t, n, reg0);
    assert FoldScan(log, 0) == ApplyScan(FoldScan([reg0, rec], 0), log[2], 0);
    CompactOfOne(FoldScan(log, 0), id, t);
    assert CompactLog(log, 0, t) == [];
    var after := CompactLog(log, 0, t) + [rec];
    assert after == [rec] && after[..0] == [];
    var reg := Register(id, t, other.stream, other.consumer);
    assert (after + [reg])[..1] == after;
    SlotOfSnoc([], rec, id, 0);
    assert [] + [rec] == after;
    assert SlotOf(after, id, 0) == SlotView(map[n := AsI64(t)], None);
    RecoveredIsMeaning(after, id, 0);
    RecoveredIsMeaning(after + [reg], id, 0);
  }

  // ---- Size ----

  lemma {:induction false} LogBytesAppend(a: seq<Rec>, b: seq<Rec>)
    ensures LogBytes(a + b) == LogBytes(a) + LogBytes(b)
    decreases |b|
  {
    if b == [] {
      assert a + b == a;
    } else {
      assert (a + b)[..|a + b| - 1] == a + b[..|b| - 1];
      LogBytesAppend(a, b[..|b| - 1]);
    }
  }

  function SlotCost(v: SlotView): nat {
    if v.live == map[] then 0
    else 66 + |NameOr(v).stream| + |NameOr(v).consumer| + 8 * |v.live|
  }

  function TotalCost(acc: Acc, ids: seq<U32>): nat {
    if ids == [] then 0
    else TotalCost(acc, ids[..|ids| - 1]) + SlotCost(ViewOf(acc, ids[|ids| - 1]))
  }

  // The compacted records span exactly 66 bytes, the names, and eight bytes a
  // seq, for each non-empty slot.
  lemma {:induction false} CompactedSize(acc: Acc, ids: seq<U32>, now: U64)
    ensures LogBytes(CompactIds(acc, ids, now)) == TotalCost(acc, ids)
  {
    if ids != [] {
      var k := |ids| - 1;
      CompactedSize(acc, ids[..k], now);
      var v := ViewOf(acc, ids[k]);
      var part := CompactSlot(ids[k], v, now);
      LogBytesAppend(CompactIds(acc, ids[..k], now), part);
      if v.live != map[] {
        TwoRecords(NO_SLOT, part[0], part[1], 0, 0);
        assert |v.live.Keys| == |v.live|;
      }
    }
  }

  function Potential(n: nat): nat {
    if 29 * n <= 41 + 8 * n then 29 * n else 41 + 8 * n
  }

  function NameCost(v: SlotView): nat {
    match v.name
    case None => 0
    case Some(nm) => 25 + |nm.stream| + |nm.consumer|
  }

  lemma SubsetCard(a: set<U64>, b: set<U64>)
    requires a <= b
    ensures |a| <= |b|
  {
    assert b == a + (b - a);
  }

  lemma {:induction false} StampedCard(seqs: seq<U64>, ts: I64)
    ensures |Stamped(seqs, ts)| <= |seqs|
  {
    if seqs == [] {
      assert Stamped(seqs, ts) == map[];
    } else {
      var k := |seqs| - 1;
      StampedCard(seqs[..k], ts);
      assert seqs == seqs[..k] + [seqs[k]];
      assert Stamped(seqs, ts) == Stamped(seqs[..k], ts)[seqs[k] := ts];
    }
  }

  lemma StepCard(v: SlotView, r: Rec, id: U32, cutoff: I64)
    ensures var n, n' := |v.live|, |StepSlot(v, r, id, cutoff).live|;
            || n' <= n
            || (r.slot == id && IsRecord(r) && n' <= n + 1)
            || (r.slot == id && r.Snapshot? && n' <= |r.seqs|)
  {
    var v' := StepSlot(v, r, id, cutoff);
    if r.slot == id && r.Snapshot? {
      StampedCard(r.seqs, AsI64(r.ts));
    } else if v'.live.Keys <= v.live.Keys {
      SubsetCard(v'.live.Keys, v.live.Keys);
      assert |v'.live.Keys| == |v'.live| && |v.live.Keys| == |v.live|;
    }
  }

  // The bytes a slot wrote pay for its name and for its live seqs: a seq came
  // from a 29-byte Record or from a Snapshot of 41 bytes and 8 a seq.
  lemma {:induction false} WrittenBytesPay(rs: seq<Rec>, id: U32, cutoff: I64)
    ensures var v := SlotOf(rs, id, cutoff);
            LogBytes(Project(rs, id)) >= NameCost(v) + Potential(|v.live|)
  {
    if rs != [] {
      var k := |rs| - 1;
      WrittenBytesPay(rs[..k], id, cutoff);
      StepCard(SlotOf(rs[..k], id, cutoff), rs[k], id, cutoff);
      if rs[k].slot == id {
        LogBytesAppend(Project(rs[..k], id), [rs[k]]);
        assert [rs[k]][..0] == [];
      } else {
        assert Project(rs, id) == Project(rs[..k], id);
      }
    }
  }

  function WrittenBy(rs: seq<Rec>, ids: seq<U32>): nat {
    if ids == [] then 0 else WrittenBy(rs, ids[..|ids| - 1]) + LogBytes(Project(rs, ids[|ids| - 1]))
  }

  lemma {:induction false} WrittenByStep(rs: seq<Rec>, r: Rec, ids: seq<U32>)
    requires Ascending(ids)
    ensures WrittenBy(rs + [r], ids) == WrittenBy(rs, ids) + (if r.slot in ids then 8 + PayloadSize(r) else 0)
  {
    if ids != [] {
      var k := |ids| - 1;
      WrittenByStep(rs, r, ids[..k]);
      assert (rs + [r])[..|rs|] == rs;
      assert ids == ids[..k] + [ids[k]];
      if r.slot == ids[k] {
        LogBytesAppend(Project(rs, ids[k]), [r]);
        assert [r][..0] == [];
      } else {
        assert Project(rs + [r], ids[k]) == Project(rs, ids[k]);
      }
    }
  }

  lemma {:induction false} WrittenByNone(ids: seq<U32>)
    ensures WrittenBy([], ids) == 0
  {
    if ids != [] {
      WrittenByNone(ids[..|ids| - 1]);
    }
  }

  // Distinct slots wrote disjoint parts of the log.
  lemma {:induction false} WrittenByIsPart(rs: seq<Rec>, ids: seq<U32>)
    requires Ascending(ids)
    ensures WrittenBy(rs, ids) <= LogBytes(rs)
  {
    if rs == [] {
      WrittenByNone(ids);
    } else {
      var k := |rs| - 1;
      WrittenByIsPart(rs[..k], ids);
      WrittenByStep(rs[..k], rs[k], ids);
      assert rs == rs[..k] + [rs[k]];
    }
  }

  function Singles(acc: Acc, ids: seq<U32>): nat {
    if ids == [] then 0
    else Singles(acc, ids[..|ids| - 1]) + (if |ViewOf(acc, ids[|ids| - 1]).live| == 1 then 1 else 0)
  }

  predicate NonEmptyAreNamed(acc: Acc, ids: seq<U32>) {
    forall i :: 0 <= i < |ids| ==> ViewOf(acc, ids[i]).live == map[] || ViewOf(acc, ids[i]).name.Some?
  }

  lemma {:induction false} CostWithinWritten(rs: seq<Rec>, ids: seq<U32>, cutoff: I64)
    requires NonEmptyAreNamed(FoldScan(rs, cutoff), ids)
    ensures TotalCost(FoldScan(rs, cutoff), ids) <= WrittenBy(rs, ids) + 20 * Singles(FoldScan(rs, cutoff), ids)
  {
    if ids != [] {
      var k := |ids| - 1;
      var acc := FoldScan(rs, cutoff);
      assert forall i :: 0 <= i < k ==> ids[..k][i] == ids[i];
      CostWithinWritten(rs, ids[..k], cutoff);
      WrittenBytesPay(rs, ids[k], cutoff);
      ScanMeaning(rs, ids[k], cutoff);
      var v := ViewOf(acc, ids[k]);
      assert |v.live| == 0 <==> v.live == map[];
    }
  }

  // Compaction never grows a log of registered slots, except by up to 20 bytes
  // for each slot left holding exactly one seq.
  lemma CompactionSizeBound(rs: seq<Rec>, cutoff: I64, now: U64)
    requires NonEmptyAreNamed(FoldScan(rs, cutoff), Asc32(FoldScan(rs, cutoff).slots.Keys))
    ensures var acc := FoldScan(rs, cutoff);
            LogBytes(CompactLog(rs, cutoff, now)) <= LogBytes(rs) + 20 * Singles(acc, Asc32(acc.slots.Keys))
  {
    var acc := FoldScan(rs, cutoff);
    var ids := Asc32(acc.slots.Keys);
    CompactedSize(acc, ids, now);
    CostWithinWritten(rs, ids, cutoff);
    WrittenByIsPart(rs, ids);
  }

  // The 20 bytes are reached: a single recorded seq compacts to 20 bytes more.
  lemma SizeBoundIsTight(id: U32, t: U64, n: U64)
    ensures var log := [Register(id, t, [], []), SeqOp(Record, id, t, n)];
            LogBytes(CompactLog(log, 0, t)) == LogBytes(log) + 20
  {
    var log := [Register(id, t, [], []), SeqOp(Record, id, t, n)];
    ScanOfOne(id, t, n, log[0]);
    TwoRecords(NO_SLOT, log[0], log[1], id, 0);
    var acc := FoldScan(log, 0);
    CompactOfOne(acc, id, t);
    CompactedSize(acc, [id], t);
    assert [id][..0] == [];
  }
}
