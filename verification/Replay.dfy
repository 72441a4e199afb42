// What a log means: the two folds that rebuild slots from records, and the
// per-slot meaning both of them have.
module Replay {
  import opened Bytes
  import opened Format

  type Live = map<U64, I64>
  datatype Names = Names(stream: Name, consumer: Name)

  // One slot under reconstruction; `registered` is when its handle was made.
  datatype Rebuild = Rebuild(registered: Option<U64>, live: Live)
  datatype Acc = Acc(slots: map<U32, Rebuild>, names: map<U32, Names>)

  const EMPTY_ACC := Acc(map[], map[])

  predicate Expired(ts: U64, cutoff: I64) {
    cutoff > 0 && AsI64(ts) < cutoff
  }

  function DropUpTo(live: Live, cursor: U64): Live {
    live - (set n | n in live && n <= cursor)
  }

  function Stamped(seqs: seq<U64>, ts: I64): (live: Live)
    ensures forall n :: n in live <==> n in seqs
    ensures forall n :: n in live ==> live[n] == ts
  {
    if seqs == [] then map[] else Stamped(seqs[..|seqs| - 1], ts)[seqs[|seqs| - 1] := ts]
  }

  function Ensure(acc: Acc, id: U32): Rebuild {
    if id in acc.slots then acc.slots[id] else Rebuild(None, map[])
  }

  function SetLive(acc: Acc, id: U32, live: Live): Acc {
    acc.(slots := acc.slots[id := Ensure(acc, id).(live := live)])
  }

  function Forget(acc: Acc, id: U32): Acc {
    Acc(acc.slots - {id}, acc.names - {id})
  }

  // The fold replay runs when the log is opened.
  function ApplyReplay(acc: Acc, r: Rec, cutoff: I64): Acc {
    var rs := Ensure(acc, r.slot);
    match r
    case Register(id, ts, stream, consumer) =>
      var rs' := if rs.registered.None? then rs.(registered := Some(ts)) else rs;
      Acc(acc.slots[id := rs'], acc.names[id := Names(stream, consumer)])
    case SeqOp(Record, id, ts, n) =>
      if Expired(ts, cutoff) then acc else SetLive(acc, id, rs.live[n := AsI64(ts)])
    case SeqOp(Confirm, id, _, n) => SetLive(acc, id, rs.live - {n})
    case SeqOp(Expire, id, _, n) => SetLive(acc, id, rs.live - {n})
    case SeqOp(ConfirmUpTo, id, _, n) => SetLive(acc, id, DropUpTo(rs.live, n))
    case Tombstone(id, _) => Forget(acc, id)
    case Snapshot(id, ts, _, _, seqs) =>
      SetLive(acc, id, if Expired(ts, cutoff) then map[] else Stamped(seqs, AsI64(ts)))
  }

  // The fold compaction runs over the same file. It never marks a slot as
  // registered; the names alone say which are.
  function ApplyScan(acc: Acc, r: Rec, cutoff: I64): Acc {
    var rs := Ensure(acc, r.slot);
    match r
    case Register(id, _, stream, consumer) =>
      Acc(acc.slots[id := rs], acc.names[id := Names(stream, consumer)])
    case SeqOp(Record, id, ts, n) =>
      if Expired(ts, cutoff) then acc else SetLive(acc, id, rs.live[n := AsI64(ts)])
    case SeqOp(op, id, _, n) =>
      SetLive(acc, id, if op == ConfirmUpTo then DropUpTo(rs.live, n) else rs.live - {n})
    case Tombstone(id, _) => Forget(acc, id)
    case Snapshot(id, ts, _, _, seqs) =>
      SetLive(acc, id, if Expired(ts, cutoff) then map[] else Stamped(seqs, AsI64(ts)))
  }

  function FoldReplay(rs: seq<Rec>, cutoff: I64): Acc {
    if rs == [] then EMPTY_ACC
    else ApplyReplay(FoldReplay(rs[..|rs| - 1], cutoff), rs[|rs| - 1], cutoff)
  }

  function FoldScan(rs: seq<Rec>, cutoff: I64): Acc {
    if rs == [] then EMPTY_ACC
    else ApplyScan(FoldScan(rs[..|rs| - 1], cutoff), rs[|rs| - 1], cutoff)
  }

  // ---- The meaning of a log for one slot ----

  datatype SlotView = SlotView(live: Live, name: Option<Names>)

  const NO_SLOT := SlotView(map[], None)

  function StepSlot(v: SlotView, r: Rec, id: U32, cutoff: I64): SlotView {
    if r.slot != id then v
    else match r
      case Register(_, _, stream, consumer) => v.(name := Some(Names(stream, consumer)))
      case SeqOp(Record, _, ts, n) =>
        if Expired(ts, cutoff) then v else v.(live := v.live[n := AsI64(ts)])
      case SeqOp(ConfirmUpTo, _, _, n) => v.(live := DropUpTo(v.live, n))
      case SeqOp(_, _, _, n) => v.(live := v.live - {n})
      case Tombstone(_, _) => NO_SLOT
      case Snapshot(_, ts, _, _, seqs) =>
        v.(live := if Expired(ts, cutoff) then map[] else Stamped(seqs, AsI64(ts)))
  }

  function SlotFrom(v: SlotView, rs: seq<Rec>, id: U32, cutoff: I64): SlotView {
    if rs == [] then v
    else StepSlot(SlotFrom(v, rs[..|rs| - 1], id, cutoff), rs[|rs| - 1], id, cutoff)
  }

  function SlotOf(rs: seq<Rec>, id: U32, cutoff: I64): SlotView {
    SlotFrom(NO_SLOT, rs, id, cutoff)
  }

  lemma {:induction false} SlotFromAppend(v: SlotView, a: seq<Rec>, b: seq<Rec>, id: U32, cutoff: I64)
    ensures SlotFrom(v, a + b, id, cutoff) == SlotFrom(SlotFrom(v, a, id, cutoff), b, id, cutoff)
    decreases |b|
  {
    if b == [] {
      assert a + b == a;
    } else {
      assert (a + b)[..|a + b| - 1] == a + b[..|b| - 1];
      SlotFromAppend(v, a, b[..|b| - 1], id, cutoff);
    }
  }

  lemma SlotOfSnoc(rs: seq<Rec>, r: Rec, id: U32, cutoff: I64)
    ensures SlotOf(rs + [r], id, cutoff) == StepSlot(SlotOf(rs, id, cutoff), r, id, cutoff)
  {
    assert (rs + [r])[..|rs|] == rs;
  }

  function ViewOf(acc: Acc, id: U32): SlotView {
    SlotView(Ensure(acc, id).live, if id in acc.names then Some(acc.names[id]) else None)
  }

  predicate NamedIffRegistered(acc: Acc, id: U32) {
    id in acc.names <==> id in acc.slots && acc.slots[id].registered.Some?
  }

  lemma ReplayStep(acc: Acc, r: Rec, id: U32, cutoff: I64)
    requires NamedIffRegistered(acc, id)
    ensures ViewOf(ApplyReplay(acc, r, cutoff), id) == StepSlot(ViewOf(acc, id), r, id, cutoff)
    ensures NamedIffRegistered(ApplyReplay(acc, r, cutoff), id)
  {
  }

  lemma ScanStep(acc: Acc, r: Rec, id: U32, cutoff: I64)
    ensures ViewOf(ApplyScan(acc, r, cutoff), id) == StepSlot(ViewOf(acc, id), r, id, cutoff)
  {
  }

  // Both folds give every slot its own meaning; replay has made a handle for a
  // slot exactly when the slot has a name.
  lemma {:induction false} ReplayMeaning(rs: seq<Rec>, id: U32, cutoff: I64)
    ensures ViewOf(FoldReplay(rs, cutoff), id) == SlotOf(rs, id, cutoff)
    ensures NamedIffRegistered(FoldReplay(rs, cutoff), id)
  {
    if rs != [] {
      ReplayMeaning(rs[..|rs| - 1], id, cutoff);
      ReplayStep(FoldReplay(rs[..|rs| - 1], cutoff), rs[|rs| - 1], id, cutoff);
    }
  }

  lemma {:induction false} ScanMeaning(rs: seq<Rec>, id: U32, cutoff: I64)
    ensures ViewOf(FoldScan(rs, cutoff), id) == SlotOf(rs, id, cutoff)
  {
    if rs != [] {
      ScanMeaning(rs[..|rs| - 1], id, cutoff);
      ScanStep(FoldScan(rs[..|rs| - 1], cutoff), rs[|rs| - 1], id, cutoff);
    }
  }

  // The two folds, written separately, agree on every slot and every name.
  lemma FoldsAgree(rs: seq<Rec>, cutoff: I64)
    ensures forall id: U32 :: ViewOf(FoldReplay(rs, cutoff), id) == ViewOf(FoldScan(rs, cutoff), id)
    ensures FoldReplay(rs, cutoff).names == FoldScan(rs, cutoff).names
  {
    forall id: U32
      ensures ViewOf(FoldReplay(rs, cutoff), id) == ViewOf(FoldScan(rs, cutoff), id)
    {
      ReplayMeaning(rs, id, cutoff);
      ScanMeaning(rs, id, cutoff);
    }
    var a, b := FoldReplay(rs, cutoff), FoldScan(rs, cutoff);
    forall id: U32
      ensures id in a.names <==> id in b.names
      ensures id in a.names ==> a.names[id] == b.names[id]
    {
      assert ViewOf(a, id) == ViewOf(b, id);
    }
  }

  // ---- What a reopened store holds ----

  // A slot that was never registered is skipped when handles are made.
  function Recovered(rs: seq<Rec>, id: U32, cutoff: I64): Option<(Names, Live)> {
    var acc := FoldReplay(rs, cutoff);
    if id in acc.slots && acc.slots[id].registered.Some? && id in acc.names then
      Some((acc.names[id], acc.slots[id].live))
    else None
  }

  lemma RecoveredIsMeaning(rs: seq<Rec>, id: U32, cutoff: I64)
    ensures var v := SlotOf(rs, id, cutoff);
            Recovered(rs, id, cutoff) == if v.name.Some? then Some((v.name.value, v.live)) else None
  {
    ReplayMeaning(rs, id, cutoff);
  }

  // ---- Slots do not interfere ----

  function Project(rs: seq<Rec>, id: U32): seq<Rec> {
    if rs == [] then []
    else Project(rs[..|rs| - 1], id) + (if rs[|rs| - 1].slot == id then [rs[|rs| - 1]] else [])
  }

  lemma {:induction false} SlotDependsOnItsRecords(rs: seq<Rec>, id: U32, cutoff: I64)
    ensures SlotOf(rs, id, cutoff) == SlotOf(Project(rs, id), id, cutoff)
  {
    if rs != [] {
      var k := |rs| - 1;
      SlotDependsOnItsRecords(rs[..k], id, cutoff);
      if rs[k].slot == id {
        SlotOfSnoc(Project(rs[..k], id), rs[k], id, cutoff);
      } else {
        assert Project(rs, id) == Project(rs[..k], id);
      }
    }
  }

  // Two logs in which every slot wrote the same records in the same order are
  // recovered to the same store, however the slots' appends were interleaved.
  lemma InterleavingIsIrrelevant(a: seq<Rec>, b: seq<Rec>, cutoff: I64)
    requires forall id: U32 :: Project(a, id) == Project(b, id)
    ensures forall id: U32 :: Recovered(a, id, cutoff) == Recovered(b, id, cutoff)
  {
    forall id: U32
      ensures Recovered(a, id, cutoff) == Recovered(b, id, cutoff)
    {
      assert Project(a, id) == Project(b, id);
      SlotDependsOnItsRecords(a, id, cutoff);
      SlotDependsOnItsRecords(b, id, cutoff);
      RecoveredIsMeaning(a, id, cutoff);
      RecoveredIsMeaning(b, id, cutoff);
    }
  }

  // Running one slot's steps with another name only changes the name, up to
  // the first Register or Tombstone of that slot.
  lemma {:induction false} NameRidesAlong(v: SlotView, nm: Option<Names>, rs: seq<Rec>, id: U32, cutoff: I64)
    requires forall i :: 0 <= i < |rs| && rs[i].slot == id ==> !rs[i].Register? && !rs[i].Tombstone?
    ensures SlotFrom(v.(name := nm), rs, id, cutoff) == SlotFrom(v, rs, id, cutoff).(name := nm)
  {
    if rs != [] {
      var k := |rs| - 1;
      NameRidesAlong(v, nm, rs[..k], id, cutoff);
      assert rs[k].slot == id ==> !rs[k].Register? && !rs[k].Tombstone?;
    }
  }

  // A Register that reaches the log only after the slot's first records
  // recovers the same store as one that came before them.
  lemma LateRegister(pre: seq<Rec>, reg: Rec, mid: seq<Rec>, post: seq<Rec>, id: U32, cutoff: I64)
    requires reg.Register?
    requires forall i :: 0 <= i < |mid| && mid[i].slot == reg.slot ==> !mid[i].Register? && !mid[i].Tombstone?
    ensures Recovered(pre + ([reg] + mid) + post, id, cutoff) == Recovered(pre + (mid + [reg]) + post, id, cutoff)
  {
    var v := SlotOf(pre, id, cutoff);
    SlotFromAppend(NO_SLOT, pre, [reg] + mid, id, cutoff);
    SlotFromAppend(NO_SLOT, pre + ([reg] + mid), post, id, cutoff);
    SlotFromAppend(v, [reg], mid, id, cutoff);
    SlotFromAppend(NO_SLOT, pre, mid + [reg], id, cutoff);
    SlotFromAppend(NO_SLOT, pre + (mid + [reg]), post, id, cutoff);
    SlotFromAppend(v, mid, [reg], id, cutoff);
    assert [reg][..0] == [];
    if id == reg.slot {
      NameRidesAlong(v, Some(Names(reg.stream, reg.consumer)), mid, id, cutoff);
    }
    RecoveredIsMeaning(pre + ([reg] + mid) + post, id, cutoff);
    RecoveredIsMeaning(pre + (mid + [reg]) + post, id, cutoff);
  }

  // ---- When a seq is live, read off the log ----

  predicate Adds(r: Rec, id: U32, n: U64, cutoff: I64) {
    r.slot == id && !Expired(r.ts, cutoff)
    && ((IsRecord(r) && r.n == n) || (r.Snapshot? && n in r.seqs))
  }

  predicate Drops(r: Rec, id: U32, n: U64, cutoff: I64) {
    r.slot == id
    && match r
       case Register(_, _, _, _) => false
       case SeqOp(Record, _, _, _) => false
       case SeqOp(ConfirmUpTo, _, _, c) => n <= c
       case SeqOp(_, _, _, m) => n == m
       case Tombstone(_, _) => true
       case Snapshot(_, ts, _, _, seqs) => n !in seqs || Expired(ts, cutoff)
  }

  ghost predicate LiveSince(rs: seq<Rec>, id: U32, n: U64, cutoff: I64, i: int) {
    0 <= i < |rs| && Adds(rs[i], id, n, cutoff)
    && forall j :: i < j < |rs| ==> !Drops(rs[j], id, n, cutoff)
  }

  // A seq is live exactly when some record of its slot added it and no later
  // one dropped it.
  lemma {:induction false} LiveIffAddedAndKept(rs: seq<Rec>, id: U32, n: U64, cutoff: I64)
    ensures n in SlotOf(rs, id, cutoff).live <==> exists i :: LiveSince(rs, id, n, cutoff, i)
  {
    if rs != [] {
      var k := |rs| - 1;
      var r := rs[k];
      LiveIffAddedAndKept(rs[..k], id, n, cutoff);
      if n in SlotOf(rs, id, cutoff).live {
        if Adds(r, id, n, cutoff) {
          assert LiveSince(rs, id, n, cutoff, k);
        } else {
          var i :| LiveSince(rs[..k], id, n, cutoff, i);
          assert LiveSince(rs, id, n, cutoff, i);
        }
      }
      if i :| LiveSince(rs, id, n, cutoff, i) {
        if i < k {
          assert LiveSince(rs[..k], id, n, cutoff, i);
          assert !Drops(r, id, n, cutoff);
        }
      }
    }
  }

  // The last record to add the seq, with none after that dropped it.
  ghost predicate AddedLast(rs: seq<Rec>, id: U32, n: U64, cutoff: I64, i: int) {
    LiveSince(rs, id, n, cutoff, i) && forall j :: i < j < |rs| ==> !Adds(rs[j], id, n, cutoff)
  }

  lemma StepDates(v: SlotView, r: Rec, id: U32, n: U64, cutoff: I64)
    ensures var v' := StepSlot(v, r, id, cutoff);
            n in v'.live ==>
              if Adds(r, id, n, cutoff) then v'.live[n] == AsI64(r.ts)
              else n in v.live && !Drops(r, id, n, cutoff) && v'.live[n] == v.live[n]
  {
  }

  // A live seq is dated by the last record that added it.
  lemma {:induction false} DatedByLastAdd(rs: seq<Rec>, id: U32, n: U64, cutoff: I64) returns (i: nat)
    requires n in SlotOf(rs, id, cutoff).live
    ensures AddedLast(rs, id, n, cutoff, i) && SlotOf(rs, id, cutoff).live[n] == AsI64(rs[i].ts)
  {
    var k := |rs| - 1;
    StepDates(SlotOf(rs[..k], id, cutoff), rs[k], id, n, cutoff);
    if Adds(rs[k], id, n, cutoff) {
      i := k;
    } else {
      i := DatedByLastAdd(rs[..k], id, n, cutoff);
      assert forall j :: 0 <= j < k ==> rs[..k][j] == rs[j];
    }
  }

  // What is live stays so under later records unless one of them drops it.
  lemma {:induction false} StaysUnlessDropped(v: SlotView, rs: seq<Rec>, id: U32, n: U64, cutoff: I64)
    requires n in v.live
    ensures n in SlotFrom(v, rs, id, cutoff).live || exists j :: 0 <= j < |rs| && Drops(rs[j], id, n, cutoff)
  {
    if rs != [] {
      var k := |rs| - 1;
      StaysUnlessDropped(v, rs[..k], id, n, cutoff);
      if j :| 0 <= j < k && Drops(rs[..k][j], id, n, cutoff) {
        assert Drops(rs[j], id, n, cutoff);
      } else {
        assert Drops(rs[k], id, n, cutoff) || n in SlotFrom(v, rs, id, cutoff).live;
      }
    }
  }

  ghost predicate NamedSince(rs: seq<Rec>, id: U32, nm: Names, i: int) {
    0 <= i < |rs| && rs[i].Register? && rs[i].slot == id && Names(rs[i].stream, rs[i].consumer) == nm
    && forall j :: i < j < |rs| && rs[j].slot == id ==> !rs[j].Register? && !rs[j].Tombstone?
  }

  // A slot's name is that of its last Register, unless a Tombstone followed.
  lemma {:induction false} NameIffLastRegister(rs: seq<Rec>, id: U32, nm: Names, cutoff: I64)
    ensures SlotOf(rs, id, cutoff).name == Some(nm) <==> exists i :: NamedSince(rs, id, nm, i)
  {
    if rs != [] {
      var k := |rs| - 1;
      var r := rs[k];
      NameIffLastRegister(rs[..k], id, nm, cutoff);
      if SlotOf(rs, id, cutoff).name == Some(nm) {
        if r.slot == id && r.Register? {
          assert NamedSince(rs, id, nm, k);
        } else {
          var i :| NamedSince(rs[..k], id, nm, i);
          assert NamedSince(rs, id, nm, i);
        }
      }
      if i :| NamedSince(rs, id, nm, i) {
        if i < k {
          assert NamedSince(rs[..k], id, nm, i);
          assert r.slot == id ==> !r.Register? && !r.Tombstone?;
        }
      }
    }
  }

  // ---- Expiry while replaying ----

  function DropOld(live: Live, cutoff: I64): Live {
    if cutoff > 0 then live - (set n | n in live && live[n] < cutoff) else live
  }

  // A Record that moves a live seq's timestamp back below a positive one.
  predicate Backdates(v: SlotView, r: Rec, id: U32) {
    r.slot == id && IsRecord(r) && r.n in v.live
    && v.live[r.n] > 0 && AsI64(r.ts) < v.live[r.n]
  }

  ghost predicate NoBackdating(rs: seq<Rec>, id: U32) {
    forall i :: 0 <= i < |rs| ==> !Backdates(SlotOf(rs[..i], id, 0), rs[i], id)
  }

  ghost predicate ExpiryCommutes(rs: seq<Rec>, id: U32, cutoff: I64) {
    SlotOf(rs, id, cutoff).live == DropOld(SlotOf(rs, id, 0).live, cutoff)
  }

  lemma ExpiryStep(f: SlotView, u: SlotView, r: Rec, id: U32, cutoff: I64)
    requires f.live == DropOld(u.live, cutoff) && !Backdates(u, r, id)
    ensures StepSlot(f, r, id, cutoff).live == DropOld(StepSlot(u, r, id, 0).live, cutoff)
  {
  }

  lemma {:induction false} ExpiryCommutesForward(rs: seq<Rec>, id: U32, cutoff: I64)
    requires NoBackdating(rs, id)
    ensures ExpiryCommutes(rs, id, cutoff)
  {
    if rs != [] {
      var k := |rs| - 1;
      assert rs[..k] <= rs;
      forall i | 0 <= i < k
        ensures !Backdates(SlotOf(rs[..k][..i], id, 0), rs[..k][i], id)
      {
        assert rs[..k][..i] == rs[..i];
      }
      ExpiryCommutesForward(rs[..k], id, cutoff);
      ExpiryStep(SlotOf(rs[..k], id, cutoff), SlotOf(rs[..k], id, 0), rs[k], id, cutoff);
    }
  }

  // Dropping expired entries while replaying equals replaying everything and
  // dropping them afterwards, for every prefix and every cutoff, exactly when
  // no Record backdates a live seq.
  lemma TtlFilterCommutesIff(rs: seq<Rec>, id: U32)
    ensures NoBackdating(rs, id) <==>
            forall k: nat, c: I64 :: k <= |rs| ==> ExpiryCommutes(rs[..k], id, c)
  {
    if NoBackdating(rs, id) {
      forall k: nat, c: I64 | k <= |rs|
        ensures ExpiryCommutes(rs[..k], id, c)
      {
        forall i | 0 <= i < k
          ensures !Backdates(SlotOf(rs[..k][..i], id, 0), rs[..k][i], id)
        {
          assert rs[..k][..i] == rs[..i];
        }
        ExpiryCommutesForward(rs[..k], id, c);
      }
    } else {
      var i :| 0 <= i < |rs| && Backdates(SlotOf(rs[..i], id, 0), rs[i], id);
      BackdatingBreaks(rs[..i], rs[i], id);
      var c := SlotOf(rs[..i], id, 0).live[rs[i].n];
      assert rs[..i + 1] == rs[..i] + [rs[i]];
      assert !(ExpiryCommutes(rs[..i], id, c) && ExpiryCommutes(rs[..i + 1], id, c));
    }
  }

  lemma BackdatingBreaks(rs: seq<Rec>, r: Rec, id: U32)
    requires Backdates(SlotOf(rs, id, 0), r, id)
    ensures var c := SlotOf(rs, id, 0).live[r.n];
            !(ExpiryCommutes(rs, id, c) && ExpiryCommutes(rs + [r], id, c))
  {
    var c := SlotOf(rs, id, 0).live[r.n];
    SlotOfSnoc(rs, r, id, c);
    SlotOfSnoc(rs, r, id, 0);
    if ExpiryCommutes(rs, id, c) && ExpiryCommutes(rs + [r], id, c) {
      assert r.n in SlotOf(rs, id, c).live;
      assert r.n in SlotOf(rs + [r], id, c).live;
    }
  }

  predicate IsRecord(r: Rec) {
    r.SeqOp? && r.op == Record
  }

  // Every Record is stamped no earlier than all earlier records of its slot.
  predicate StampsAscend(rs: seq<Rec>, id: U32) {
    forall i, j :: 0 <= i < j < |rs| && rs[i].slot == id == rs[j].slot && IsRecord(rs[j]) ==>
      AsI64(rs[i].ts) <= AsI64(rs[j].ts)
  }

  lemma {:induction false} LiveStampIsLogged(rs: seq<Rec>, id: U32, n: U64, cutoff: I64) returns (i: nat)
    requires n in SlotOf(rs, id, cutoff).live
    ensures i < |rs| && rs[i].slot == id && AsI64(rs[i].ts) == SlotOf(rs, id, cutoff).live[n]
  {
    var k := |rs| - 1;
    if Adds(rs[k], id, n, cutoff) {
      i := k;
    } else {
      i := LiveStampIsLogged(rs[..k], id, n, cutoff);
    }
  }

  // A clock that never runs backwards is enough.
  lemma AscendingStampsCommute(rs: seq<Rec>, id: U32, cutoff: I64)
    requires StampsAscend(rs, id)
    ensures ExpiryCommutes(rs, id, cutoff)
  {
    forall j | 0 <= j < |rs|
      ensures !Backdates(SlotOf(rs[..j], id, 0), rs[j], id)
    {
      if Backdates(SlotOf(rs[..j], id, 0), rs[j], id) {
        var i := LiveStampIsLogged(rs[..j], id, rs[j].n, 0);
      }
    }
    ExpiryCommutesForward(rs, id, cutoff);
  }

  // With no hypothesis, filtering can only forget.
  lemma {:induction false} FilteredIsSubset(rs: seq<Rec>, id: U32, cutoff: I64)
    ensures SlotOf(rs, id, cutoff).live.Keys <= SlotOf(rs, id, 0).live.Keys
    ensures SlotOf(rs, id, cutoff).name == SlotOf(rs, id, 0).name
  {
    if rs != [] {
      FilteredIsSubset(rs[..|rs| - 1], id, cutoff);
    }
  }

  // The second view has whatever the first dates no earlier than its cutoff.
  ghost predicate Younger(v: SlotView, u: SlotView, late: I64) {
    forall n :: n in v.live && (late <= 0 || late <= v.live[n]) ==> n in u.live
  }

  lemma YoungerStep(v: SlotView, u: SlotView, r: Rec, id: U32, early: I64, late: I64)
    requires Younger(v, u, late)
    ensures Younger(StepSlot(v, r, id, early), StepSlot(u, r, id, late), late)
  {
  }

  // A seq is recovered with every cutoff it is not older than, whatever cutoff
  // it was dated under.
  lemma {:induction false} StampSurvives(rs: seq<Rec>, id: U32, early: I64, late: I64)
    ensures Younger(SlotOf(rs, id, early), SlotOf(rs, id, late), late)
  {
    if rs != [] {
      StampSurvives(rs[..|rs| - 1], id, early, late);
      YoungerStep(SlotOf(rs[..|rs| - 1], id, early), SlotOf(rs[..|rs| - 1], id, late), rs[|rs| - 1], id, early, late);
    }
  }
}
