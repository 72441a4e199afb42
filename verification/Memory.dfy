// The store without a file: the same slots, kept in memory only.
module Memory {
  import opened Bytes
  import opened Format
  import opened Replay
  import opened Sorting
  import opened SlotModel
  import opened SlotLife
  import opened Books
  import opened Wal

  class MemSlot {
    const slotID: U32
    const cap: nat
    ghost const key: Name
    var live: Live
    var fifo: seq<U64>
    var minSeq: U64
    var maxSeq: U64
    var tombed: bool

    ghost function View(): Slot
      reads this
    {
      Slot(live, fifo, minSeq, maxSeq, tombed)
    }

    constructor (slotID: U32, cap: nat, key: Name)
      ensures this.slotID == slotID && this.cap == cap && this.key == key && View() == NEW_SLOT
    {
      this.slotID, this.cap, this.key := slotID, cap, key;
      live, fifo, minSeq, maxSeq, tombed := map[], [], 0, 0, false;
    }

    method Fresh(n: U64) returns (isFresh: bool)
      ensures isFresh == SlotModel.Fresh(View(), n)
    {
      if maxSeq == 0 || n > maxSeq {
        return true;
      }
      if n < minSeq {
        return true;
      }
      return false;
    }

    method Seen(n: U64) returns (seen: bool)
      ensures seen == SlotModel.Seen(View(), n)
    {
      var isFresh := Fresh(n);
      if isFresh {
        return false;
      }
      return n in live;
    }

    // Gives up the oldest queued seqs of a queue over capacity.
    method Evict()
      modifies this`live, this`fifo
      ensures var k := Overflow(old(fifo), cap);
              live == old(live) - Elems(old(fifo[..k])) && fifo == old(fifo[k..])
    {
      ghost var k := 0;
      while |fifo| > cap
        invariant k <= Overflow(old(fifo), cap) && fifo == old(fifo)[k..]
        invariant live == old(live) - Elems(old(fifo)[..k])
      {
        var oldest := fifo[0];
        fifo, live := fifo[1..], live - {oldest};
        assert old(fifo)[..k + 1] == old(fifo)[..k] + [oldest];
        ElemsSnoc(old(fifo)[..k], oldest);
        k := k + 1;
      }
    }

    // Records a seq, giving up the oldest queued ones for it when full.
    method CheckRecord(n: U64, now: I64) returns (isNew: bool)
      modifies this
      ensures (isNew, View()) == SlotModel.CheckRecord(old(View()), n, now, cap)
      ensures TestedAndSet(old(View()), View(), n, now, cap, isNew)
    {
      CheckRecordTests(View(), n, now, cap);
      if tombed {
        return true;
      }
      if n in live {
        return false;
      }
      live, fifo := live[n := now], fifo + [n];
      Evict();
      if n > maxSeq {
        maxSeq := n;
      }
      if |fifo| > 0 {
        minSeq := fifo[0];
      }
      return true;
    }

    method Confirm(n: U64)
      modifies this`live
      ensures View() == ConfirmOne(old(View()), n)
    {
      if n in live {
        live := live - {n};
      } else {
        assert live - {n} == live;
      }
    }

    // One pass over the set, in any order, drops what the cursor covers and
    // finds the least seq left.
    method Pass(cursor: U64) returns (removed: nat, min: U64)
      modifies this`live
      ensures live == old(live) - Passed(old(live), cursor, {}) && removed == |Passed(old(live), cursor, {})|
      ensures min == MinOfSet(Left(old(live), cursor, {}))
    {
      removed, min := 0, 0;
      var rest := live.Keys;
      ghost var was := live;
      PassStarts(was, cursor);
      while rest != {}
        invariant rest <= was.Keys
        invariant live == was - Passed(was, cursor, rest) && removed == |Passed(was, cursor, rest)|
        invariant min == MinOfSet(Left(was, cursor, rest))
        decreases |rest|
      {
        var n :| n in rest;
        PassedOneMore(was, cursor, rest, n);
        rest := rest - {n};
        if n <= cursor {
          live, removed := live - {n}, removed + 1;
        } else if min == 0 || n < min {
          min := n;
        }
      }
    }

    // The seqs above the cursor stay as they were, and if any went the bound is
    // the least seq left, or 0.
    method ConfirmUpTo(cursor: U64) returns (removed: nat)
      modifies this`live, this`minSeq
      ensures (removed, View()) == MemConfirmTo(old(View()), cursor)
      ensures CutAt(old(View()), View(), cursor, removed)
    {
      MemConfirmCuts(View(), cursor);
      PassEnds(View(), cursor);
      var min;
      removed, min := Pass(cursor);
      if removed > 0 {
        minSeq := min;
      }
    }

    method Reset()
      modifies this
      ensures View() == Delete(old(View()))
    {
      tombed, live, fifo, minSeq, maxSeq := true, map[], [], 0, 0;
    }
  }

  // What confirming up to a cursor leaves.
  ghost predicate CutAt(s: Slot, s': Slot, cursor: U64, removed: nat) {
    && (forall n :: n in s'.live <==> n in s.live && n > cursor)
    && (forall n :: n in s'.live ==> s'.live[n] == s.live[n])
    && removed == |s.live| - |s'.live| && s'.fifo == s.fifo && s'.maxSeq == s.maxSeq && s'.tombed == s.tombed
    && if removed == 0 then s'.minSeq == s.minSeq
       else if s'.live == map[] then s'.minSeq == 0
       else s'.minSeq in s'.live && forall n :: n in s'.live ==> s'.minSeq <= n
  }

  lemma MemConfirmCuts(s: Slot, cursor: U64)
    ensures var (removed, s') := MemConfirmTo(s, cursor);
            CutAt(s, s', cursor, removed)
  {
    var gone := AtMost(s, cursor);
    var left := s.live - gone;
    assert s.live.Keys == left.Keys + gone && |s.live.Keys| == |s.live| && |left.Keys| == |left|;
    assert gone == {} ==> left == s.live;
    if left.Keys != {} {
      assert IsLeast(Least(left.Keys), left.Keys);
    }
    assert left.Keys == {} <==> left == map[];
  }

  // A pass part way through, with `rest` still ahead: what is gone, and what
  // was looked at and stays.
  ghost function Passed(m: Live, cursor: U64, rest: set<U64>): set<U64> {
    set n | n in m && n <= cursor && n !in rest
  }

  ghost function Left(m: Live, cursor: U64, rest: set<U64>): set<U64> {
    set n | n in m && n > cursor && n !in rest
  }

  lemma PassStarts(m: Live, cursor: U64)
    ensures Passed(m, cursor, m.Keys) == {} && Left(m, cursor, m.Keys) == {} && m - {} == m
  {
  }

  lemma PassedOneMore(m: Live, cursor: U64, rest: set<U64>, n: U64)
    requires rest <= m.Keys && n in rest
    ensures var p, l := Passed(m, cursor, rest), Left(m, cursor, rest);
            var p', l' := Passed(m, cursor, rest - {n}), Left(m, cursor, rest - {n});
            && (n <= cursor ==> m - p - {n} == m - p' && |p'| == |p| + 1 && l' == l)
            && (n > cursor ==>
                  p' == p && MinOfSet(l') == if MinOfSet(l) == 0 || n < MinOfSet(l) then n else MinOfSet(l))
            && rest - {n} <= m.Keys && |rest - {n}| < |rest|
  {
    var p, l := Passed(m, cursor, rest), Left(m, cursor, rest);
    if n <= cursor {
      assert Passed(m, cursor, rest - {n}) == p + {n};
      assert Left(m, cursor, rest - {n}) == l;
    } else {
      assert Passed(m, cursor, rest - {n}) == p;
      assert Left(m, cursor, rest - {n}) == l + {n};
      MinWith(l, n);
    }
  }

  lemma PassEnds(s: Slot, cursor: U64)
    ensures Passed(s.live, cursor, {}) == AtMost(s, cursor)
    ensures Left(s.live, cursor, {}) == (s.live - AtMost(s, cursor)).Keys
    ensures AtMost(s, cursor) == {} ==> s.live - AtMost(s, cursor) == s.live
  {
  }

  lemma MinWith(s: set<U64>, n: U64)
    requires 0 !in s
    ensures MinOfSet(s + {n}) == if MinOfSet(s) == 0 || n < MinOfSet(s) then n else MinOfSet(s)
  {
    assert IsLeast(Least(s + {n}), s + {n});
    if s != {} {
      assert IsLeast(Least(s), s);
    }
  }

  class Store {
    const cap: nat
    var byName: map<Name, MemSlot>
    var nextID: U32
    ghost var handles: set<MemSlot>

    ghost predicate Listed(k: Name, st: MemSlot)
      reads this, st
    {
      st in handles && st.key == k && !st.tombed
    }

    ghost predicate Valid()
      reads this, handles
    {
      && (forall k :: k in byName ==> byName[k] in handles && Listed(k, byName[k]))
      && (forall st :: st in handles ==> st.slotID < nextID && st.cap == cap && Covered(st.View()))
      && (forall a, b :: a in handles && b in handles && a.slotID == b.slotID ==> a == b)
    }

    constructor (capacity: int)
      ensures Valid() && byName == map[] && handles == {}
      ensures cap == if capacity <= 0 then 1_000_000 else capacity
    {
      cap := if capacity <= 0 then 1_000_000 else capacity;
      byName, nextID, handles := map[], 0, {};
    }

    // The handle of a pair of names, made on first use under an id never used before.
    method GetSlot(stream: Name, consumer: Name) returns (r: Option<MemSlot>, err: Option<Error>)
      requires Valid()
      modifies this
      ensures Valid()
      ensures err == if |stream| > MAX_NAME || |consumer| > MAX_NAME then Some(NameTooLong)
                     else if SlotKey(stream, consumer) !in old(byName) && old(nextID) == 0xFFFF_FFFF then
                       Some(SlotOverflow)
                     else None
      ensures r.Some? <==> err.None?
      ensures r.Some? ==> SlotKey(stream, consumer) in byName && byName[SlotKey(stream, consumer)] == r.value
      ensures r.None? || SlotKey(stream, consumer) in old(byName) ==> byName == old(byName) && handles == old(handles)
      ensures r.Some? && SlotKey(stream, consumer) !in old(byName) ==>
                && fresh(r.value) && r.value.View() == NEW_SLOT && handles == old(handles) + {r.value}
                && (forall st :: st in old(handles) ==> st.slotID < r.value.slotID)
                && byName == old(byName)[SlotKey(stream, consumer) := r.value]
    {
      if |stream| > MAX_NAME || |consumer| > MAX_NAME {
        return None, Some(NameTooLong);
      }
      var key := SlotKey(stream, consumer);
      if key in byName {
        return Some(byName[key]), None;
      }
      if nextID == 0xFFFF_FFFF {
        return None, Some(SlotOverflow);
      }
      var st := new MemSlot(nextID, cap, key);
      nextID := nextID + 1;
      byName := byName[key := st];
      handles := handles + {st};
      return Some(st), None;
    }

    // Forgets a slot; whoever still holds its handle finds it empty, and every
    // seq new.
    method DeleteSlot(stream: Name, consumer: Name) returns (err: Option<Error>)
      requires Valid()
      modifies this, handles
      ensures Valid() && handles == old(handles)
      ensures var key := SlotKey(stream, consumer);
              if key !in old(byName) then
                && err == Some(UnknownSlot) && byName == old(byName)
                && forall st :: st in handles ==> st.View() == old(st.View())
              else
                && err == None && byName == old(byName) - {key}
                && old(byName)[key].View() == Delete(old(byName[key].View()))
                && forall st :: st in handles && st != old(byName)[key] ==> st.View() == old(st.View())
    {
      var key := SlotKey(stream, consumer);
      if key !in byName {
        return Some(UnknownSlot);
      }
      var st := byName[key];
      byName := byName - {key};
      st.Reset();
      assert forall k :: k in byName ==> k in old(byName) && old(Listed(k, byName[k])) && byName[k] != st;
      return None;
    }
  }

  // ---- Runs of one slot ----

  lemma MemConfirmCovered(s: Slot, n: U64)
    requires Covered(s)
    ensures Covered(MemConfirmTo(s, n).1) && MemConfirmTo(s, n).1.fifo == s.fifo
  {
  }

  // Without any hypothesis the live seqs are all queued, and an insertion
  // leaves at most a capacity's worth of them.
  lemma {:induction false} MemRunBounded(ops: seq<SetOp>, cap: nat)
    ensures var s := MemRun(ops, cap).1; Covered(s) && |s.live| <= |s.fifo| <= cap
  {
    if ops != [] {
      var s := MemRun(ops[..|ops| - 1], cap).1;
      MemRunBounded(ops[..|ops| - 1], cap);
      match ops[|ops| - 1]
      case Check(n, now) => ApplyCovered(s, OpCheck(n, now), cap);
      case ConfirmSeq(n) =>
      case ConfirmCursor(n) => MemConfirmCovered(s, n);
    }
    CoveredCard(MemRun(ops, cap).1);
  }

  lemma {:induction false} MemRunBelowMax(ops: seq<SetOp>, cap: nat)
    ensures BelowMax(MemRun(ops, cap).1)
  {
    if ops != [] {
      MemRunBelowMax(ops[..|ops| - 1], cap);
    }
  }

  // Confirming up to a cursor finds the bound anew, so whatever the gate was
  // before, it is exact after anything was dropped unless only seq 0 was ever
  // recorded.
  lemma MemGateAfterCutIff(ops: seq<SetOp>, cap: nat, cursor: U64)
    requires AtMost(MemRun(ops, cap).1, cursor) != {}
    ensures var s' := MemConfirmTo(MemRun(ops, cap).1, cursor).1;
            GateExact(s') <==> (s'.live != map[] ==> s'.maxSeq > 0)
  {
    var s := MemRun(ops, cap).1;
    var s' := MemConfirmTo(s, cursor).1;
    MemRunBelowMax(ops, cap);
    MemConfirmCuts(s, cursor);
    GateExactIffOpen(s');
    if s'.live != map[] {
      var n :| n in s'.live;
    }
  }

  const ONCE := Slot(map[1 := 0], [1], 1, 1, false)
  const TWICE := Slot(map[1 := 0], [1, 1], 1, 1, false)

  lemma ConfirmedAndRecordedAgain()
    ensures CheckRecord(ConfirmTo(ONCE, 1).1, 1, 0, 2).1 == ONCE
    ensures CheckRecord(MemConfirmTo(ONCE, 1).1, 1, 0, 2).1 == TWICE
  {
    assert AtMost(ONCE, 1) == {1};
    assert ONCE.live - {1} == map[];
    assert Kept([1], {}) == Kept([], {}) + [];
    var w, m := ConfirmTo(ONCE, 1).1, MemConfirmTo(ONCE, 1).1;
    assert w == Slot(map[], [], 0, 1, false) && m == Slot(map[], [1], 0, 1, false);
    assert Elems(([] + [1])[..0]) == {} && Elems(([1] + [1])[..0]) == {};
    assert map[][1 := 0] - {} == ONCE.live;
  }

  lemma EvictedAt(s: Slot, n: U64)
    requires s == ONCE || s == TWICE
    ensures Insert(s, n, 0, 2).live.Keys == if s == ONCE then {1, n} else {1, n} - {1}
  {
    assert Elems((s.fifo + [n])[..0]) == {};
    assert (s.fifo + [n])[..1] == [1] && Elems([1]) == {1};
    assert s.live[n := 0].Keys == {1, n};
  }

  // A seq confirmed by cursor and recorded again is queued twice here and once
  // in the write-ahead log's slot, so the two part ways at the first eviction.
  lemma StoresPartOnEviction()
    ensures CheckRecord(ConfirmTo(ONCE, 1).1, 1, 0, 2).1 == ONCE
            && CheckRecord(MemConfirmTo(ONCE, 1).1, 1, 0, 2).1 == TWICE
    ensures Insert(ONCE, 2, 0, 2).live.Keys == {1, 2} && Insert(TWICE, 2, 0, 2).live.Keys == {2}
  {
    ConfirmedAndRecordedAgain();
    EvictedAt(ONCE, 2);
    EvictedAt(TWICE, 2);
  }
}
