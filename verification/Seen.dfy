// The bounded first-in-first-out guard against redelivered messages.
module Seen {
  import opened Bytes

  datatype Key = Key(consumer: U32, n: U64)

  // The last `cap` of a history.
  function Last(hist: seq<Key>, cap: nat): (q: seq<Key>)
    ensures |q| == if |hist| < cap then |hist| else cap
  {
    if |hist| < cap then hist else hist[|hist| - cap..]
  }

  predicate NoRepeats(q: seq<Key>) {
    forall i, j :: 0 <= i < j < |q| ==> q[i] != q[j]
  }

  function Elems(q: seq<Key>): set<Key> {
    set k | k in q
  }

  lemma LastSnoc(hist: seq<Key>, k: Key, cap: nat)
    requires cap > 0
    ensures Last(hist + [k], cap) == (if |hist| < cap then Last(hist, cap) else Last(hist, cap)[1..]) + [k]
  {
  }

  lemma WithoutFirst(q: seq<Key>)
    requires NoRepeats(q) && q != []
    ensures Elems(q[1..]) == Elems(q) - {q[0]} && NoRepeats(q[1..])
  {
    assert q == [q[0]] + q[1..];
  }

  const COMPACT_AT := 0x1_0000

  class SeenCache {
    const cap: nat
    var keys: set<Key>
    var fifo: seq<Key>
    var head: nat
    // The keys that were new when inserted, in order.
    ghost var hist: seq<Key>

    ghost predicate Valid()
      reads this
    {
      && cap > 0 && head <= |fifo|
      && fifo[head..] == Last(hist, cap) && keys == Elems(fifo[head..]) && NoRepeats(fifo[head..])
      && |fifo| <= cap + if cap > COMPACT_AT then cap else COMPACT_AT
    }

    constructor (capacity: int)
      ensures Valid() && hist == [] && cap == if capacity <= 0 then 1_000_000 else capacity
    {
      cap := if capacity <= 0 then 1_000_000 else capacity;
      keys, fifo, head, hist := {}, [], 0, [];
    }

    method Evict()
      requires cap > 0 && head <= |fifo| && keys == Elems(fifo[head..]) && NoRepeats(fifo[head..])
      modifies this`keys, this`head
      ensures head <= |fifo| && keys == Elems(fifo[head..]) && NoRepeats(fifo[head..])
      ensures var n := |fifo| - old(head);
              head == old(head) + if n > cap then n - cap else 0
    {
      while |fifo| - head > cap
        invariant old(head) <= head <= |fifo| && keys == Elems(fifo[head..]) && NoRepeats(fifo[head..])
        invariant head > old(head) ==> |fifo| - head >= cap
      {
        var oldest := fifo[head];
        WithoutFirst(fifo[head..]);
        assert fifo[head..][1..] == fifo[head + 1..];
        keys := keys - {oldest};
        head := head + 1;
      }
    }

    // Drops the evicted part of the backing slice once it is the larger part.
    method Compact()
      requires head <= |fifo| && |fifo| - head <= cap
      modifies this`fifo, this`head
      ensures head <= |fifo| && fifo[head..] == old(fifo[head..])
      ensures |fifo| <= cap + if cap > COMPACT_AT then cap else COMPACT_AT
    {
      if head > COMPACT_AT && head * 2 > |fifo| {
        fifo := fifo[head..];
        head := 0;
      }
    }

    // True for a key that is not among the last `cap` new ones.
    method InsertIfNew(k: Key) returns (isNew: bool)
      requires Valid()
      modifies this
      ensures Valid() && isNew == (k !in Last(old(hist), cap))
      ensures hist == if isNew then old(hist) + [k] else old(hist)
    {
      assert k in keys <==> k in fifo[head..];
      if k in keys {
        return false;
      }
      ghost var q := fifo[head..];
      keys := keys + {k};
      fifo := fifo + [k];
      hist := hist + [k];
      assert fifo[head..] == q + [k];
      LastSnoc(old(hist), k, cap);
      Evict();
      assert fifo[head..] == Last(hist, cap);
      Compact();
      return true;
    }

    method Len() returns (n: nat)
      requires Valid()
      ensures n == |Last(hist, cap)|
    {
      Counted(fifo[head..]);
      return |keys|;
    }
  }

  lemma {:induction false} Counted(q: seq<Key>)
    requires NoRepeats(q)
    ensures |Elems(q)| == |q|
  {
    if q != [] {
      WithoutFirst(q);
      Counted(q[1..]);
    }
  }

  // ---- Runs ----

  function Insert(hist: seq<Key>, k: Key, cap: nat): seq<Key> {
    if k in Last(hist, cap) then hist else hist + [k]
  }

  function History(ks: seq<Key>, cap: nat): seq<Key> {
    if ks == [] then [] else Insert(History(ks[..|ks| - 1], cap), ks[|ks| - 1], cap)
  }

  // The keys new to an unbounded cache.
  function Firsts(ks: seq<Key>): seq<Key> {
    if ks == [] then []
    else Firsts(ks[..|ks| - 1]) + if ks[|ks| - 1] in ks[..|ks| - 1] then [] else [ks[|ks| - 1]]
  }

  lemma ElemsSnoc(q: seq<Key>, k: Key)
    ensures Elems(q + [k]) == Elems(q) + {k}
  {
  }

  lemma {:induction false} FirstsElems(ks: seq<Key>)
    ensures Elems(Firsts(ks)) == Elems(ks)
  {
    if ks != [] {
      var before, k := ks[..|ks| - 1], ks[|ks| - 1];
      FirstsElems(before);
      assert ks == before + [k];
      assert k in before <==> k in Elems(before);
      ElemsSnoc(before, k);
      ElemsSnoc(Firsts(before), k);
    }
  }

  // As long as no more than `cap` different keys have come, every key is let
  // through exactly once: the first time.
  lemma {:induction false} ExactWithinCapacity(ks: seq<Key>, cap: nat)
    requires |Firsts(ks)| <= cap
    ensures History(ks, cap) == Firsts(ks)
  {
    if ks != [] {
      var before, k := ks[..|ks| - 1], ks[|ks| - 1];
      ExactWithinCapacity(before, cap);
      FirstsElems(before);
      assert k in Firsts(before) <==> k in Elems(Firsts(before));
      assert k in before <==> k in Elems(before);
      assert Last(Firsts(before), cap) == Firsts(before);
    }
  }

  // A key is let through again exactly when `cap` others were let through
  // since it last was.
  lemma RepeatedIff(hist: seq<Key>, i: nat, cap: nat)
    requires i < |hist| && forall j :: i < j < |hist| ==> hist[j] != hist[i]
    ensures hist[i] !in Last(hist, cap) <==> |hist| - i > cap
  {
    if |hist| - i <= cap && |hist| >= cap {
      assert Last(hist, cap)[i - (|hist| - cap)] == hist[i];
    }
    if |hist| - i > cap {
      assert forall x :: 0 <= x < |Last(hist, cap)| ==> Last(hist, cap)[x] == hist[|hist| - cap + x];
    }
  }
}
