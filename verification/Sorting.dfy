// Sets of numbers in ascending order, as sort.Slice leaves a map's keys.
module Sorting {
  import opened Bytes

  predicate Ascending(ns: seq<nat>) {
    forall i, j :: 0 <= i < j < |ns| ==> ns[i] < ns[j]
  }

  ghost predicate Lists(ns: seq<nat>, s: set<nat>) {
    forall n: nat :: n in ns <==> n in s
  }

  predicate IsLeast(m: nat, s: set<nat>) {
    m in s && forall n :: n in s ==> m <= n
  }

  lemma LeastExists(s: set<nat>)
    requires s != {}
    ensures exists m :: IsLeast(m, s)
    decreases |s|
  {
    var x :| x in s;
    var rest := s - {x};
    if rest == {} {
      assert s == {x} && IsLeast(x, s);
    } else {
      LeastExists(rest);
      var m :| IsLeast(m, rest);
      assert s == rest + {x};
      assert IsLeast(if x < m then x else m, s);
    }
  }

  ghost function Least(s: set<nat>): (m: nat)
    requires s != {}
    ensures IsLeast(m, s)
  {
    LeastExists(s);
    var m :| IsLeast(m, s);
    m
  }

  ghost function Asc(s: set<nat>): (ns: seq<nat>)
    ensures Ascending(ns) && |ns| == |s| && Lists(ns, s)
    decreases |s|
  {
    if s == {} then [] else
      var m := Least(s);
      [m] + Asc(s - {m})
  }

  ghost function Asc32(s: set<U32>): (ns: seq<U32>)
    ensures Ascending(ns) && |ns| == |s| && Lists(ns, s)
  {
    var ns := Asc(s);
    assert forall i :: 0 <= i < |ns| ==> ns[i] in ns;
    ns
  }

  ghost function Asc64(s: set<U64>): (ns: seq<U64>)
    ensures Ascending(ns) && |ns| == |s| && Lists(ns, s)
  {
    var ns := Asc(s);
    assert forall i :: 0 <= i < |ns| ==> ns[i] in ns;
    ns
  }

  // There is only one ascending list of a set.
  lemma {:induction false} AscIsUnique(ns: seq<nat>, s: set<nat>)
    requires Ascending(ns) && Lists(ns, s)
    ensures ns == Asc(s)
    decreases |ns|
  {
    if ns == [] {
      assert s == {} by {
        assert forall n: nat :: n in s ==> n in ns;
      }
    } else {
      var m := ns[0];
      assert m in ns;
      assert Least(s) in ns;
      assert Least(s) == m;
      var rest := ns[1..];
      assert ns == [m] + rest;
      assert Ascending(rest);
      forall n: nat
        ensures n in rest <==> n in s - {m}
      {
        assert n in ns <==> n in s;
        if n in rest {
          var i :| 0 <= i < |rest| && rest[i] == n;
          assert ns[i + 1] == n && ns[0] < ns[i + 1];
        }
      }
      AscIsUnique(rest, s - {m});
    }
  }

  method LeastOf(s: set<nat>) returns (m: nat)
    requires s != {}
    ensures m == Least(s)
  {
    m :| m in s;
    var rest := s - {m};
    while rest != {}
      invariant rest <= s && m in s && m !in rest
      invariant forall n :: n in s ==> n in rest || m <= n
      decreases |rest|
    {
      var x :| x in rest;
      rest := rest - {x};
      if x < m {
        m := x;
      }
    }
    assert IsLeast(m, s);
  }

  // The keys of a map, gathered and then sorted.
  method SortKeys(keys: set<nat>) returns (ns: seq<nat>)
    ensures ns == Asc(keys)
  {
    ns := [];
    var rest := keys;
    while rest != {}
      invariant Asc(keys) == ns + Asc(rest)
      decreases |rest|
    {
      var m := LeastOf(rest);
      ns := ns + [m];
      rest := rest - {m};
    }
  }

  method Sort64(keys: set<U64>) returns (seqs: seq<U64>)
    ensures seqs == Asc64(keys)
  {
    var ns := SortKeys(keys);
    ghost var asc := Asc64(keys);
    assert forall i :: 0 <= i < |ns| ==> ns[i] == asc[i];
    seqs := ns;
  }
}
