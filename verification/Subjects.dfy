// Subject filters: the token walk, what it means, and the classified fast path.
module Subjects {
  import opened Bytes

  type Subject = seq<Byte>

  const DOT: Byte := 46
  const STAR: Subject := [42]
  const REST: Subject := [62]

  function FirstDot(b: Subject): (i: nat)
    ensures i <= |b| && DOT !in b[..i] && (i < |b| ==> b[i] == DOT)
  {
    if b == [] || b[0] == DOT then 0
    else
      var i := FirstDot(b[1..]);
      assert b[..i + 1] == [b[0]] + b[1..][..i];
      i + 1
  }

  // The leading token, and what follows its dot.
  function NextToken(b: Subject): (Subject, Subject) {
    var i := FirstDot(b);
    if i < |b| then (b[..i], b[i + 1..]) else (b, [])
  }

  function Tokens(b: Subject): seq<Subject>
    decreases |b|
  {
    if b == [] then [] else
      var (tok, rest) := NextToken(b);
      [tok] + Tokens(rest)
  }

  // `*` stands for one token, `>` for one or more.
  predicate Matches(ps: seq<Subject>, ss: seq<Subject>) {
    if ps == [] then ss == []
    else if ps[0] == REST then ss != []
    else ss != [] && (ps[0] == STAR || ps[0] == ss[0]) && Matches(ps[1..], ss[1..])
  }

  method PatternMatch(pattern: Subject, subject: Subject) returns (r: bool)
    ensures r == Matches(Tokens(pattern), Tokens(subject))
  {
    var p, s := pattern, subject;
    while true
      invariant Matches(Tokens(pattern), Tokens(subject)) == Matches(Tokens(p), Tokens(s))
      decreases |p|
    {
      if |p| == 0 {
        return |s| == 0;
      }
      var (pTok, pRest) := NextToken(p);
      if pTok == REST {
        return |s| > 0;
      }
      if |s| == 0 {
        return false;
      }
      var (sTok, sRest) := NextToken(s);
      if pTok != STAR && pTok != sTok {
        return false;
      }
      p, s := pRest, sRest;
    }
  }

  // ---- What a filter means ----

  // Where the first `>` stands, or the length if there is none.
  function RestAt(ps: seq<Subject>): (g: nat)
    ensures g <= |ps| && REST !in ps[..g] && (g < |ps| ==> ps[g] == REST)
  {
    if ps == [] || ps[0] == REST then 0
    else
      var g := RestAt(ps[1..]);
      assert ps[..g + 1] == [ps[0]] + ps[1..][..g];
      g + 1
  }

  // As many tokens as the filter names, or more where it has a `>`; and each
  // token up to there the one named, unless a `*` is.
  ghost predicate Fits(ps: seq<Subject>, ss: seq<Subject>) {
    var g := RestAt(ps);
    && (if g < |ps| then |ss| > g else |ss| == |ps|)
    && forall i :: 0 <= i < g ==> ps[i] == STAR || ps[i] == ss[i]
  }

  lemma {:induction false} MatchesIffFits(ps: seq<Subject>, ss: seq<Subject>)
    ensures Matches(ps, ss) <==> Fits(ps, ss)
    decreases |ps|
  {
    if ps != [] && ps[0] != REST && ss != [] {
      var g := RestAt(ps[1..]);
      MatchesIffFits(ps[1..], ss[1..]);
      assert RestAt(ps) == g + 1;
      if Fits(ps, ss) {
        forall i | 0 <= i < g
          ensures ps[1..][i] == STAR || ps[1..][i] == ss[1..][i]
        {
          assert ps[i + 1] == STAR || ps[i + 1] == ss[i + 1];
        }
      }
      if Fits(ps[1..], ss[1..]) && (ps[0] == STAR || ps[0] == ss[0]) {
        forall i | 0 <= i < g + 1
          ensures ps[i] == STAR || ps[i] == ss[i]
        {
          assert i > 0 ==> ps[1..][i - 1] == STAR || ps[1..][i - 1] == ss[1..][i - 1];
        }
      }
    }
  }

  // ---- The fast path ----

  datatype Matcher = MatchAll | MatchExact(pattern: Subject) | MatchPattern(pattern: Subject)

  predicate Plain(filter: Subject) {
    42 !in filter && 62 !in filter
  }

  function NewMatcher(filter: Subject): Matcher {
    if filter == [] || filter == REST then MatchAll
    else if Plain(filter) then MatchExact(filter)
    else MatchPattern(filter)
  }

  predicate Takes(m: Matcher, subject: Subject) {
    match m
    case MatchAll => true
    case MatchExact(pattern) => pattern == subject
    case MatchPattern(pattern) => Matches(Tokens(pattern), Tokens(subject))
  }

  method Accepts(m: Matcher, subject: Subject) returns (r: bool)
    ensures r == Takes(m, subject)
  {
    match m
    case MatchAll => return true;
    case MatchExact(pattern) => return pattern == subject;
    case MatchPattern(pattern) => r := PatternMatch(pattern, subject);
  }

  // A subject with its last token closed by a dot, as every other one is.
  function Closed(s: Subject): Subject {
    if s == [] || s[|s| - 1] == DOT then s else s + [DOT]
  }

  function Spell(ts: seq<Subject>): Subject {
    if ts == [] then [] else ts[0] + [DOT] + Spell(ts[1..])
  }

  lemma ClosedAfterHead(head: Subject, rest: Subject)
    ensures Closed(head + [DOT] + rest) == head + [DOT] + Closed(rest)
  {
    var s := head + [DOT] + rest;
    if rest != [] {
      assert s[|s| - 1] == rest[|rest| - 1];
    }
  }

  lemma ClosedToken(s: Subject, tok: Subject, rest: Subject)
    requires s != [] && (tok, rest) == NextToken(s)
    ensures Closed(s) == tok + [DOT] + Closed(rest)
  {
    if FirstDot(s) < |s| {
      ClosedAfterHead(tok, rest);
      assert s == tok + [DOT] + rest;
    } else {
      assert s[|s| - 1] in s[..|s|];
    }
  }

  lemma {:induction false} SpellTokens(s: Subject)
    ensures Spell(Tokens(s)) == Closed(s)
    decreases |s|
  {
    if s != [] {
      var (tok, rest) := NextToken(s);
      SpellTokens(rest);
      ClosedToken(s, tok, rest);
      SpellHead(tok, Tokens(rest));
    }
  }

  lemma SpellHead(tok: Subject, ts: seq<Subject>)
    ensures Spell([tok] + ts) == tok + [DOT] + Spell(ts)
  {
    assert ([tok] + ts)[1..] == ts;
  }

  lemma {:induction false} TokensOfClosed(s: Subject)
    ensures Tokens(Closed(s)) == Tokens(s)
    decreases |s|
  {
    if s != [] && s[|s| - 1] != DOT {
      var (tok, rest) := NextToken(s);
      NextOfClosed(s);
      if FirstDot(s) < |s| {
        TokensOfClosed(rest);
      }
    }
  }

  // Closing the last token does not touch the first, unless there is only one.
  lemma NextOfClosed(s: Subject)
    requires s != [] && s[|s| - 1] != DOT
    ensures var (tok, rest) := NextToken(s);
            NextToken(Closed(s)) == (tok, Closed(rest)) && |rest| < |s|
  {
    var i := FirstDot(s);
    FirstDotOfLonger(s, [DOT]);
    if i < |s| {
      assert s[i + 1..] != [];
      assert Closed(s)[..i] == s[..i] && Closed(s)[i + 1..] == s[i + 1..] + [DOT];
    } else {
      assert Closed(s)[..i] == s && Closed(s)[i + 1..] == [];
    }
  }

  lemma {:induction false} FirstDotOfLonger(s: Subject, t: Subject)
    requires t != [] && t[0] == DOT
    ensures FirstDot(s + t) == FirstDot(s)
  {
    if s != [] && s[0] != DOT {
      FirstDotOfLonger(s[1..], t);
      assert (s + t)[1..] == s[1..] + t;
    } else {
      assert s == [] ==> s + t == t;
    }
  }

  // Two subjects have the same tokens exactly when closing them makes them equal.
  lemma SameTokensIff(a: Subject, b: Subject)
    ensures Tokens(a) == Tokens(b) <==> Closed(a) == Closed(b)
  {
    SpellTokens(a);
    SpellTokens(b);
    TokensOfClosed(a);
    TokensOfClosed(b);
  }

  lemma {:induction false} TokensComeFrom(s: Subject)
    ensures forall t, x :: t in Tokens(s) && x in t ==> x in s
    decreases |s|
  {
    if s != [] {
      TokensComeFrom(NextToken(s).1);
    }
  }

  lemma {:induction false} PlainMatch(ps: seq<Subject>, ss: seq<Subject>)
    requires STAR !in ps && REST !in ps
    ensures Matches(ps, ss) <==> ps == ss
    decreases |ps|
  {
    if ps != [] && ss != [] {
      PlainMatch(ps[1..], ss[1..]);
      assert ps == [ps[0]] + ps[1..] && ss == [ss[0]] + ss[1..];
    }
  }

  predicate EndsInDot(s: Subject) {
    s != [] && s[|s| - 1] == DOT
  }

  // `b` is `a` with a dot put after its last token.
  predicate DottedTwin(a: Subject, b: Subject) {
    a != [] && !EndsInDot(a) && b == a + [DOT]
  }

  lemma ClosedAlikeIff(a: Subject, b: Subject)
    ensures Closed(a) == Closed(b) <==> a == b || DottedTwin(a, b) || DottedTwin(b, a)
  {
    if Closed(a) == Closed(b) && Closed(a) != a && Closed(b) != b {
      assert a == Closed(a)[..|Closed(a)| - 1] && b == Closed(b)[..|Closed(b)| - 1];
    }
  }

  // The classified matcher answers as the token walk would, but for the empty
  // filter, a bare `>` given the empty subject, and a filter without wildcards
  // that differs from the subject only in a closing dot.
  lemma FastPathAgreesIff(filter: Subject, subject: Subject)
    ensures Takes(NewMatcher(filter), subject) == Matches(Tokens(filter), Tokens(subject))
            <==> !(|| (filter == [] && subject != [])
                   || (filter == REST && subject == [])
                   || (Plain(filter) && (DottedTwin(filter, subject) || DottedTwin(subject, filter))))
  {
    if filter == REST {
      assert FirstDot(REST) == 1;
      assert Tokens(REST) == [REST];
    } else if filter != [] && Plain(filter) {
      TokensComeFrom(filter);
      assert STAR[0] == 42 && REST[0] == 62;
      PlainMatch(Tokens(filter), Tokens(subject));
      SameTokensIff(filter, subject);
      ClosedAlikeIff(filter, subject);
    }
  }
}
