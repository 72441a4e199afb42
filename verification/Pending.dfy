// The pending map itself: the critical sections of its methods are the atomic
// steps of the correlation protocol, carried out on real channels.
module Pending {
  import opened Bytes
  import opened Correlation

  // A reply channel of capacity one. Sending on a full channel would block,
  // sending on or closing a closed one would panic.
  class ReplyChan {
    ghost const owner: Ticket
    var buf: Option<Frame>
    var open: bool

    constructor (ghost owner: Ticket)
      ensures this.owner == owner && buf == None && open
    {
      this.owner, buf, open := owner, None, true;
    }

    method Send(frame: Frame)
      requires open && buf.None?
      modifies this`buf
      ensures buf == Some(frame)
    {
      buf := Some(frame);
    }

    method Close()
      requires open
      modifies this`open
      ensures !open
    {
      open := false;
    }
  }

  // The part of the protocol's state that lives in the map and the channels.
  datatype Board =
    Board(entries: map<U64, Ticket>, made: set<Ticket>, buf: map<Ticket, Frame>, closes: multiset<Ticket>)

  function BoardOf(s: State): Board {
    Board(s.entries, s.callers.Keys, s.buf, s.closes)
  }

  lemma Boards(s: State, e: Event)
    requires Enabled(s, e)
    ensures var b, b' := BoardOf(s), BoardOf(Do(s, e));
            && (e.Register? ==> b' == b.(entries := b.entries[e.n := e.t], made := b.made + {e.t}))
            && (e.Remove? ==> b' == b.(entries := b.entries - {s.callers[e.t].seqNo}))
            && (e.Dispatch? ==> b' == b.(entries := b.entries - {e.n}))
            && (e.Deliver? ==> b' == b.(buf := b.buf[s.reader.to := s.reader.frame]))
  {
    if e.Dispatch? && e.n !in s.entries {
      assert s.entries - {e.n} == s.entries;
    }
    if e.Remove? {
      assert Do(s, e).callers.Keys == s.callers.Keys;
    }
  }

  class PendingMap {
    var entries: map<U64, ReplyChan>

    // `all` is every channel ever made, by the ticket it was made for.
    ghost predicate ChanShows(b: Board, all: map<Ticket, ReplyChan>, t: Ticket)
      requires t in all
      reads all.Values
    {
      && all[t].owner == t
      && (all[t].buf == if t in b.buf then Some(b.buf[t]) else None)
      && (all[t].open <==> b.closes[t] == 0)
    }

    ghost predicate Shows(b: Board, all: map<Ticket, ReplyChan>)
      reads this, all.Values
    {
      && all.Keys == b.made && entries.Keys == b.entries.Keys
      && (forall n :: n in entries ==> b.entries[n] in all && entries[n] == all[b.entries[n]])
      && (forall t :: t in all ==> ChanShows(b, all, t))
    }

    constructor ()
      ensures Shows(BoardOf(INITIAL), map[])
    {
      entries := map[];
    }

    method Register(n: U64, ghost t: Ticket, ghost s: State, ghost all: map<Ticket, ReplyChan>) returns (ch: ReplyChan)
      requires Inv(s) && Shows(BoardOf(s), all) && Enabled(s, Event.Register(t, n))
      modifies this
      ensures fresh(ch) && ch.open && ch.buf == None && entries == old(entries)[n := ch]
      ensures Shows(BoardOf(Do(s, Event.Register(t, n))), all[t := ch])
    {
      assert Untouched(s, t);
      Boards(s, Event.Register(t, n));
      ch := Enter(n, t, BoardOf(s), all);
    }

    method Enter(n: U64, ghost t: Ticket, ghost b: Board, ghost all: map<Ticket, ReplyChan>) returns (ch: ReplyChan)
      requires Shows(b, all) && t !in all && t !in b.buf && b.closes[t] == 0
      modifies this
      ensures fresh(ch) && ch.open && ch.buf == None && entries == old(entries)[n := ch]
      ensures Shows(b.(entries := b.entries[n := t], made := b.made + {t}), all[t := ch])
    {
      ch := new ReplyChan(t);
      entries := entries[n := ch];
      ghost var b' := b.(entries := b.entries[n := t], made := b.made + {t});
      ghost var all' := all[t := ch];
      forall u | u in all'
        ensures ChanShows(b', all', u)
      {
        assert u != t ==> ChanShows(b, all, u);
      }
    }

    // The locked half of Resolve: takes the channel out of the map.
    method Take(n: U64, ghost b: Board, ghost all: map<Ticket, ReplyChan>) returns (ch: Option<ReplyChan>)
      requires Shows(b, all)
      modifies this
      ensures Shows(b.(entries := b.entries - {n}), all) && entries == old(entries) - {n}
      ensures ch == (if n in old(entries) then Some(old(entries)[n]) else None) && (ch.Some? <==> n in b.entries)
      ensures ch.Some? ==> b.entries[n] in all && ch.value == all[b.entries[n]]
    {
      ch := None;
      if n in entries {
        ch := Some(entries[n]);
        entries := entries - {n};
      }
      ghost var b' := b.(entries := b.entries - {n});
      assert forall u :: u in all ==> ChanShows(b, all, u) && ChanShows(b', all, u);
    }

    // The unlocked half: the send neither blocks nor finds the channel closed.
    method Finish(ch: ReplyChan, frame: Frame, ghost s: State, ghost all: map<Ticket, ReplyChan>)
      requires Inv(s) && Shows(BoardOf(s), all) && s.reader.Resolving? && s.reader.frame == frame
      requires s.reader.to in all && ch == all[s.reader.to]
      modifies ch`buf
      ensures ch.buf == Some(frame) && Enabled(s, Deliver) && Shows(BoardOf(Do(s, Deliver)), all)
    {
      ghost var t := s.reader.to;
      assert ChannelOk(s, t) && ChanShows(BoardOf(s), all, t);
      Boards(s, Deliver);
      SendOn(ch, frame, t, BoardOf(s), all);
    }

    method SendOn(ch: ReplyChan, frame: Frame, ghost t: Ticket, ghost b: Board, ghost all: map<Ticket, ReplyChan>)
      requires Shows(b, all) && t in all && ch == all[t] && t !in b.buf && b.closes[t] == 0
      modifies ch`buf
      ensures ch.buf == Some(frame) && Shows(b.(buf := b.buf[t := frame]), all)
    {
      assert ChanShows(b, all, t);
      ch.Send(frame);
      ghost var b' := b.(buf := b.buf[t := frame]);
      forall u | u in all
        ensures ChanShows(b', all, u)
      {
        assert old(ChanShows(b, all, u));
      }
    }

    // Delivers a reply: the frame itself is in the channel of its seq, which is
    // out of the map. For a seq that is not in the map no channel changes.
    method Resolve(n: U64, frame: Frame, ghost s: State, ghost all: map<Ticket, ReplyChan>)
      requires Inv(s) && Shows(BoardOf(s), all) && Enabled(s, Dispatch(n, frame))
      modifies this, all.Values`buf
      ensures entries == old(entries) - {n} && (n in old(entries) ==> old(entries)[n].buf == Some(frame))
      ensures forall t :: t in all && !(n in old(entries) && all[t] == old(entries)[n]) ==>
                all[t].buf == old(all[t].buf)
      ensures Shows(BoardOf(Step(Do(s, Dispatch(n, frame)), Deliver)), all)
    {
      DispatchKeeps(s, n, frame);
      Boards(s, Dispatch(n, frame));
      Dispatched(s, n, frame);
      var ch := Take(n, BoardOf(s), all);
      if ch.Some? {
        Finish(ch.value, frame, Do(s, Dispatch(n, frame)), all);
      }
    }

    lemma Dispatched(s: State, n: U64, frame: Frame)
      requires Inv(s) && Enabled(s, Dispatch(n, frame))
      ensures var s' := Do(s, Dispatch(n, frame));
              if n in s.entries then s'.reader == Resolving(s.entries[n], frame) && s.entries[n] in s.callers
              else s' == s && Step(s', Deliver) == s'
    {
    }

    method Remove(n: U64, ghost t: Ticket, ghost s: State, ghost all: map<Ticket, ReplyChan>)
      requires Shows(BoardOf(s), all) && Enabled(s, Event.Remove(t)) && n == s.callers[t].seqNo
      modifies this
      ensures entries == old(entries) - {n} && Shows(BoardOf(Do(s, Event.Remove(t))), all)
    {
      Boards(s, Event.Remove(t));
      Leave(n, BoardOf(s), all);
    }

    method Leave(n: U64, ghost b: Board, ghost all: map<Ticket, ReplyChan>)
      requires Shows(b, all)
      modifies this
      ensures entries == old(entries) - {n} && Shows(b.(entries := b.entries - {n}), all)
    {
      entries := entries - {n};
      ghost var b' := b.(entries := b.entries - {n});
      assert forall u :: u in all ==> ChanShows(b, all, u) && ChanShows(b', all, u);
    }

    // Closes and forgets every channel in the map, in any order, and no other.
    method CloseAll(ghost s: State, ghost all: map<Ticket, ReplyChan>)
      requires Inv(s) && Shows(BoardOf(s), all)
      modifies this, all.Values`open
      ensures forall t :: t in all ==> (all[t].open <==> old(all[t].open) && all[t] !in old(entries.Values))
      ensures Shows(BoardOf(Correlation.CloseAll(s)), all) && entries == map[]
    {
      ghost var b := BoardOf(s);
      forall n | n in entries
        ensures Closable(b, all, n, entries[n])
      {
        assert Held(s, s.entries[n]) && ChannelOk(s, s.entries[n]);
      }
      assert OneEach(b);
      CloseListed(b, all);
      SweptShows(s, all);
    }

    lemma ListedIsHeld(b: Board, all: map<Ticket, ReplyChan>, t: Ticket)
      requires Shows(b, all) && t in all
      ensures all[t] in entries.Values <==> t in b.entries.Values
    {
      assert ChanShows(b, all, t);
      if all[t] in entries.Values {
        var n :| n in entries && entries[n] == all[t];
        assert ChanShows(b, all, b.entries[n]);
      }
      if t in b.entries.Values {
        var n :| n in b.entries && b.entries[n] == t;
        assert entries[n] == all[t];
      }
    }

    method CloseListed(ghost b: Board, ghost all: map<Ticket, ReplyChan>)
      requires Shows(b, all) && ToClose(b, all) && OneEach(b)
      modifies this, all.Values`open
      ensures forall t :: t in all ==> (all[t].open <==> old(all[t].open) && all[t] !in old(entries.Values))
      ensures entries == map[] && Sweeping(b, all, {})
    {
      forall t | t in all
        ensures SweepShows(b, all, t, entries.Keys)
        ensures all[t] in entries.Values <==> t in b.entries.Values
      {
        ListedIsHeld(b, all, t);
        assert ChanShows(b, all, t);
      }
      CloseEach(b, all);
      forall t | t in all
        ensures all[t].open <==> old(all[t].open) && all[t] !in old(entries.Values)
      {
        assert SweepShows(b, all, t, {}) && old(ChanShows(b, all, t));
      }
    }

    // The channel made for the ticket is still to be closed.
    ghost predicate Ahead(b: Board, rest: set<U64>, t: Ticket) {
      exists n :: n in rest && n in b.entries && b.entries[n] == t
    }

    ghost predicate OneEach(b: Board) {
      forall m, n :: m in b.entries && n in b.entries && b.entries[m] == b.entries[n] ==> m == n
    }

    ghost predicate Closable(b: Board, all: map<Ticket, ReplyChan>, n: U64, ch: ReplyChan) {
      n in b.entries && b.entries[n] in all && ch == all[b.entries[n]] && b.closes[b.entries[n]] == 0
    }

    ghost predicate Sweeping(b: Board, all: map<Ticket, ReplyChan>, rest: set<U64>)
      reads all.Values
    {
      var ok := OneEach(b) && forall t :: t in all ==> SweepShows(b, all, t, rest);
      ok
    }

    ghost predicate ToClose(b: Board, all: map<Ticket, ReplyChan>)
      reads this
    {
      var ok := forall n :: n in entries ==> Closable(b, all, n, entries[n]);
      ok
    }

    method CloseEach(ghost b: Board, ghost all: map<Ticket, ReplyChan>)
      requires ToClose(b, all) && Sweeping(b, all, entries.Keys)
      modifies this, all.Values`open
      ensures entries == map[] && Sweeping(b, all, {})
    {
      while entries != map[]
        invariant ToClose(b, all) && Sweeping(b, all, entries.Keys)
        decreases |entries|
      {
        var n :| n in entries;
        CloseNext(n, b, all);
      }
      assert entries.Keys == {};
    }

    method CloseNext(n: U64, ghost b: Board, ghost all: map<Ticket, ReplyChan>)
      requires n in entries && ToClose(b, all) && Sweeping(b, all, entries.Keys)
      modifies this, all.Values`open
      ensures ToClose(b, all) && Sweeping(b, all, entries.Keys) && |entries| < |old(entries)|
    {
      CloseOne(n, entries[n], entries.Keys, b, all);
      Fewer(entries, n);
      entries := entries - {n};
    }

    lemma Fewer(m: map<U64, ReplyChan>, n: U64)
      requires n in m
      ensures (m - {n}).Keys == m.Keys - {n} && |m - {n}| < |m|
    {
      assert |m.Keys| == |m| && |(m - {n}).Keys| == |m - {n}|;
      assert (m - {n}).Keys == m.Keys - {n};
    }

    // A sweep part way through, with `rest` still to close.
    ghost predicate SweepShows(b: Board, all: map<Ticket, ReplyChan>, t: Ticket, rest: set<U64>)
      requires t in all
      reads all.Values
    {
      && all[t].owner == t
      && (all[t].buf == if t in b.buf then Some(b.buf[t]) else None)
      && (all[t].open <==> b.closes[t] == 0 && (t in b.entries.Values ==> Ahead(b, rest, t)))
    }

    method CloseOne(n: U64, ch: ReplyChan, ghost rest: set<U64>, ghost b: Board, ghost all: map<Ticket, ReplyChan>)
      requires n in rest && Closable(b, all, n, ch) && Sweeping(b, all, rest)
      modifies ch`open
      ensures Sweeping(b, all, rest - {n})
    {
      ghost var t := b.entries[n];
      assert Ahead(b, rest, t) && SweepShows(b, all, t, rest);
      ch.Close();
      forall u | u in all
        ensures SweepShows(b, all, u, rest - {n})
      {
        assert old(SweepShows(b, all, u, rest));
        assert all[u] == all[t] ==> u == t;
        StillAhead(b, rest, n, u);
      }
    }

    lemma StillAhead(b: Board, rest: set<U64>, n: U64, u: Ticket)
      requires OneEach(b) && n in b.entries && n in rest
      ensures Ahead(b, rest - {n}, u) <==> Ahead(b, rest, u) && u != b.entries[n]
    {
      if Ahead(b, rest, u) && u != b.entries[n] {
        var m :| m in rest && m in b.entries && b.entries[m] == u;
        assert m in rest - {n};
      }
    }

    lemma SweptShows(s: State, all: map<Ticket, ReplyChan>)
      requires MapOk(s) && forall t :: t in all ==> SweepShows(BoardOf(s), all, t, {})
      ensures forall t :: t in all ==> ChanShows(BoardOf(Correlation.CloseAll(s)), all, t)
    {
      forall t | t in all
        ensures ChanShows(BoardOf(Correlation.CloseAll(s)), all, t)
      {
        HeldIsListed(s, t);
        assert SweepShows(BoardOf(s), all, t, {});
      }
    }
  }
}
