// Request/reply correlation under shutdown: any number of callers, the one
// reader and any number of closers, interleaved step by step over the pending
// map, the reply channels and the connection's closed and done flags.
module Correlation {
  import opened Bytes

  type Frame = seq<Byte>
  type Ticket = nat

  datatype Outcome = Reply(frame: Frame) | ClosedWhileWaiting | SendFailed | TimedOutWaiting

  datatype Pc =
    | Registered            // its channel is in the map; closed not looked at yet
    | Queueing              // saw closed == false; waits for room in the queue
    | Refused               // Send failed; the entry is still to be removed
    | Waiting               // frame queued; waits for reply, close or context
    | Expired               // the context ended the wait; entry still to be removed
    | Finished(outcome: Outcome)

  // A call comes with a seq, whoever drew it. `passed` remembers that Send's
  // closed check let the caller through.
  datatype Caller = Caller(seqNo: U64, pc: Pc, passed: bool)

  datatype Reader =
    | Reading
    | Resolving(to: Ticket, frame: Frame)
    | Leaving               // closed is set
    | Left                  // and the map swept
    | Gone                  // and done closed

  datatype Closer = Won | Announced | Over

  datatype State = State(
    closed: bool,
    done: bool,
    entries: map<U64, Ticket>,
    callers: map<Ticket, Caller>,
    sends: multiset<Ticket>,
    closes: multiset<Ticket>,
    buf: map<Ticket, Frame>,
    reader: Reader,
    closers: map<nat, Closer>,
    swept: bool,
    crashed: bool,
    dispatched: set<(Ticket, U64, Frame)>)

  const INITIAL := State(false, false, map[], map[], multiset{}, multiset{}, map[], Reading, map[], false, false, {})

  datatype Event =
    | Register(t: Ticket, n: U64)
    | PassCheck(t: Ticket)
    | FailCheck(t: Ticket)
    | Enqueue(t: Ticket)
    | QueueTimeout(t: Ticket)
    | QueueDone(t: Ticket)
    | Remove(t: Ticket)
    | Receive(t: Ticket)
    | ReceiveClosed(t: Ticket)
    | WaitTimeout(t: Ticket)
    | Dispatch(n: U64, frame: Frame)
    | Deliver
    | ReaderFails
    | ReaderSweeps
    | ReaderAnnounces
    | Swap(k: nat)
    | Announce(k: nat)
    | Sweep(k: nat)

  predicate At(s: State, t: Ticket, pc: Pc) {
    t in s.callers && s.callers[t].pc == pc
  }

  predicate Enabled(s: State, e: Event) {
    match e
    case Register(t, _) => t !in s.callers
    case PassCheck(t) => At(s, t, Registered) && !s.closed
    case FailCheck(t) => At(s, t, Registered) && s.closed
    case Enqueue(t) => At(s, t, Queueing)
    case QueueTimeout(t) => At(s, t, Queueing)
    case QueueDone(t) => At(s, t, Queueing) && s.done
    case Remove(t) => At(s, t, Refused) || At(s, t, Expired)
    case Receive(t) => At(s, t, Waiting) && t in s.buf
    case ReceiveClosed(t) => At(s, t, Waiting) && t !in s.buf && s.closes[t] > 0
    case WaitTimeout(t) => At(s, t, Waiting)
    case Dispatch(_, _) => s.reader == Reading
    case Deliver => s.reader.Resolving? && (s.closes[s.reader.to] > 0 || s.reader.to !in s.buf)
    case ReaderFails => s.reader == Reading
    case ReaderSweeps => s.reader == Leaving
    case ReaderAnnounces => s.reader == Left
    case Swap(k) => k !in s.closers
    case Announce(k) => k in s.closers && s.closers[k] == Won
    case Sweep(k) => k in s.closers && s.closers[k] == Announced
  }

  function Move(s: State, t: Ticket, pc: Pc): State
    requires t in s.callers
  {
    s.(callers := s.callers[t := s.callers[t].(pc := pc)])
  }

  // CloseAll, one critical section: closes every channel in the map and empties
  // it. Closing a channel twice would panic.
  function CloseAll(s: State): State {
    s.(entries := map[], closes := s.closes + multiset(s.entries.Values), swept := true,
       crashed := s.crashed || exists t :: t in s.entries.Values && s.closes[t] > 0)
  }

  function Do(s: State, e: Event): State
    requires Enabled(s, e)
  {
    match e
    case Register(t, n) =>
      s.(entries := s.entries[n := t], callers := s.callers[t := Caller(n, Registered, false)])
    case PassCheck(t) => s.(callers := s.callers[t := s.callers[t].(pc := Queueing, passed := true)])
    case FailCheck(t) => Move(s, t, Refused)
    case Enqueue(t) => Move(s, t, Waiting)
    case QueueTimeout(t) => Move(s, t, Refused)
    case QueueDone(t) => Move(s, t, Refused)
    case Remove(t) =>
      Move(s, t, Finished(if At(s, t, Refused) then SendFailed else TimedOutWaiting))
      .(entries := s.entries - {s.callers[t].seqNo})
    case Receive(t) => Move(s, t, Finished(Reply(s.buf[t]))).(buf := s.buf - {t})
    case ReceiveClosed(t) => Move(s, t, Finished(ClosedWhileWaiting))
    case WaitTimeout(t) => Move(s, t, Expired)
    case Dispatch(n, frame) =>
      if n !in s.entries then s
      else
        s.(entries := s.entries - {n}, reader := Resolving(s.entries[n], frame),
           dispatched := s.dispatched + {(s.entries[n], n, frame)})
    case Deliver =>
      var t := s.reader.to;
      s.(reader := Reading, sends := s.sends + multiset{t}, buf := s.buf[t := s.reader.frame],
         crashed := s.crashed || s.closes[t] > 0)
    case ReaderFails => s.(closed := true, reader := Leaving)
    case ReaderSweeps => CloseAll(s.(reader := Left))
    case ReaderAnnounces => s.(done := true, reader := Gone)
    case Swap(k) => s.(closed := true, closers := s.closers[k := if s.closed then Over else Won])
    case Announce(k) => s.(done := true, closers := s.closers[k := Announced])
    case Sweep(k) => CloseAll(s.(closers := s.closers[k := Over]))
  }

  // ---- Runs ----

  // An event that cannot happen changes nothing, so every list of events is a run.
  function Step(s: State, e: Event): State {
    if Enabled(s, e) then Do(s, e) else s
  }

  ghost predicate Moves(f: (State, Event) -> State, s: State, e: Event) {
    f(s, e) == Step(s, e)
  }

  ghost predicate IsStep(f: (State, Event) -> State) {
    forall s, e :: Moves(f, s, e)
  }

  // Step as a value, so that proofs about runs do not look into it.
  ghost function Next(): (f: (State, Event) -> State)
    ensures IsStep(f)
  {
    NextExists();
    var f :| IsStep(f);
    f
  }

  lemma NextExists()
    ensures exists f :: IsStep(f)
  {
    var f := (s: State, e: Event) => Step(s, e);
    assert IsStep(f);
  }

  lemma NextIsStep(s: State, e: Event)
    ensures Next()(s, e) == Step(s, e)
  {
    assert Moves(Next(), s, e);
  }

  ghost function After(es: seq<Event>): State {
    if es == [] then INITIAL else Next()(After(es[..|es| - 1]), es[|es| - 1])
  }

  lemma OneMore(es: seq<Event>, e: Event)
    ensures After(es + [e]) == Step(After(es), e)
  {
    assert (es + [e])[..|es|] == es;
    NextIsStep(After(es), e);
  }

  // ---- The invariant ----

  predicate Held(s: State, t: Ticket) {
    t in s.callers && var n := s.callers[t].seqNo;
    n in s.entries && s.entries[n] == t
  }

  predicate InHand(s: State, t: Ticket) {
    s.reader.Resolving? && s.reader.to == t
  }

  predicate Untouched(s: State, t: Ticket) {
    s.sends[t] == 0 && s.closes[t] == 0 && t !in s.buf
  }

  predicate Completed(s: State, t: Ticket) {
    t in s.buf || s.closes[t] > 0
  }

  // A reply or a close can still get to the caller, or has.
  predicate Reachable(s: State, t: Ticket) {
    Held(s, t) || InHand(s, t) || Completed(s, t)
  }

  predicate ChannelOk(s: State, t: Ticket)
    requires t in s.callers
  {
    && s.sends[t] + s.closes[t] <= 1
    && (t in s.buf ==> s.sends[t] == 1 && (t, s.callers[t].seqNo, s.buf[t]) in s.dispatched)
    && (Held(s, t) ==> Untouched(s, t) && !InHand(s, t))
    && (InHand(s, t) ==> Untouched(s, t) && (t, s.callers[t].seqNo, s.reader.frame) in s.dispatched)
  }

  predicate CallerOk(s: State, t: Ticket)
    requires t in s.callers
  {
    var pc := s.callers[t].pc;
    && (pc.Finished? ==> !Held(s, t))
    && (!pc.Finished? ==> Reachable(s, t))
    && (pc.Finished? && pc.outcome.Reply? ==>
          (t, s.callers[t].seqNo, pc.outcome.frame) in s.dispatched && s.sends[t] == 1)
    && (pc.Finished? && pc.outcome.ClosedWhileWaiting? ==> s.closes[t] == 1)
    && (pc == Registered ==> !s.callers[t].passed)
    && (pc == Queueing || pc == Waiting || pc == Expired ==> s.callers[t].passed)
    && (s.swept && Held(s, t) ==> !s.callers[t].passed)
  }

  predicate MapOk(s: State) {
    && (forall n :: n in s.entries ==> s.entries[n] in s.callers && n == s.callers[s.entries[n]].seqNo)
    && (s.reader.Resolving? ==> s.reader.to in s.callers)
    && (s.swept ==> s.closed) && (s.done ==> s.closed)
    && (s.reader == Leaving || s.reader == Left || s.reader == Gone ==> s.closed)
    && (forall k :: k in s.closers && s.closers[k] != Over ==> s.closed)
    && !s.crashed
  }

  ghost predicate Inv(s: State) {
    && MapOk(s)
    && (forall t :: t in s.callers ==> ChannelOk(s, t) && CallerOk(s, t))
    && (forall t :: t !in s.callers ==> Untouched(s, t))
  }

  predicate OfCaller(e: Event) {
    e.PassCheck? || e.FailCheck? || e.Enqueue? || e.QueueTimeout? || e.QueueDone? || e.Receive? || e.ReceiveClosed?
    || e.WaitTimeout?
  }

  // A caller that moves on touches nobody else.
  lemma MoveKeeps(s: State, t: Ticket, c: Caller)
    requires Inv(s) && t in s.callers && c.seqNo == s.callers[t].seqNo && CallerOk(s.(callers := s.callers[t := c]), t)
    ensures Inv(s.(callers := s.callers[t := c]))
  {
    var s' := s.(callers := s.callers[t := c]);
    forall u | u in s'.callers
      ensures ChannelOk(s', u) && CallerOk(s', u)
    {
      assert ChannelOk(s, u) && (u != t ==> CallerOk(s, u));
    }
  }

  lemma ReceiveKeeps(s: State, t: Ticket)
    requires Inv(s) && Enabled(s, Receive(t))
    ensures Inv(Do(s, Receive(t)))
  {
    var s' := Do(s, Receive(t));
    forall u | u in s'.callers
      ensures ChannelOk(s', u) && CallerOk(s', u)
    {
      assert ChannelOk(s, u) && CallerOk(s, u);
    }
  }

  lemma CallerStepKeeps(s: State, e: Event)
    requires Inv(s) && Enabled(s, e) && OfCaller(e)
    ensures Inv(Do(s, e))
  {
    if e.Receive? {
      ReceiveKeeps(s, e.t);
    } else {
      assert ChannelOk(s, e.t) && CallerOk(s, e.t);
      MoveKeeps(s, e.t, Do(s, e).callers[e.t]);
    }
  }

  // The step takes another caller's entry out of the map: it registers a seq
  // whose entry is still there, or removes an entry that is not its own.
  predicate Steals(s: State, e: Event) {
    && Enabled(s, e)
    && match e
       case Register(_, n) => n in s.entries
       case Remove(t) => var n := s.callers[t].seqNo; n in s.entries && s.entries[n] != t
       case _ => false
  }

  lemma RegisterKeeps(s: State, t: Ticket, n: U64)
    requires Inv(s) && Enabled(s, Register(t, n)) && n !in s.entries
    ensures Inv(Do(s, Register(t, n)))
  {
    var s' := Do(s, Register(t, n));
    forall u | u in s'.callers
      ensures ChannelOk(s', u) && CallerOk(s', u)
    {
      assert u != t ==> ChannelOk(s, u) && CallerOk(s, u);
    }
  }

  lemma RemoveKeepsOther(s: State, t: Ticket, u: Ticket)
    requires Inv(s) && Enabled(s, Remove(t)) && !Steals(s, Remove(t)) && u in s.callers && u != t
    ensures ChannelOk(Do(s, Remove(t)), u) && CallerOk(Do(s, Remove(t)), u)
  {
    assert ChannelOk(s, u) && CallerOk(s, u);
    assert Held(Do(s, Remove(t)), u) <==> Held(s, u);
  }

  lemma RemoveKeepsOwn(s: State, t: Ticket)
    requires Inv(s) && Enabled(s, Remove(t))
    ensures var s' := Do(s, Remove(t)); MapOk(s') && ChannelOk(s', t) && CallerOk(s', t)
  {
    assert ChannelOk(s, t) && CallerOk(s, t);
  }

  lemma RemoveKeeps(s: State, t: Ticket)
    requires Inv(s) && Enabled(s, Remove(t)) && !Steals(s, Remove(t))
    ensures Inv(Do(s, Remove(t)))
  {
    var s' := Do(s, Remove(t));
    RemoveKeepsOwn(s, t);
    forall u | u in s'.callers && u != t
      ensures ChannelOk(s', u) && CallerOk(s', u)
    {
      RemoveKeepsOther(s, t, u);
    }
  }

  lemma ClaimKeeps(s: State, x: (Ticket, U64, Frame))
    requires Inv(s)
    ensures Inv(s.(dispatched := s.dispatched + {x}))
  {
    var s' := s.(dispatched := s.dispatched + {x});
    forall u | u in s'.callers
      ensures ChannelOk(s', u) && CallerOk(s', u)
    {
      assert ChannelOk(s, u) && CallerOk(s, u);
    }
  }

  lemma TakeOutKeeps(s: State, n: U64, frame: Frame)
    requires Inv(s) && s.reader == Reading && n in s.entries && (s.entries[n], n, frame) in s.dispatched
    ensures Inv(s.(entries := s.entries - {n}, reader := Resolving(s.entries[n], frame)))
  {
    var s' := s.(entries := s.entries - {n}, reader := Resolving(s.entries[n], frame));
    forall u | u in s'.callers
      ensures ChannelOk(s', u) && CallerOk(s', u)
    {
      assert ChannelOk(s, u) && CallerOk(s, u);
    }
  }

  lemma DispatchKeeps(s: State, n: U64, frame: Frame)
    requires Inv(s) && Enabled(s, Dispatch(n, frame))
    ensures Inv(Do(s, Dispatch(n, frame)))
  {
    if n in s.entries {
      ClaimKeeps(s, (s.entries[n], n, frame));
      TakeOutKeeps(s.(dispatched := s.dispatched + {(s.entries[n], n, frame)}), n, frame);
    }
  }

  lemma DeliverKeeps(s: State)
    requires Inv(s) && Enabled(s, Deliver)
    ensures Inv(Do(s, Deliver))
  {
    var s' := Do(s, Deliver);
    assert ChannelOk(s, s.reader.to);
    forall u | u in s'.callers
      ensures ChannelOk(s', u) && CallerOk(s', u)
    {
      assert ChannelOk(s, u) && CallerOk(s, u);
    }
  }

  lemma HeldIsListed(s: State, t: Ticket)
    requires MapOk(s)
    ensures Held(s, t) <==> t in s.entries.Values
  {
    if t in s.entries.Values {
      var n :| n in s.entries && s.entries[n] == t;
    }
  }

  lemma CloseAllCounts(s: State, t: Ticket)
    requires MapOk(s)
    ensures CloseAll(s).closes[t] == s.closes[t] + if Held(s, t) then 1 else 0
  {
    HeldIsListed(s, t);
  }

  lemma CloseAllIsClean(s: State)
    requires Inv(s)
    ensures !CloseAll(s).crashed
  {
    forall t | t in s.entries.Values
      ensures s.closes[t] == 0
    {
      HeldIsListed(s, t);
      assert ChannelOk(s, t);
    }
  }

  lemma CloseAllKeeps(s: State)
    requires Inv(s) && s.closed
    ensures Inv(CloseAll(s))
  {
    var s' := CloseAll(s);
    CloseAllIsClean(s);
    forall u
      ensures u in s'.callers ==> ChannelOk(s', u) && CallerOk(s', u)
      ensures u !in s'.callers ==> Untouched(s', u)
    {
      CloseAllCounts(s, u);
      if u in s.callers {
        assert ChannelOk(s, u) && CallerOk(s, u);
      } else {
        assert Untouched(s, u);
      }
    }
  }

  predicate OfShutdown(e: Event) {
    e.ReaderFails? || e.ReaderAnnounces? || e.Swap? || e.Announce?
  }

  lemma ShutdownKeeps(s: State, e: Event)
    requires Inv(s) && Enabled(s, e) && OfShutdown(e)
    ensures Inv(Do(s, e))
  {
    var s' := Do(s, e);
    forall u | u in s'.callers
      ensures ChannelOk(s', u) && CallerOk(s', u)
    {
      assert ChannelOk(s, u) && CallerOk(s, u);
    }
  }

  // Where the reader or a closer stands does not matter to the rest.
  lemma StandingKeeps(s: State, reader: Reader, closers: map<nat, Closer>)
    requires Inv(s) && s.closed && !s.reader.Resolving? && !reader.Resolving?
    ensures Inv(s.(reader := reader, closers := closers))
  {
    var s' := s.(reader := reader, closers := closers);
    forall u | u in s'.callers
      ensures ChannelOk(s', u) && CallerOk(s', u)
    {
      assert ChannelOk(s, u) && CallerOk(s, u);
    }
  }

  lemma CloserKeeps(s: State, closers: map<nat, Closer>)
    requires Inv(s) && s.closed
    ensures Inv(s.(closers := closers))
  {
    var s' := s.(closers := closers);
    forall u | u in s'.callers
      ensures ChannelOk(s', u) && CallerOk(s', u)
    {
      assert ChannelOk(s, u) && CallerOk(s, u);
    }
  }

  lemma SweepKeeps(s: State, e: Event)
    requires Inv(s) && Enabled(s, e) && (e.ReaderSweeps? || e.Sweep?)
    ensures Inv(Do(s, e))
  {
    if e.ReaderSweeps? {
      StandingKeeps(s, Left, s.closers);
      CloseAllKeeps(s.(reader := Left));
    } else {
      CloserKeeps(s, s.closers[e.k := Over]);
      CloseAllKeeps(s.(closers := s.closers[e.k := Over]));
    }
  }

  predicate OfPending(e: Event) {
    e.Register? || e.Remove? || e.Dispatch? || e.Deliver?
  }

  lemma PendingStepKeeps(s: State, e: Event)
    requires Inv(s) && Enabled(s, e) && !Steals(s, e) && OfPending(e)
    ensures Inv(Do(s, e))
  {
    match e
    case Register(t, n) => RegisterKeeps(s, t, n);
    case Remove(t) => RemoveKeeps(s, t);
    case Dispatch(n, frame) => DispatchKeeps(s, n, frame);
    case Deliver => DeliverKeeps(s);
  }

  lemma StepKeeps(s: State, e: Event)
    requires Inv(s) && !Steals(s, e)
    ensures Inv(Step(s, e))
  {
    if Enabled(s, e) {
      if OfPending(e) {
        PendingStepKeeps(s, e);
      } else if OfCaller(e) {
        CallerStepKeeps(s, e);
      } else if OfShutdown(e) {
        ShutdownKeeps(s, e);
      } else {
        SweepKeeps(s, e);
      }
    }
  }

  // Nobody has the caller's channel any more, and nothing is in it.
  predicate CutOff(s: State, t: Ticket) {
    t in s.callers && t !in s.entries.Values && !InHand(s, t) && !Completed(s, t)
  }

  // The caller is still at work, and waits for what can no longer come.
  predicate Stranded(s: State, t: Ticket) {
    CutOff(s, t) && !s.callers[t].pc.Finished?
  }

  lemma StealStrands(s: State, e: Event) returns (t: Ticket)
    requires Inv(s) && Steals(s, e)
    ensures Stranded(Step(s, e), t)
  {
    t := s.entries[if e.Register? then e.n else s.callers[e.t].seqNo];
    assert Held(s, t) && ChannelOk(s, t) && CallerOk(s, t);
  }

  // A step leaves the invariant standing, and strands nobody, exactly if it
  // steals nobody's entry.
  lemma StepKeepsIff(s: State, e: Event)
    requires Inv(s)
    ensures Inv(Step(s, e)) <==> !Steals(s, e)
    ensures (exists t :: Stranded(Step(s, e), t)) <==> Steals(s, e)
  {
    if Steals(s, e) {
      var t := StealStrands(s, e);
      assert !CallerOk(Step(s, e), t);
    } else {
      StepKeeps(s, e);
      forall t
        ensures !Stranded(Step(s, e), t)
      {
        assert t in Step(s, e).callers ==> CallerOk(Step(s, e), t);
      }
    }
  }

  ghost predicate StolenAt(es: seq<Event>, k: nat)
    requires k < |es|
  {
    Steals(After(es[..k]), es[k])
  }

  // No entry is stolen in the whole run.
  ghost predicate NoTheft(es: seq<Event>) {
    forall k :: 0 <= k < |es| ==> !StolenAt(es, k)
  }

  lemma StolenInPrefix(es: seq<Event>, n: nat, k: nat)
    requires k < n <= |es|
    ensures StolenAt(es[..n], k) <==> StolenAt(es, k)
  {
    assert es[..n][..k] == es[..k];
  }

  lemma PrefixNoTheft(es: seq<Event>, n: nat)
    requires n <= |es|
    ensures NoTheft(es) ==> NoTheft(es[..n])
  {
    if NoTheft(es) {
      forall k | 0 <= k < n
        ensures !StolenAt(es[..n], k)
      {
        StolenInPrefix(es, n, k);
        assert !StolenAt(es, k);
      }
    }
  }

  lemma NoTheftBefore(es: seq<Event>)
    requires es != []
    ensures var k := |es| - 1;
            NoTheft(es) <==> NoTheft(es[..k]) && !StolenAt(es, k)
  {
    var k := |es| - 1;
    PrefixNoTheft(es, k);
    if NoTheft(es[..k]) && !StolenAt(es, k) {
      forall j | 0 <= j < |es|
        ensures !StolenAt(es, j)
      {
        if j < k {
          StolenInPrefix(es, k, j);
          assert !StolenAt(es[..k], j);
        }
      }
    }
  }

  // Every state of every run without theft, whatever the interleaving.
  lemma {:induction false} RunKeepsInv(es: seq<Event>)
    requires NoTheft(es)
    ensures Inv(After(es))
  {
    if es != [] {
      var k := |es| - 1;
      NextIsStep(After(es[..k]), es[k]);
      NoTheftBefore(es);
      RunKeepsInv(es[..k]);
      assert !StolenAt(es, k);
      StepKeeps(After(es[..k]), es[k]);
    }
  }

  // A run strands no caller at any time exactly if no step steals an entry.
  lemma {:induction false} NobodyStrandedIff(es: seq<Event>)
    ensures NoTheft(es) <==> forall k, t :: 0 <= k <= |es| ==> !Stranded(After(es[..k]), t)
  {
    if NoTheft(es) {
      forall k, t | 0 <= k <= |es|
        ensures !Stranded(After(es[..k]), t)
      {
        PrefixNoTheft(es, k);
        RunKeepsInv(es[..k]);
        assert t in After(es[..k]).callers ==> CallerOk(After(es[..k]), t);
      }
    } else {
      var k := FirstTheft(es);
      PrefixSteps(es, k);
      RunKeepsInv(es[..k]);
      var t := StealStrands(After(es[..k]), es[k]);
      assert Stranded(After(es[..k + 1]), t);
    }
  }

  lemma PrefixSteps(es: seq<Event>, k: nat)
    requires k < |es|
    ensures After(es[..k + 1]) == Step(After(es[..k]), es[k])
  {
    assert es[..k + 1] == es[..k] + [es[k]];
    OneMore(es[..k], es[k]);
  }

  lemma {:induction false} FirstTheft(es: seq<Event>) returns (k: nat)
    requires !NoTheft(es)
    ensures k < |es| && NoTheft(es[..k]) && Steals(After(es[..k]), es[k])
  {
    var j := |es| - 1;
    NoTheftBefore(es);
    if NoTheft(es[..j]) {
      k := j;
    } else {
      k := FirstTheft(es[..j]);
      assert es[..j][..k] == es[..k];
    }
  }

  // ---- What keeps seqs apart ----

  // No call is registered under the seq of one that has not finished.
  ghost predicate NoReuse(es: seq<Event>) {
    forall k :: 0 <= k < |es| ==> FreeSeq(After(es[..k]), es[k])
  }

  predicate FreeSeq(s: State, e: Event) {
    e.Register? && e.t !in s.callers ==>
      forall u :: u in s.callers && s.callers[u].seqNo == e.n ==> s.callers[u].pc.Finished?
  }

  // Then callers at work have seqs of their own.
  predicate SeqsApart(s: State) {
    forall t, u :: t in s.callers && u in s.callers && t != u && s.callers[t].seqNo == s.callers[u].seqNo ==>
      s.callers[t].pc.Finished? || s.callers[u].pc.Finished?
  }

  predicate MovesCaller(e: Event) {
    OfCaller(e) || e.Register? || e.Remove?
  }

  lemma OthersLeaveCallers(s: State, e: Event)
    requires Enabled(s, e) && !MovesCaller(e)
    ensures Do(s, e).callers == s.callers
  {
    match e
    case ReaderSweeps => SweepLeavesCallers(s.(reader := Left));
    case Sweep(k) => SweepLeavesCallers(s.(closers := s.closers[k := Over]));
    case _ =>
  }

  lemma SweepLeavesCallers(s: State)
    ensures CloseAll(s).callers == s.callers
  {
  }

  lemma MovedStays(s: State, e: Event, u: Ticket)
    requires Enabled(s, e) && MovesCaller(e) && u in s.callers
    ensures var s' := Do(s, e);
            && u in s'.callers && s'.callers[u].seqNo == s.callers[u].seqNo
            && (s.callers[u].pc.Finished? ==> s'.callers[u].pc == s.callers[u].pc)
  {
  }

  // Callers keep their seqs, and one that has finished stays so.
  lemma CallersStay(s: State, e: Event, u: Ticket)
    requires u in s.callers
    ensures var s' := Step(s, e);
            && u in s'.callers && s'.callers[u].seqNo == s.callers[u].seqNo
            && (s.callers[u].pc.Finished? ==> s'.callers[u].pc == s.callers[u].pc)
  {
    if Enabled(s, e) {
      if MovesCaller(e) {
        MovedStays(s, e, u);
      } else {
        OthersLeaveCallers(s, e);
      }
    }
  }

  lemma NewCaller(s: State, e: Event, u: Ticket)
    requires u !in s.callers && u in Step(s, e).callers
    ensures e.Register? && e.t == u && Step(s, e).callers[u].seqNo == e.n
  {
  }

  lemma ApartStep(s: State, e: Event)
    requires SeqsApart(s) && FreeSeq(s, e)
    ensures SeqsApart(Step(s, e))
  {
    var s' := Step(s, e);
    forall t, u | t in s'.callers && u in s'.callers && t != u && s'.callers[t].seqNo == s'.callers[u].seqNo
      ensures s'.callers[t].pc.Finished? || s'.callers[u].pc.Finished?
    {
      if t in s.callers { CallersStay(s, e, t); } else { NewCaller(s, e, t); }
      if u in s.callers { CallersStay(s, e, u); } else { NewCaller(s, e, u); }
    }
  }

  predicate Busy(s: State, n: U64) {
    n in s.entries && s.entries[n] in s.callers
    && s.callers[s.entries[n]].seqNo == n && !s.callers[s.entries[n]].pc.Finished?
  }

  lemma ApartIsNoTheft(s: State, e: Event)
    requires Inv(s) && SeqsApart(s) && FreeSeq(s, e)
    ensures !Steals(s, e)
  {
    forall n | n in s.entries
      ensures Busy(s, n)
    {
      assert Held(s, s.entries[n]) && CallerOk(s, s.entries[n]);
    }
  }

  lemma {:induction false} ApartRun(es: seq<Event>)
    requires NoReuse(es)
    ensures NoTheft(es) && SeqsApart(After(es))
  {
    if es != [] {
      var k := |es| - 1;
      assert forall j :: 0 <= j < k ==> es[..k][..j] == es[..j];
      assert forall j :: 0 <= j < k ==> FreeSeq(After(es[..j]), es[j]);
      assert forall j :: 0 <= j < k ==> FreeSeq(After(es[..k][..j]), es[..k][j]);
      ApartRun(es[..k]);
      RunKeepsInv(es[..k]);
      NextIsStep(After(es[..k]), es[k]);
      ApartStep(After(es[..k]), es[k]);
      ApartIsNoTheft(After(es[..k]), es[k]);
      NoTheftBefore(es);
    }
  }

  // The k-th number a connection's 64-bit counter gives out; it starts at 1.
  function Drawn(k: nat): U64 {
    (k + 1) % 0x1_0000_0000_0000_0000
  }

  // Call t uses the t-th number of this connection's own counter, which has not
  // come round.
  predicate OwnCounter(e: Event) {
    e.Register? ==> e.t < 0x1_0000_0000_0000_0000 && e.n == Drawn(e.t)
  }

  lemma {:induction false} SeqsAreDrawn(es: seq<Event>, t: Ticket)
    requires (forall k :: 0 <= k < |es| ==> OwnCounter(es[k])) && t in After(es).callers
    ensures t < 0x1_0000_0000_0000_0000 && After(es).callers[t].seqNo == Drawn(t)
  {
    if es != [] {
      var k := |es| - 1;
      NextIsStep(After(es[..k]), es[k]);
      assert forall j :: 0 <= j < k ==> es[..k][j] == es[j];
      assert OwnCounter(es[k]);
      if t in After(es[..k]).callers {
        CallersStay(After(es[..k]), es[k], t);
        SeqsAreDrawn(es[..k], t);
      } else {
        NewCaller(After(es[..k]), es[k], t);
      }
    }
  }

  // One counter, until it comes round, never gives a seq twice.
  lemma OwnCounterIsEnough(es: seq<Event>)
    requires forall k :: 0 <= k < |es| ==> OwnCounter(es[k])
    ensures NoReuse(es) && NoTheft(es)
  {
    forall k | 0 <= k < |es|
      ensures FreeSeq(After(es[..k]), es[k])
    {
      assert OwnCounter(es[k]);
      assert forall j :: 0 <= j < k ==> es[..k][j] == es[j];
      forall u | u in After(es[..k]).callers
        ensures u < 0x1_0000_0000_0000_0000 && After(es[..k]).callers[u].seqNo == Drawn(u)
      {
        SeqsAreDrawn(es[..k], u);
      }
    }
    ApartRun(es);
  }

  // ---- What callers get out of it ----

  // No channel is completed twice: at most one send or one close, so nothing
  // is ever sent to or closed after a close.
  lemma CompletedAtMostOnce(es: seq<Event>, t: Ticket)
    requires NoTheft(es)
    ensures !After(es).crashed && After(es).sends[t] + After(es).closes[t] <= 1
  {
    RunKeepsInv(es);
    var s := After(es);
    assert if t in s.callers then ChannelOk(s, t) else Untouched(s, t);
  }

  // The reader, once it has taken a channel out of the map, can always send.
  lemma ResolveNeverBlocks(es: seq<Event>)
    requires NoTheft(es) && After(es).reader.Resolving?
    ensures Enabled(After(es), Deliver) && !Step(After(es), Deliver).crashed
  {
    RunKeepsInv(es);
    assert ChannelOk(After(es), After(es).reader.to);
  }

  // Once the map has been swept after closed was set, whatever is left in it
  // belongs to a caller that has not passed the closed check, and never will.
  lemma LeftoversAreLatecomers(es: seq<Event>, n: U64)
    requires NoTheft(es) && After(es).swept && n in After(es).entries
    ensures var s := After(es); var t := s.entries[n];
            t in s.callers && s.closed && !s.callers[t].passed && (At(s, t, Registered) || At(s, t, Refused))
  {
    RunKeepsInv(es);
    assert CallerOk(After(es), After(es).entries[n]);
  }

  predicate OwnOrDeliver(e: Event, t: Ticket) {
    e in {FailCheck(t), QueueDone(t), Remove(t), Receive(t), ReceiveClosed(t), Deliver}
  }

  predicate HasFinished(s: State, t: Ticket) {
    t in s.callers && s.callers[t].pc.Finished?
  }

  // No caller is stranded by a shutdown: after the sweep, and for one still
  // queueing after done is closed too, it finishes by at most two more steps,
  // its own or the send of a channel the reader already holds in hand.
  lemma NoCallerIsStranded(es: seq<Event>, t: Ticket)
    requires NoTheft(es) && After(es).swept && t in After(es).callers
    requires At(After(es), t, Queueing) ==> After(es).done
    ensures exists a, b :: OwnOrDeliver(a, t) && OwnOrDeliver(b, t) && HasFinished(After(es + [a] + [b]), t)
  {
    RunKeepsInv(es);
    var s := After(es);
    var a, b := WayOut(s, t);
    OneMore(es, a);
    OneMore(es + [a], b);
  }

  lemma WayOut(s: State, t: Ticket) returns (a: Event, b: Event)
    requires Inv(s) && s.swept && t in s.callers && (At(s, t, Queueing) ==> s.done)
    ensures OwnOrDeliver(a, t) && OwnOrDeliver(b, t) && HasFinished(Step(Step(s, a), b), t)
  {
    assert CallerOk(s, t) && ChannelOk(s, t);
    b := Remove(t);
    match s.callers[t].pc
    case Registered => a := FailCheck(t);
    case Queueing => a := QueueDone(t);
    case Waiting => a, b := WaiterWayOut(s, t);
    case _ => a := Remove(t);
  }

  lemma DeliveredWaiter(s: State, t: Ticket)
    requires InHand(s, t) && Untouched(s, t) && At(s, t, Waiting)
    ensures At(Step(s, Deliver), t, Waiting) && t in Step(s, Deliver).buf
  {
  }

  lemma ServedWaiter(s: State, t: Ticket)
    requires At(s, t, Waiting)
    ensures t in s.buf ==> HasFinished(Step(s, Receive(t)), t)
    ensures t !in s.buf && s.closes[t] > 0 ==> HasFinished(Step(s, ReceiveClosed(t)), t)
  {
  }

  lemma StaysFinished(s: State, t: Ticket)
    requires HasFinished(s, t)
    ensures HasFinished(Step(s, Remove(t)), t)
  {
  }

  lemma WaiterWayOut(s: State, t: Ticket) returns (a: Event, b: Event)
    requires Inv(s) && s.swept && At(s, t, Waiting)
    ensures OwnOrDeliver(a, t) && OwnOrDeliver(b, t) && HasFinished(Step(Step(s, a), b), t)
  {
    assert CallerOk(s, t) && ChannelOk(s, t);
    ServedWaiter(s, t);
    if InHand(s, t) {
      a, b := Deliver, Receive(t);
      DeliveredWaiter(s, t);
      ServedWaiter(Step(s, a), t);
    } else {
      a, b := if t in s.buf then Receive(t) else ReceiveClosed(t), Remove(t);
      StaysFinished(Step(s, a), t);
    }
  }

  // ---- What a caller's outcome says of the run ----

  // The k-th event could happen where it stands.
  ghost predicate Took(es: seq<Event>, k: nat)
    requires k < |es|
  {
    Enabled(After(es[..k]), es[k])
  }

  ghost predicate HappenedAt(es: seq<Event>, e: Event, k: nat) {
    var ok := k < |es| && es[k] == e && Took(es, k);
    ok
  }

  ghost predicate Happened(es: seq<Event>, e: Event) {
    exists k: nat :: HappenedAt(es, e, k)
  }

  lemma TookInPrefix(es: seq<Event>, n: nat, k: nat)
    requires k < n <= |es|
    ensures Took(es[..n], k) <==> Took(es, k)
  {
    assert es[..n][..k] == es[..k];
  }

  lemma HappenedInPrefix(es: seq<Event>, e: Event, n: nat, k: nat)
    requires n <= |es|
    ensures HappenedAt(es[..n], e, k) <==> k < n && HappenedAt(es, e, k)
  {
    if k < n {
      TookInPrefix(es, n, k);
    }
  }

  lemma HappenedBefore(es: seq<Event>, e: Event)
    requires es != []
    ensures var k := |es| - 1;
            Happened(es, e) <==> Happened(es[..k], e) || (es[k] == e && Enabled(After(es[..k]), e))
  {
    var k := |es| - 1;
    assert HappenedAt(es, e, k) <==> es[k] == e && Enabled(After(es[..k]), e);
    if j: nat :| HappenedAt(es, e, j) && j != k {
      HappenedInPrefix(es, e, k, j);
    }
    if j: nat :| HappenedAt(es[..k], e, j) {
      HappenedInPrefix(es, e, k, j);
    }
  }

  // Its frame got into the outbound queue.
  predicate Queued(s: State, t: Ticket) {
    t in s.callers && var pc := s.callers[t].pc;
    pc == Waiting || pc == Expired || (pc.Finished? && pc.outcome != SendFailed)
  }

  // Its context ended while it waited for the reply.
  predicate GaveUpWaiting(s: State, t: Ticket) {
    At(s, t, Expired) || At(s, t, Finished(TimedOutWaiting))
  }

  lemma OutcomeMoves(s: State, e: Event)
    requires Enabled(s, e) && MovesCaller(e)
    ensures Queued(Do(s, e), e.t) <==> Queued(s, e.t) || e == Enqueue(e.t)
    ensures GaveUpWaiting(Do(s, e), e.t) <==> GaveUpWaiting(s, e.t) || e == WaitTimeout(e.t)
  {
  }

  lemma OthersStand(s: State, e: Event, u: Ticket)
    requires Enabled(s, e) && MovesCaller(e) && u != e.t
    ensures u in Do(s, e).callers <==> u in s.callers
    ensures u in s.callers ==> Do(s, e).callers[u] == s.callers[u]
  {
  }

  lemma OutcomeStep(s: State, e: Event, t: Ticket)
    ensures Queued(Step(s, e), t) <==> Queued(s, t) || (e == Enqueue(t) && Enabled(s, e))
    ensures GaveUpWaiting(Step(s, e), t) <==> GaveUpWaiting(s, t) || (e == WaitTimeout(t) && Enabled(s, e))
  {
    if Enabled(s, e) {
      if !MovesCaller(e) {
        OthersLeaveCallers(s, e);
      } else if e.t == t {
        OutcomeMoves(s, e);
      } else {
        OthersStand(s, e, t);
      }
    }
  }

  // A caller whose frame was ever queued ends with a reply, a closed channel or
  // a timeout, and no other does; it ends with the timeout exactly if its
  // context ended the wait. What is left is the failed send.
  lemma {:induction false} OutcomesTell(es: seq<Event>, t: Ticket)
    ensures Queued(After(es), t) <==> Happened(es, Enqueue(t))
    ensures GaveUpWaiting(After(es), t) <==> Happened(es, WaitTimeout(t))
  {
    if es != [] {
      var k := |es| - 1;
      OutcomesTell(es[..k], t);
      NextIsStep(After(es[..k]), es[k]);
      OutcomeStep(After(es[..k]), es[k], t);
      HappenedBefore(es, Enqueue(t));
      HappenedBefore(es, WaitTimeout(t));
    }
  }

  lemma {:induction false} CallersRegistered(es: seq<Event>, t: Ticket)
    requires t in After(es).callers
    ensures Happened(es, Register(t, After(es).callers[t].seqNo))
  {
    var k := |es| - 1;
    NextIsStep(After(es[..k]), es[k]);
    if t in After(es[..k]).callers {
      CallersStay(After(es[..k]), es[k], t);
      CallersRegistered(es[..k], t);
    } else {
      NewCaller(After(es[..k]), es[k], t);
    }
    HappenedBefore(es, Register(t, After(es).callers[t].seqNo));
  }

  // The k-th event is the reader's reading of this frame, for the caller that
  // has the entry of its seq.
  ghost predicate ReadFor(es: seq<Event>, k: nat, t: Ticket, n: U64, frame: Frame) {
    && k < |es| && es[k] == Dispatch(n, frame) && Took(es, k)
    && n in After(es[..k]).entries && After(es[..k]).entries[n] == t
  }

  lemma ReadInPrefix(es: seq<Event>, m: nat, k: nat, t: Ticket, n: U64, frame: Frame)
    requires m <= |es| && ReadFor(es[..m], k, t, n, frame)
    ensures ReadFor(es, k, t, n, frame)
  {
    TookInPrefix(es, m, k);
    assert es[..m][..k] == es[..k];
  }

  lemma OnlyDispatchReads(s: State, e: Event)
    requires Enabled(s, e) && !e.Dispatch?
    ensures Do(s, e).dispatched == s.dispatched
  {
    match e
    case ReaderSweeps => SweepReadsNothing(s.(reader := Left));
    case Sweep(k) => SweepReadsNothing(s.(closers := s.closers[k := Over]));
    case _ =>
  }

  lemma SweepReadsNothing(s: State)
    ensures CloseAll(s).dispatched == s.dispatched
  {
  }

  lemma ReadStep(s: State, e: Event, x: (Ticket, U64, Frame))
    requires x in Step(s, e).dispatched && x !in s.dispatched
    ensures Enabled(s, e) && e == Dispatch(x.1, x.2) && x.1 in s.entries && s.entries[x.1] == x.0
  {
    if Enabled(s, e) && !e.Dispatch? {
      OnlyDispatchReads(s, e);
    }
  }

  lemma {:induction false} DispatchedWasRead(es: seq<Event>, t: Ticket, n: U64, frame: Frame) returns (k: nat)
    requires (t, n, frame) in After(es).dispatched
    ensures ReadFor(es, k, t, n, frame)
  {
    k := |es| - 1;
    NextIsStep(After(es[..k]), es[k]);
    if (t, n, frame) in After(es[..k]).dispatched {
      var m := k;
      k := DispatchedWasRead(es[..m], t, n, frame);
      ReadInPrefix(es, m, k, t, n, frame);
    } else {
      ReadStep(After(es[..k]), es[k], (t, n, frame));
    }
  }

  // A reply a caller is handed is a frame the reader read, byte for byte, under
  // the seq that caller had registered before, while the entry of that seq was
  // the caller's own. So no two callers are handed one reading.
  lemma RepliesAreTheirs(es: seq<Event>, t: Ticket, frame: Frame)
    requires NoTheft(es) && At(After(es), t, Finished(Reply(frame)))
    ensures exists j, k, n :: 0 <= j < k < |es| && es[j] == Register(t, n) && ReadFor(es, k, t, n, frame)
  {
    RunKeepsInv(es);
    assert CallerOk(After(es), t);
    var n := After(es).callers[t].seqNo;
    var k := DispatchedWasRead(es, t, n, frame);
    PrefixNoTheft(es, k);
    RunKeepsInv(es[..k]);
    assert t in After(es[..k]).callers && After(es[..k]).callers[t].seqNo == n;
    CallersRegistered(es[..k], t);
    var j: nat :| HappenedAt(es[..k], Register(t, n), j);
    assert es[j] == Register(t, n);
  }

  // A caller that finds its channel closed had its entry swept out of the map.
  ghost predicate SweptAt(es: seq<Event>, k: nat, t: Ticket) {
    k < |es| && (es[k].Sweep? || es[k].ReaderSweeps?) && Took(es, k) && t in After(es[..k]).entries.Values
  }

  lemma ClosesStep(s: State, e: Event, t: Ticket)
    ensures Step(s, e).closes[t] > s.closes[t] ==>
              (e.Sweep? || e.ReaderSweeps?) && Enabled(s, e) && t in s.entries.Values
  {
  }

  lemma {:induction false} ClosedWasSwept(es: seq<Event>, t: Ticket)
    requires After(es).closes[t] > 0
    ensures exists k: nat :: SweptAt(es, k, t)
  {
    var k := |es| - 1;
    NextIsStep(After(es[..k]), es[k]);
    ClosesStep(After(es[..k]), es[k], t);
    if After(es[..k]).closes[t] > 0 {
      ClosedWasSwept(es[..k], t);
      var j: nat :| SweptAt(es[..k], j, t);
      TookInPrefix(es, k, j);
      assert es[..k][..j] == es[..j] && SweptAt(es, j, t);
    } else {
      assert SweptAt(es, k, t);
    }
  }

  lemma ClosedMeansSwept(es: seq<Event>, t: Ticket)
    requires NoTheft(es) && At(After(es), t, Finished(ClosedWhileWaiting))
    ensures exists k: nat :: SweptAt(es, k, t)
  {
    RunKeepsInv(es);
    assert CallerOk(After(es), t);
    ClosedWasSwept(es, t);
  }

  // Nothing leaks: when every caller has finished, the map is empty.
  lemma FinishedCallersLeaveNothing(es: seq<Event>)
    requires NoTheft(es)
    requires forall t :: t in After(es).callers ==> After(es).callers[t].pc.Finished?
    ensures After(es).entries == map[]
  {
    RunKeepsInv(es);
    var s := After(es);
    if n :| n in s.entries {
      assert CallerOk(s, s.entries[n]) && Held(s, s.entries[n]);
    }
  }

  // ---- Where a seq is used twice ----

  predicate GaveUp(s: State, t: Ticket) {
    HasFinished(s, t) && s.callers[t].pc.outcome in {SendFailed, TimedOutWaiting}
  }

  lemma StrandedStep(s: State, e: Event, t: Ticket)
    requires CutOff(s, t) && (Stranded(s, t) || GaveUp(s, t))
    ensures CutOff(Step(s, e), t) && (Stranded(Step(s, e), t) || GaveUp(Step(s, e), t))
  {
    CallersStay(s, e, t);
    CutOffStep(s, e, t);
    if Enabled(s, e) {
      if MovesCaller(e) {
        CutOffGivesUp(s, e, t);
      } else {
        OthersLeaveCallers(s, e);
      }
    }
  }

  lemma CutOffGivesUp(s: State, e: Event, t: Ticket)
    requires CutOff(s, t) && Enabled(s, e) && MovesCaller(e)
    requires s.callers[t].pc.Finished? ==> s.callers[t].pc.outcome in {SendFailed, TimedOutWaiting}
    ensures var s' := Do(s, e);
            t in s'.callers
            && (s'.callers[t].pc.Finished? ==> s'.callers[t].pc.outcome in {SendFailed, TimedOutWaiting})
  {
  }

  lemma CutOffMoves(s: State, e: Event, t: Ticket)
    requires CutOff(s, t) && Enabled(s, e) && MovesCaller(e)
    ensures CutOff(Do(s, e), t)
  {
  }

  lemma CutOffRead(s: State, e: Event, t: Ticket)
    requires CutOff(s, t) && Enabled(s, e) && (e.Dispatch? || e.Deliver?)
    ensures CutOff(Do(s, e), t)
  {
  }

  lemma CutOffStep(s: State, e: Event, t: Ticket)
    requires CutOff(s, t)
    ensures CutOff(Step(s, e), t)
  {
    if Enabled(s, e) {
      if MovesCaller(e) {
        CutOffMoves(s, e, t);
      } else if e.Dispatch? || e.Deliver? {
        CutOffRead(s, e, t);
      } else if e.Sweep? || e.ReaderSweeps? {
        SweptCutOff(s, t);
      }
    }
  }

  lemma SweptCutOff(s: State, t: Ticket)
    requires t !in s.entries.Values && s.closes[t] == 0
    ensures CloseAll(s).closes[t] == 0
  {
  }

  // A stranded caller stays so, whatever happens, until its own context or the
  // connection ends its sending or waiting; no reply ever gets to it.
  lemma {:induction false} StrandedForGood(es: seq<Event>, more: seq<Event>, t: Ticket)
    requires Stranded(After(es), t)
    ensures CutOff(After(es + more), t) && (Stranded(After(es + more), t) || GaveUp(After(es + more), t))
    decreases |more|
  {
    if more == [] {
      assert es + more == es;
    } else {
      var k := |more| - 1;
      StrandedForGood(es, more[..k], t);
      assert es + more == es + more[..k] + [more[k]];
      OneMore(es + more[..k], more[k]);
      StrandedStep(After(es + more[..k]), more[k], t);
    }
  }

  // Two seqs drawn from one counter are the same exactly if their places differ
  // by a multiple of 2^64; two counters, as of the connections before and after
  // a reconnect, give the same seqs from the start.
  lemma DrawnTwiceIff(j: nat, k: nat)
    ensures Drawn(j) == Drawn(k) <==> (j - k) % 0x1_0000_0000_0000_0000 == 0
  {
  }

  lemma FirstCall(n: U64)
    ensures Step(Step(Step(INITIAL, Register(0, n)), PassCheck(0)), Enqueue(0))
            == INITIAL.(entries := map[n := 0], callers := map[0 := Caller(n, Waiting, true)])
  {
    var a := INITIAL.(entries := map[n := 0], callers := map[0 := Caller(n, Registered, false)]);
    assert Step(INITIAL, Register(0, n)) == a;
    var b := INITIAL.(entries := map[n := 0], callers := map[0 := Caller(n, Queueing, true)]);
    assert Step(a, PassCheck(0)) == b;
  }

  lemma TakeOver(n: U64)
    ensures var waiting := INITIAL.(entries := map[n := 0], callers := map[0 := Caller(n, Waiting, true)]);
            var s := Step(waiting, Register(1, n));
            Stranded(s, 0) && At(s, 0, Waiting) && s.closers == map[] && !s.closed
  {
  }

  lemma ShutDown(s: State)
    requires Stranded(s, 0) && At(s, 0, Waiting) && s.closers == map[] && !s.closed
    ensures var s' := Step(Step(Step(s, Swap(0)), Announce(0)), Sweep(0));
            s'.swept && s'.done && At(s', 0, Waiting) && Stranded(s', 0)
  {
    var a := Step(s, Swap(0));
    assert a.closers[0] == Won && At(a, 0, Waiting);
    CutOffStep(s, Swap(0), 0);
    var b := Step(a, Announce(0));
    assert b.closers[0] == Announced && At(b, 0, Waiting) && b.done;
    CutOffStep(a, Announce(0), 0);
    CutOffStep(b, Sweep(0), 0);
  }

  // A second call under the seq of a waiting one takes over its entry, and a
  // shutdown then leaves the first waiting on a channel nobody holds any more.
  lemma ReusedSeqStrandsWaiter(n: U64)
    ensures var s := After([Register(0, n), PassCheck(0), Enqueue(0), Register(1, n), Swap(0), Announce(0), Sweep(0)]);
            s.swept && s.done && At(s, 0, Waiting) && Stranded(s, 0)
  {
    var calls := [Register(0, n)] + [PassCheck(0)] + [Enqueue(0)];
    var all := calls + [Register(1, n)] + [Swap(0)] + [Announce(0)] + [Sweep(0)];
    After3([], Register(0, n), PassCheck(0), Enqueue(0));
    assert [] + [Register(0, n)] + [PassCheck(0)] + [Enqueue(0)] == calls;
    FirstCall(n);
    OneMore(calls, Register(1, n));
    TakeOver(n);
    After3(calls + [Register(1, n)], Swap(0), Announce(0), Sweep(0));
    ShutDown(After(calls + [Register(1, n)]));
    assert all == [Register(0, n), PassCheck(0), Enqueue(0), Register(1, n), Swap(0), Announce(0), Sweep(0)];
  }

  lemma After3(es: seq<Event>, a: Event, b: Event, c: Event)
    ensures After(es + [a] + [b] + [c]) == Step(Step(Step(After(es), a), b), c)
  {
    OneMore(es, a);
    OneMore(es + [a], b);
    OneMore(es + [a] + [b], c);
  }
}
