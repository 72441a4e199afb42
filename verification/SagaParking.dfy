// Suspended instances: a step suspends here and is resumed there, and who goes
// on holding the instance afterwards.
module SagaParking {
  import opened Bytes
  import opened TaskCodec
  import opened Saga
  import opened SagaRuns
  import opened SagaPaths
  import opened SagaTurns

  // ---- A step that suspends ----

  function ParkMessage(cfg: Config, inst: Text, e: Parked): Message {
    Message(Some(ParkNote(inst, e.step)), SubjectText(cfg.name, ParkSubject(inst)), EncodePark(e))
  }

  function ResumeMessage(cfg: Config, inst: Text, n: U32, event: Text): Message {
    Message(Some(ResumeCall(inst, n)), SubjectText(cfg.name, ResumeSubject(inst)), event)
  }

  // An agent with nothing left to publish that holds `e` for the instance.
  predicate Holds(s: State, a: nat, inst: Text, e: Parked) {
    && a < |s.agents| && s.agents[a].outbox == []
    && inst in s.agents[a].worker.parked && s.agents[a].worker.parked[inst] == e
  }

  // Only agent a has changed.
  predicate OnlyAgent(s: State, s': State, a: nat) {
    |s'.agents| == |s.agents| && forall b :: 0 <= b < |s.agents| && b != a ==> s'.agents[b] == s.agents[b]
  }

  lemma SuspendPosts(cfg: Config, inst: Text, step: U16, j: U8, ctx: Text, w: Worker, k: nat, state: Text, ms: U64)
    requires |inst| < 0x1_0000 && |ctx| <= cfg.maxContext && step < |cfg.steps| && step < 0x8000
             && cfg.steps[step].suspends
    ensures var m := StepMessage(cfg, inst, step, j, ctx);
            var e := Process(cfg, w, ControlOf(cfg.name, m.subject), m.body, k, Suspend(state, ms));
            && e.posts == [ParkPost(inst, Parked(step, state, ctx))]
            && e.worker.parked == w.parked[inst := Parked(step, state, ctx)]
            && e.worker.timers == TimersWith(cfg, w, inst, step, ms)
  {
    StepMessageRuns(cfg, inst, step, j, ctx, w, k, Suspend(state, ms));
  }

  // A timer is set exactly if the suspension or the step asks for one.
  function TimersWith(cfg: Config, w: Worker, inst: Text, step: U16, ms: U64): seq<(Text, U16)>
    requires step < |cfg.steps|
  {
    w.timers + if ms > 0 || cfg.steps[step].timeoutMs > 0 then [(inst, step)] else []
  }

  // The worker that runs a suspending step holds the instance and announces it.
  lemma SuspendingParks(cfg: Config, s: State, a: nat, k: nat, inst: Text, step: U16, j: U8, ctx: Text, state: Text,
                        ms: U64)
    requires a < |s.agents| && s.agents[a].outbox == [] && k < |s.tasks.log| && StreamOk(s.states)
    requires s.tasks.log[k] == StepMessage(cfg, inst, step, j, ctx) && !Logged(s.states, ParkNote(inst, step))
    requires |inst| < 0x1_0000 && |ctx| <= cfg.maxContext && step < |cfg.steps| && step < 0x8000
             && cfg.steps[step].suspends
    ensures var s' := HandleAndSend(cfg, s, a, k, Suspend(state, ms));
            var e := Parked(step, state, ctx);
            && s'.tasks == s.tasks && s'.states.log == s.states.log + [ParkMessage(cfg, inst, e)]
            && StreamOk(s'.states) && Holds(s', a, inst, e) && OnlyAgent(s, s', a)
            && s'.agents[a].worker.timers == TimersWith(cfg, s.agents[a].worker, inst, step, ms)
  {
    var s1 := Step(cfg, s, Handle(a, k, Suspend(state, ms)));
    var p := ParkPost(inst, Parked(step, state, ctx));
    NextIsStep(cfg, s, Handle(a, k, Suspend(state, ms)));
    NextIsStep(cfg, s1, Send(a, true));
    SuspendPosts(cfg, inst, step, j, ctx, s.agents[a].worker, k, state, ms);
    assert s1.agents[a].outbox == [p] && s1.states == s.states;
    AcceptKeeps(s.states, p.name, SubjectText(cfg.name, p.subject), p.body);
  }

  // Any other worker that reads the note holds the same.
  lemma SyncingHolds(cfg: Config, s: State, b: nat, p: nat, inst: Text, e: Parked)
    requires b < |s.agents| && s.agents[b].outbox == [] && p < |s.states.log|
             && s.states.log[p] == ParkMessage(cfg, inst, e)
    requires inst !in s.agents[b].worker.parked && |e.state| < 0x1_0000_0000
    ensures var s' := Next()(cfg, s, Sync(b, p));
            Holds(s', b, inst, e) && OnlyAgent(s, s', b) && s'.tasks == s.tasks && s'.states == s.states
  {
    NextIsStep(cfg, s, Sync(b, p));
    NotesAreToldApart(cfg.name, ParkSubject(inst));
    ParkReadsBackIff(e);
  }

  lemma ResumePosts(cfg: Config, inst: Text, e: Parked, w: Worker, q: nat, n: U32, event: Text, res: Text)
    requires inst in w.parked && w.parked[inst] == e && e.step as int + 1 < |cfg.steps| < 0x1_0000
    requires cfg.steps[e.step].suspends && cfg.steps[e.step].resumable
    ensures var m := ResumeMessage(cfg, inst, n, event);
            && Process(cfg, w, ControlOf(cfg.name, m.subject), m.body, q, Done(res))
               == Effect(w.(parked := w.parked - {inst}),
                         [StepPost(inst, e.step as int + 1, 0, res), RemovePost(inst)], Ack)
            && Called(cfg, w, ControlOf(cfg.name, m.subject), m.body) == Some(Resumes(e.step, inst, e.state, event))
  {
    SubjectsAreToldApart(cfg.name, ResumeSubject(inst));
    ResumeTells(cfg, w, inst, event, q, Done(res));
  }

  // Message q has the worker let go of the instance and go on to this step.
  ghost predicate AdvancesOn(cfg: Config, s: State, b: nat, q: nat, inst: Text, step: nat, res: Text) {
    && b < |s.agents| && s.agents[b].outbox == [] && q < |s.tasks.log| && step < 0x1_0000
    && var w, m := s.agents[b].worker, s.tasks.log[q];
       Process(cfg, w, ControlOf(cfg.name, m.subject), m.body, q, Done(res))
       == Effect(w.(parked := w.parked - {inst}), [StepPost(inst, step, 0, res), RemovePost(inst)], Ack)
  }

  lemma LettingGoAdvances(cfg: Config, s: State, b: nat, q: nat, inst: Text, step: nat, res: Text)
    requires AdvancesOn(cfg, s, b, q, inst, step, res)
    requires StreamOk(s.tasks) && !Logged(s.tasks, StepTask(inst, step, 0))
    ensures var s' := Next()(cfg, HandleAndSend(cfg, s, b, q, Done(res)), Send(b, true));
            && s'.tasks.log == s.tasks.log + [StepMessage(cfg, inst, step, 0, res)]
            && OnlyAgent(s, s', b) && s'.agents[b].outbox == [] && inst !in s'.agents[b].worker.parked
            && s'.states == Put(cfg, s, RemovePost(inst)).states && StreamOk(s'.tasks)
  {
    var s1 := Step(cfg, s, Handle(b, q, Done(res)));
    var p := StepPost(inst, step, 0, res);
    NextIsStep(cfg, s, Handle(b, q, Done(res)));
    assert s1.agents[b].outbox == [p, RemovePost(inst)] && s1.tasks == s.tasks;
    AcceptKeeps(s.tasks, p.name, SubjectText(cfg.name, p.subject), p.body);
    var s2 := Step(cfg, s1, Send(b, true));
    NextIsStep(cfg, s1, Send(b, true));
    assert s2.agents[b].outbox == [RemovePost(inst)];
    assert s2.tasks.log == s.tasks.log + [StepMessage(cfg, inst, step, 0, res)];
    NextIsStep(cfg, s2, Send(b, true));
  }

  // The worker that gets the resume, and holds the instance, goes on to the
  // next step on what its handler returns, and lets go of the instance.
  lemma ResumingAdvances(cfg: Config, s: State, b: nat, q: nat, inst: Text, e: Parked, n: U32, event: Text, res: Text)
    requires Holds(s, b, inst, e) && q < |s.tasks.log| && s.tasks.log[q] == ResumeMessage(cfg, inst, n, event)
    requires e.step as int + 1 < |cfg.steps| < 0x1_0000 && cfg.steps[e.step].suspends && cfg.steps[e.step].resumable
    requires StreamOk(s.tasks) && !Logged(s.tasks, StepTask(inst, e.step as int + 1, 0))
    ensures var s' := Next()(cfg, HandleAndSend(cfg, s, b, q, Done(res)), Send(b, true));
            && s'.tasks.log == s.tasks.log + [StepMessage(cfg, inst, e.step as int + 1, 0, res)]
            && OnlyAgent(s, s', b) && s'.agents[b].outbox == [] && inst !in s'.agents[b].worker.parked
            && s'.states == Put(cfg, s, RemovePost(inst)).states && StreamOk(s'.tasks)
  {
    ResumePosts(cfg, inst, e, s.agents[b].worker, q, n, event, res);
    LettingGoAdvances(cfg, s, b, q, inst, e.step as int + 1, res);
  }

  // An instance suspended by one worker and resumed at another carries the
  // state it was parked with across, and goes on to the next step once.
  lemma SuspendedHereResumedThere(cfg: Config, s: State, a: nat, b: nat, k: nat, inst: Text, step: U16, j: U8,
                                  ctx: Text,
                                  state: Text, ms: U64, n: U32, event: Text, res: Text)
    requires a < |s.agents| && b < |s.agents| && a != b && s.agents[a].outbox == [] && s.agents[b].outbox == []
    requires k < |s.tasks.log| && s.tasks.log[k] == StepMessage(cfg, inst, step, j, ctx) && StreamOk(s.tasks)
             && StreamOk(s.states)
    requires |inst| < 0x1_0000 && |ctx| <= cfg.maxContext && step as int + 1 < |cfg.steps| < 0x1_0000 && step < 0x8000
    requires cfg.steps[step].suspends && cfg.steps[step].resumable && |state| < 0x1_0000_0000
    requires inst !in s.agents[b].worker.parked && !Logged(s.states, ParkNote(inst, step))
    requires !Logged(s.tasks, ResumeCall(inst, n)) && !Logged(s.tasks, StepTask(inst, step as int + 1, 0))
    ensures var s1 := HandleAndSend(cfg, s, a, k, Suspend(state, ms));
            var s2 := Next()(cfg, s1, Sync(b, |s.states.log|));
            var s3 := Next()(cfg, s2, AskResume(inst, n, event));
            var s4 := Next()(cfg, HandleAndSend(cfg, s3, b, |s.tasks.log|, Done(res)), Send(b, true));
            && Holds(s2, b, inst, Parked(step, state, ctx))
            && (var m := ResumeMessage(cfg, inst, n, event);
                Called(cfg, s2.agents[b].worker, ControlOf(cfg.name, m.subject), m.body)
                == Some(Resumes(step, inst, state, event)))
            && s4.tasks.log == s.tasks.log + [ResumeMessage(cfg, inst, n, event),
                                              StepMessage(cfg, inst, step as int + 1, 0, res)]
            && b < |s4.agents| && inst !in s4.agents[b].worker.parked && s4.agents[b].outbox == []
  {
    var e := Parked(step, state, ctx);
    var s2 := CarriedAcross(cfg, s, a, b, k, inst, step, j, ctx, state, ms);
    ResumedOn(cfg, s2, b, inst, e, n, event, res);
  }

  lemma CarriedAcross(cfg: Config, s: State, a: nat, b: nat, k: nat, inst: Text, step: U16, j: U8, ctx: Text,
                      state: Text, ms: U64) returns (s2: State)
    requires a < |s.agents| && b < |s.agents| && a != b && s.agents[b].outbox == [] && StreamOk(s.states)
    requires TaskAt(cfg, s, a, k, inst, step, j, ctx) && step < |cfg.steps| && step < 0x8000
    requires cfg.steps[step].suspends && |state| < 0x1_0000_0000
    requires inst !in s.agents[b].worker.parked && !Logged(s.states, ParkNote(inst, step))
    ensures s2 == Next()(cfg, HandleAndSend(cfg, s, a, k, Suspend(state, ms)), Sync(b, |s.states.log|))
    ensures Holds(s2, b, inst, Parked(step, state, ctx)) && s2.tasks == s.tasks
  {
    SuspendingParks(cfg, s, a, k, inst, step, j, ctx, state, ms);
    var s1 := HandleAndSend(cfg, s, a, k, Suspend(state, ms));
    SyncingHolds(cfg, s1, b, |s.states.log|, inst, Parked(step, state, ctx));
    s2 := Next()(cfg, s1, Sync(b, |s.states.log|));
  }

  lemma ResumedOn(cfg: Config, s: State, b: nat, inst: Text, e: Parked, n: U32, event: Text, res: Text)
    requires Holds(s, b, inst, e) && StreamOk(s.tasks)
    requires e.step as int + 1 < |cfg.steps| < 0x1_0000 && cfg.steps[e.step].suspends && cfg.steps[e.step].resumable
    requires !Logged(s.tasks, ResumeCall(inst, n)) && !Logged(s.tasks, StepTask(inst, e.step as int + 1, 0))
    ensures var s3 := Next()(cfg, s, AskResume(inst, n, event));
            var s4 := Next()(cfg, HandleAndSend(cfg, s3, b, |s.tasks.log|, Done(res)), Send(b, true));
            var m := ResumeMessage(cfg, inst, n, event);
            && Called(cfg, s.agents[b].worker, ControlOf(cfg.name, m.subject), m.body)
               == Some(Resumes(e.step, inst, e.state, event))
            && s4.tasks.log == s.tasks.log + [m, StepMessage(cfg, inst, e.step as int + 1, 0, res)]
            && b < |s4.agents| && inst !in s4.agents[b].worker.parked && s4.agents[b].outbox == []
  {
    AskedToResume(cfg, s, inst, n, event);
    var s3 := Next()(cfg, s, AskResume(inst, n, event));
    LoggedMore(s.tasks, ResumeMessage(cfg, inst, n, event), StepTask(inst, e.step as int + 1, 0));
    ResumePosts(cfg, inst, e, s.agents[b].worker, |s.tasks.log|, n, event, res);
    ResumingAdvances(cfg, s3, b, |s.tasks.log|, inst, e, n, event, res);
  }

  lemma AskedToResume(cfg: Config, s: State, inst: Text, n: U32, event: Text)
    requires StreamOk(s.tasks) && !Logged(s.tasks, ResumeCall(inst, n))
    ensures var s' := Next()(cfg, s, AskResume(inst, n, event));
            && s'.agents == s.agents && s'.states == s.states && StreamOk(s'.tasks)
            && s'.tasks.log == s.tasks.log + [ResumeMessage(cfg, inst, n, event)]
            && forall x: MsgName :: Logged(s'.tasks, x) <==> Logged(s.tasks.(log := s'.tasks.log), x)
  {
    NextIsStep(cfg, s, AskResume(inst, n, event));
    AcceptKeeps(s.tasks, ResumeCall(inst, n), SubjectText(cfg.name, ResumeSubject(inst)), event);
  }

  // ---- A suspension that times out ----

  function TimeoutMessage(cfg: Config, inst: Text, step: U16): Message {
    Message(Some(TimeoutCall(inst, step)), SubjectText(cfg.name, TimeoutSubject(inst)), [])
  }

  lemma TimerFires(cfg: Config, s: State, a: nat, j: nat, inst: Text, step: U16)
    requires a < |s.agents| && j < |s.agents[a].worker.timers| && s.agents[a].worker.timers[j] == (inst, step)
    requires StreamOk(s.tasks) && !Logged(s.tasks, TimeoutCall(inst, step))
    ensures var s' := Next()(cfg, s, Fire(a, j, true));
            && s'.tasks.log == s.tasks.log + [TimeoutMessage(cfg, inst, step)] && StreamOk(s'.tasks)
            && s'.states == s.states && OnlyAgent(s, s', a) && s'.agents[a].outbox == s.agents[a].outbox
            && s'.agents[a].worker.parked == s.agents[a].worker.parked
            && forall x: MsgName :: Logged(s'.tasks, x) <==> Logged(s.tasks.(log := s'.tasks.log), x)
  {
    NextIsStep(cfg, s, Fire(a, j, true));
    AcceptKeeps(s.tasks, TimeoutCall(inst, step), SubjectText(cfg.name, TimeoutSubject(inst)), []);
  }

  lemma TimeoutPosts(cfg: Config, inst: Text, e: Parked, w: Worker, q: nat, res: Text)
    requires inst in w.parked && w.parked[inst] == e && e.step as int + 1 < |cfg.steps| < 0x1_0000
    requires cfg.steps[e.step].suspends && cfg.steps[e.step].onTimeout
    ensures var m := TimeoutMessage(cfg, inst, e.step);
            && Process(cfg, w, ControlOf(cfg.name, m.subject), m.body, q, Done(res))
               == Effect(w.(parked := w.parked - {inst}),
                         [StepPost(inst, e.step as int + 1, 0, res), RemovePost(inst)], Ack)
            && Called(cfg, w, ControlOf(cfg.name, m.subject), m.body) == Some(TimesOut(e.step, inst, e.state))
  {
    SubjectsAreToldApart(cfg.name, TimeoutSubject(inst));
    TimeoutTells(cfg, w, inst, [], q, Done(res));
  }

  lemma TimingOutAdvances(cfg: Config, s: State, b: nat, q: nat, inst: Text, e: Parked, res: Text)
    requires Holds(s, b, inst, e) && q < |s.tasks.log| && s.tasks.log[q] == TimeoutMessage(cfg, inst, e.step)
    requires e.step as int + 1 < |cfg.steps| < 0x1_0000 && cfg.steps[e.step].suspends && cfg.steps[e.step].onTimeout
    requires StreamOk(s.tasks) && !Logged(s.tasks, StepTask(inst, e.step as int + 1, 0))
    ensures var s' := Next()(cfg, HandleAndSend(cfg, s, b, q, Done(res)), Send(b, true));
            && s'.tasks.log == s.tasks.log + [StepMessage(cfg, inst, e.step as int + 1, 0, res)]
            && OnlyAgent(s, s', b) && s'.agents[b].outbox == [] && inst !in s'.agents[b].worker.parked
            && s'.states == Put(cfg, s, RemovePost(inst)).states && StreamOk(s'.tasks)
  {
    TimeoutPosts(cfg, inst, e, s.agents[b].worker, q, res);
    LettingGoAdvances(cfg, s, b, q, inst, e.step as int + 1, res);
  }

  // The step suspends, its timer fires, and the timeout is handled.
  function TimeoutEvents(a: nat, k: nat, state: Text, ms: U64, j: nat, q: nat, res: Text): seq<Event> {
    [Handle(a, k, Suspend(state, ms))] + [Send(a, true)] + [Fire(a, j, true)]
    + [Handle(a, q, Done(res))] + [Send(a, true)] + [Send(a, true)]
  }

  ghost function TimedOut(cfg: Config, s: State, a: nat, k: nat, state: Text, ms: U64, j: nat, q: nat,
                          res: Text): State {
    var s1 := HandleAndSend(cfg, s, a, k, Suspend(state, ms));
    var s2 := Next()(cfg, s1, Fire(a, j, true));
    Next()(cfg, HandleAndSend(cfg, s2, a, q, Done(res)), Send(a, true))
  }

  lemma TimedOutAfter(cfg: Config, workers: nat, es: seq<Event>, a: nat, k: nat, state: Text, ms: U64, j: nat, q: nat,
                      res: Text)
    ensures After(cfg, workers, es + TimeoutEvents(a, k, state, ms, j, q, res))
            == TimedOut(cfg, After(cfg, workers, es), a, k, state, ms, j, q, res)
  {
    TwoMore(cfg, workers, es, a, k, Suspend(state, ms));
    var es1 := es + [Handle(a, k, Suspend(state, ms))] + [Send(a, true)];
    OneMore(cfg, workers, es1, Fire(a, j, true));
    var es2 := es1 + [Fire(a, j, true)];
    TwoMore(cfg, workers, es2, a, q, Done(res));
    var es3 := es2 + [Handle(a, q, Done(res))] + [Send(a, true)];
    OneMore(cfg, workers, es3, Send(a, true));
    assert es + TimeoutEvents(a, k, state, ms, j, q, res) == es3 + [Send(a, true)];
  }

  // A suspending step with a timer and a timeout handler, its task at hand.
  ghost predicate MayTimeOut(cfg: Config, s: State, a: nat, k: nat, inst: Text, step: U16, j: U8, ctx: Text, ms: U64) {
    && TaskAt(cfg, s, a, k, inst, step, j, ctx) && StreamOk(s.states)
    && step as int + 1 < |cfg.steps| < 0x1_0000 && step < 0x8000
    && cfg.steps[step].suspends && cfg.steps[step].onTimeout && (ms > 0 || cfg.steps[step].timeoutMs > 0)
    && !Logged(s.states, ParkNote(inst, step)) && !Logged(s.tasks, TimeoutCall(inst, step))
    && !Logged(s.tasks, StepTask(inst, step as int + 1, 0))
  }

  lemma TimedOutOnce(cfg: Config, s: State, a: nat, k: nat, inst: Text, step: U16, j: U8, ctx: Text, state: Text,
                     ms: U64, res: Text)
    requires MayTimeOut(cfg, s, a, k, inst, step, j, ctx, ms)
    ensures var s' := TimedOut(cfg, s, a, k, state, ms, |s.agents[a].worker.timers|, |s.tasks.log|, res);
            && s'.tasks.log == s.tasks.log + [TimeoutMessage(cfg, inst, step),
                                              StepMessage(cfg, inst, step as int + 1, 0, res)]
            && OnlyAgent(s, s', a) && s'.agents[a].outbox == [] && inst !in s'.agents[a].worker.parked
            && StreamOk(s'.tasks) && Logged(s'.states, RemoveNote(inst))
  {
    var e := Parked(step, state, ctx);
    SuspendingParks(cfg, s, a, k, inst, step, j, ctx, state, ms);
    var s1 := HandleAndSend(cfg, s, a, k, Suspend(state, ms));
    TimerFires(cfg, s1, a, |s.agents[a].worker.timers|, inst, step);
    var s2 := Next()(cfg, s1, Fire(a, |s.agents[a].worker.timers|, true));
    LoggedMore(s1.tasks, TimeoutMessage(cfg, inst, step), StepTask(inst, step as int + 1, 0));
    TimingOutAdvances(cfg, s2, a, |s.tasks.log|, inst, e, res);
    AcceptKeeps(s2.states, RemoveNote(inst), SubjectText(cfg.name, RemoveSubject(inst)), []);
  }

  ghost predicate OnlyAt(log: seq<Message>, n: MsgName, k: nat) {
    forall i :: 0 <= i < |log| ==> (log[i].name == Some(n) <==> i == k)
  }

  lemma LastIsOnly(st: Stream, n: MsgName, k: nat)
    requires StreamOk(st) && k < |st.log| && st.log[k].name == Some(n)
    ensures OnlyAt(st.log, n, k)
  {
  }

  // After any run, a step that suspends and times out has its timeout enqueued
  // when the timer fires; the handler gets the state it was parked with, its
  // result goes on to the next step, enqueued exactly once, and the instance is
  // let go of and its removal announced.
  lemma SuspendedThenTimedOut(cfg: Config, workers: nat, es: seq<Event>, a: nat, k: nat, inst: Text, step: U16, j: U8,
                              ctx: Text, state: Text, ms: U64, res: Text)
    requires MayTimeOut(cfg, After(cfg, workers, es), a, k, inst, step, j, ctx, ms)
    ensures var s := After(cfg, workers, es);
            var t, q := |s.agents[a].worker.timers|, |s.tasks.log|;
            var s' := After(cfg, workers, es + TimeoutEvents(a, k, state, ms, t, q, res));
            && s'.tasks.log == s.tasks.log + [TimeoutMessage(cfg, inst, step),
                                              StepMessage(cfg, inst, step as int + 1, 0, res)]
            && OnlyAt(s'.tasks.log, StepTask(inst, step as int + 1, 0), q + 1)
            && OnlyAgent(s, s', a) && inst !in s'.agents[a].worker.parked && Logged(s'.states, RemoveNote(inst))
    ensures forall w: Worker :: inst in w.parked && w.parked[inst] == Parked(step, state, ctx) ==>
              CalledToTimeOut(cfg, w, inst, step, state)
  {
    var s := After(cfg, workers, es);
    var t, q := |s.agents[a].worker.timers|, |s.tasks.log|;
    TimedOutAfter(cfg, workers, es, a, k, state, ms, t, q, res);
    TimedOutOnce(cfg, s, a, k, inst, step, j, ctx, state, ms, res);
    var s' := After(cfg, workers, es + TimeoutEvents(a, k, state, ms, t, q, res));
    assert s'.tasks.log[q + 1] == StepMessage(cfg, inst, step as int + 1, 0, res);
    LastIsOnly(s'.tasks, StepTask(inst, step as int + 1, 0), q + 1);
    forall w: Worker | inst in w.parked && w.parked[inst] == Parked(step, state, ctx)
      ensures CalledToTimeOut(cfg, w, inst, step, state)
    {
      TimeoutPosts(cfg, inst, Parked(step, state, ctx), w, q, res);
    }
  }

  // The timeout's message calls the step's handler with this state.
  predicate CalledToTimeOut(cfg: Config, w: Worker, inst: Text, step: U16, state: Text) {
    var m := TimeoutMessage(cfg, inst, step);
    Called(cfg, w, ControlOf(cfg.name, m.subject), m.body) == Some(TimesOut(step, inst, state))
  }

  // ---- Letting go ----

  // Some note that came after the first `from` makes worker b let go.
  ghost predicate ReleasedBy(cfg: Config, s: State, b: nat, inst: Text, from: nat)
    requires b < |s.agents|
  {
    exists k :: from <= k < |s.states.log| && inst !in Step(cfg, s, Sync(b, k)).agents[b].worker.parked
  }

  // When an instance was resumed or timed out, its removal tells another worker
  // that holds it to let go exactly if no removal of that instance was
  // announced before: the removal's id names the instance alone, so that of a
  // second suspension is dropped as a duplicate of the first.
  lemma RemovalReachesHolderIff(cfg: Config, s: State, b: nat, inst: Text)
    requires b < |s.agents| && inst in s.agents[b].worker.parked && StreamOk(s.states)
    ensures ReleasedBy(cfg, Put(cfg, s, RemovePost(inst)), b, inst, |s.states.log|)
            <==> !Logged(s.states, RemoveNote(inst))
  {
    var p := RemovePost(inst);
    var s' := Put(cfg, s, p);
    AcceptKeeps(s.states, p.name, SubjectText(cfg.name, p.subject), p.body);
    if !Logged(s.states, RemoveNote(inst)) {
      NotesAreToldApart(cfg.name, RemoveSubject(inst));
      var k := |s.states.log|;
      assert s'.states.log[k].subject == SubjectText(cfg.name, RemoveSubject(inst));
      assert inst !in Step(cfg, s', Sync(b, k)).agents[b].worker.parked;
    }
  }

  // In every run, when a worker announces a removal, another that holds the
  // instance has a later note to let go by exactly if it is the first removal
  // announced for that instance.
  lemma RemovalInRunIff(cfg: Config, workers: nat, es: seq<Event>, a: nat, b: nat, inst: Text)
    requires |cfg.steps| > 0 && a < |After(cfg, workers, es).agents| && b < |After(cfg, workers, es).agents|
    requires After(cfg, workers, es).agents[a].outbox != []
             && After(cfg, workers, es).agents[a].outbox[0] == RemovePost(inst)
    requires inst in After(cfg, workers, es).agents[b].worker.parked
    ensures var s, s' := After(cfg, workers, es), After(cfg, workers, es + [Send(a, true)]);
            && b < |s'.agents|
            && (ReleasedBy(cfg, s', b, inst, |s.states.log|)
                <==> forall k :: 0 <= k < |s.states.log| ==> s.states.log[k].name != Some(RemoveNote(inst)))
  {
    var s := After(cfg, workers, es);
    var rest := s.(agents := s.agents[a := s.agents[a].(outbox := s.agents[a].outbox[1..])]);
    RunKeepsInv(cfg, workers, es);
    OneMore(cfg, workers, es, Send(a, true));
    assert Step(cfg, s, Send(a, true)) == Put(cfg, rest, RemovePost(inst));
    RemovalReachesHolderIff(cfg, rest, b, inst);
  }

  // ---- An instance that suspends twice ----

  function RemoveMessage(cfg: Config, inst: Text): Message {
    Message(Some(RemoveNote(inst)), SubjectText(cfg.name, RemoveSubject(inst)), [])
  }

  // A step suspends at worker a, b reads the note, and the resume comes to a.
  datatype Round = Round(q: nat, p: nat, r: nat, e: Parked, ms: U64, n: U32, event: Text, res: Text)

  function RoundEvents(a: nat, b: nat, inst: Text, x: Round): seq<Event> {
    [Handle(a, x.q, Suspend(x.e.state, x.ms))] + [Send(a, true)] + [Sync(b, x.p)] + [AskResume(inst, x.n, x.event)]
    + [Handle(a, x.r, Done(x.res))] + [Send(a, true)] + [Send(a, true)]
  }

  ghost function RoundOver(cfg: Config, s: State, a: nat, b: nat, inst: Text, x: Round): State {
    var s1 := HandleAndSend(cfg, s, a, x.q, Suspend(x.e.state, x.ms));
    var s2 := Next()(cfg, s1, Sync(b, x.p));
    var s3 := Next()(cfg, s2, AskResume(inst, x.n, x.event));
    Next()(cfg, HandleAndSend(cfg, s3, a, x.r, Done(x.res)), Send(a, true))
  }

  lemma RoundAfter(cfg: Config, workers: nat, es: seq<Event>, a: nat, b: nat, inst: Text, x: Round)
    ensures After(cfg, workers, es + RoundEvents(a, b, inst, x)) ==
            RoundOver(cfg, After(cfg, workers, es), a, b, inst, x)
  {
    var es1 := es + [Handle(a, x.q, Suspend(x.e.state, x.ms))] + [Send(a, true)];
    TwoMore(cfg, workers, es, a, x.q, Suspend(x.e.state, x.ms));
    OneMore(cfg, workers, es1, Sync(b, x.p));
    var es2 := es1 + [Sync(b, x.p)];
    OneMore(cfg, workers, es2, AskResume(inst, x.n, x.event));
    var es3 := es2 + [AskResume(inst, x.n, x.event)];
    TwoMore(cfg, workers, es3, a, x.r, Done(x.res));
    var es4 := es3 + [Handle(a, x.r, Done(x.res))] + [Send(a, true)];
    OneMore(cfg, workers, es4, Send(a, true));
    assert es + RoundEvents(a, b, inst, x) == es4 + [Send(a, true)];
  }

  predicate MaySuspend(cfg: Config, e: Parked, inst: Text) {
    && |inst| < 0x1_0000 && |e.ctx| <= cfg.maxContext && |e.state| < 0x1_0000_0000
    && e.step as int + 1 < |cfg.steps| < 0x1_0000 && e.step < 0x8000
    && cfg.steps[e.step].suspends && cfg.steps[e.step].resumable
  }

  // Both workers are free, b does not hold the instance, and the step's task,
  // the next message, is ready.
  ghost predicate RoundReady(cfg: Config, s: State, a: nat, b: nat, inst: Text, x: Round) {
    && a < |s.agents| && b < |s.agents| && a != b && s.agents[a].outbox == [] && s.agents[b].outbox == []
    && inst !in s.agents[b].worker.parked && StreamOk(s.tasks) && StreamOk(s.states) && MaySuspend(cfg, x.e, inst)
    && x.q < |s.tasks.log| && s.tasks.log[x.q] == StepMessage(cfg, inst, x.e.step, 0, x.e.ctx)
    && x.p == |s.states.log| && x.r == |s.tasks.log|
    && !Logged(s.states, ParkNote(inst, x.e.step)) && !Logged(s.tasks, ResumeCall(inst, x.n))
    && !Logged(s.tasks, StepTask(inst, x.e.step as int + 1, 0))
  }

  // Afterwards b holds the instance as it was parked; a does not.
  ghost predicate RoundDone(cfg: Config, s: State, s': State, a: nat, b: nat, inst: Text, x: Round)
    requires x.e.step < 0xFFFF
  {
    && |s'.agents| == |s.agents| && a < |s.agents| && s'.agents[a].outbox == [] && inst !in s'.agents[a].worker.parked
    && Holds(s', b, inst, x.e) && StreamOk(s'.tasks) && StreamOk(s'.states)
    && s'.tasks.log == s.tasks.log + [ResumeMessage(cfg, inst, x.n, x.event),
                                      StepMessage(cfg, inst, x.e.step as int + 1, 0, x.res)]
    && s'.states.log == s.states.log + [ParkMessage(cfg, inst, x.e)]
                        + (if Logged(s.states, RemoveNote(inst)) then [] else [RemoveMessage(cfg, inst)])
  }

  lemma OneRound(cfg: Config, s: State, a: nat, b: nat, inst: Text, x: Round)
    requires RoundReady(cfg, s, a, b, inst, x)
    ensures RoundDone(cfg, s, RoundOver(cfg, s, a, b, inst, x), a, b, inst, x)
  {
    var e := x.e;
    SuspendingParks(cfg, s, a, x.q, inst, e.step, 0, e.ctx, e.state, x.ms);
    var s1 := HandleAndSend(cfg, s, a, x.q, Suspend(e.state, x.ms));
    SyncingHolds(cfg, s1, b, x.p, inst, e);
    var s2 := Next()(cfg, s1, Sync(b, x.p));
    AskedToResume(cfg, s2, inst, x.n, x.event);
    var s3 := Next()(cfg, s2, AskResume(inst, x.n, x.event));
    LoggedMore(s2.tasks, ResumeMessage(cfg, inst, x.n, x.event), StepTask(inst, e.step as int + 1, 0));
    ResumingAdvances(cfg, s3, a, x.r, inst, e, x.n, x.event, x.res);
    RemovalAnnounced(cfg, s.states, s3, inst, e);
  }

  lemma RemovalAnnounced(cfg: Config, was: Stream, s: State, inst: Text, e: Parked)
    requires StreamOk(s.states) && s.states.log == was.log + [ParkMessage(cfg, inst, e)]
    ensures var st := Put(cfg, s, RemovePost(inst)).states;
            && StreamOk(st)
            && st.log == was.log + [ParkMessage(cfg, inst, e)]
                         + (if Logged(was, RemoveNote(inst)) then [] else [RemoveMessage(cfg, inst)])
  {
    AcceptKeeps(s.states, RemoveNote(inst), SubjectText(cfg.name, RemoveSubject(inst)), []);
    LoggedMore(was, ParkMessage(cfg, inst, e), RemoveNote(inst));
    assert Logged(s.states, RemoveNote(inst)) <==> Logged(was.(log := s.states.log), RemoveNote(inst));
    assert s.states.log + [] == s.states.log;
  }

  lemma SyncingReleases(cfg: Config, s: State, b: nat, p: nat, inst: Text)
    requires b < |s.agents| && p < |s.states.log| && s.states.log[p] == RemoveMessage(cfg, inst)
    ensures var s' := Next()(cfg, s, Sync(b, p));
            && s'.tasks == s.tasks && s'.states == s.states && OnlyAgent(s, s', b)
            && s'.agents[b].outbox == s.agents[b].outbox && inst !in s'.agents[b].worker.parked
  {
    NextIsStep(cfg, s, Sync(b, p));
    NotesAreToldApart(cfg.name, RemoveSubject(inst));
  }

  lemma NotAmong(st: Stream, n: MsgName)
    requires forall k :: 0 <= k < |st.log| ==> st.log[k].name != Some(n)
    ensures !Logged(st, n)
  {
  }

  // Worker 0 runs two suspending steps of an instance and both its resumes;
  // worker 1 reads every note there is: the first park note and its removal,
  // and the second park note.
  function TwoSuspensions(inst: Text, payload: Text, x: Round, y: Round): seq<Event> {
    [Trigger(inst, payload)] + RoundEvents(0, 1, inst, x) + [Sync(1, 1)] + RoundEvents(0, 1, inst, y)
  }

  predicate TwoRounds(cfg: Config, inst: Text, payload: Text, x: Round, y: Round) {
    && x.q == 0 && x.p == 0 && x.r == 1 && x.e.step == 0 && x.e.ctx == payload && MaySuspend(cfg, x.e, inst)
    && y.q == 2 && y.p == 2 && y.r == 3 && y.e.step == 1 && y.e.ctx == x.res && MaySuspend(cfg, y.e, inst)
    && x.n != y.n
  }

  lemma Triggered(cfg: Config, inst: Text, payload: Text)
    requires |cfg.steps| > 0
    ensures var s := After(cfg, 2, [Trigger(inst, payload)]);
            && s.tasks.log == [StepMessage(cfg, inst, 0, 0, payload)] && s.states == NOTHING
            && s.agents == [Agent(IDLE, []), Agent(IDLE, [])] && StreamOk(s.tasks) && StreamOk(s.states)
  {
    OneMore(cfg, 2, [], Trigger(inst, payload));
    assert [] + [Trigger(inst, payload)] == [Trigger(inst, payload)];
    RunKeepsInv(cfg, 2, [Trigger(inst, payload)]);
  }

  lemma FirstRound(cfg: Config, inst: Text, payload: Text, x: Round, y: Round)
    requires TwoRounds(cfg, inst, payload, x, y)
    ensures var s := After(cfg, 2, [Trigger(inst, payload)]);
            RoundReady(cfg, s, 0, 1, inst, x) && RoundDone(cfg, s, RoundOver(cfg, s, 0, 1, inst, x), 0, 1, inst, x)
  {
    Triggered(cfg, inst, payload);
    var s := After(cfg, 2, [Trigger(inst, payload)]);
    NotAmong(s.tasks, ResumeCall(inst, x.n));
    NotAmong(s.tasks, StepTask(inst, 1, 0));
    NotAmong(s.states, ParkNote(inst, 0));
    OneRound(cfg, s, 0, 1, inst, x);
  }

  lemma SecondRound(cfg: Config, s: State, inst: Text, payload: Text, x: Round, y: Round)
    requires TwoRounds(cfg, inst, payload, x, y) && |s.agents| == 2 && StreamOk(s.tasks) && StreamOk(s.states)
    requires s.agents[0].outbox == [] && s.agents[1].outbox == [] && inst !in s.agents[1].worker.parked
    requires s.tasks.log == [StepMessage(cfg, inst, 0, 0, payload), ResumeMessage(cfg, inst, x.n, x.event),
                             StepMessage(cfg, inst, 1, 0, x.res)]
    requires s.states.log == [ParkMessage(cfg, inst, x.e), RemoveMessage(cfg, inst)]
    ensures var s' := RoundOver(cfg, s, 0, 1, inst, y);
            && RoundDone(cfg, s, s', 0, 1, inst, y)
            && s'.states.log == [ParkMessage(cfg, inst, x.e), RemoveMessage(cfg, inst), ParkMessage(cfg, inst, y.e)]
  {
    NotAmong(s.tasks, ResumeCall(inst, y.n));
    NotAmong(s.tasks, StepTask(inst, 2, 0));
    NotAmong(s.states, ParkNote(inst, 1));
    OneRound(cfg, s, 0, 1, inst, y);
    assert s.states.log[1].name == Some(RemoveNote(inst));
  }

  // After the second suspension was resumed worker 1 still holds the instance,
  // and has read every note there is: the second removal was dropped as a
  // duplicate of the first.
  lemma SecondSuspensionIsKept(cfg: Config, inst: Text, payload: Text, x: Round, y: Round)
    requires TwoRounds(cfg, inst, payload, x, y)
    ensures var s := After(cfg, 2, TwoSuspensions(inst, payload, x, y));
            && Holds(s, 1, inst, y.e) && |s.agents| == 2 && inst !in s.agents[0].worker.parked
            && s.states.log == [ParkMessage(cfg, inst, x.e), RemoveMessage(cfg, inst), ParkMessage(cfg, inst, y.e)]
            && |s.tasks.log| == 5 && s.tasks.log[4] == StepMessage(cfg, inst, 2, 0, y.res)
  {
    var start := [Trigger(inst, payload)];
    var s0 := After(cfg, 2, start);
    Triggered(cfg, inst, payload);
    FirstRound(cfg, inst, payload, x, y);
    RoundAfter(cfg, 2, start, 0, 1, inst, x);
    var es1 := start + RoundEvents(0, 1, inst, x);
    var s1 := After(cfg, 2, es1);
    assert s0.states.log + [ParkMessage(cfg, inst, x.e)] == [ParkMessage(cfg, inst, x.e)];
    SyncingReleases(cfg, s1, 1, 1, inst);
    OneMore(cfg, 2, es1, Sync(1, 1));
    SecondRound(cfg, After(cfg, 2, es1 + [Sync(1, 1)]), inst, payload, x, y);
    RoundAfter(cfg, 2, es1 + [Sync(1, 1)], 0, 1, inst, y);
    assert TwoSuspensions(inst, payload, x, y) == es1 + [Sync(1, 1)] + RoundEvents(0, 1, inst, y);
  }

  // And no removal of that instance is ever announced again.
  lemma RemovedOnce(cfg: Config, workers: nat, es: seq<Event>, inst: Text, j: nat, k: nat)
    requires |cfg.steps| > 0 && j < |After(cfg, workers, es).states.log| && k < |After(cfg, workers, es).states.log|
    requires After(cfg, workers, es).states.log[j].name == Some(RemoveNote(inst)) ==
             After(cfg, workers, es).states.log[k].name
    ensures j == k
  {
    RunKeepsInv(cfg, workers, es);
  }
}
