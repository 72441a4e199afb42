// What the handlers answered, and what in a run follows from that alone.
module SagaAnswers {
  import opened Bytes
  import opened TaskCodec
  import opened Saga
  import opened SagaRuns
  import opened SagaOrder

  // A task a worker ran, and the answer it got.
  datatype Handled = Handled(t: Task, answer: Answer)

  function Happened(cfg: Config, s: State, e: Event): seq<Handled> {
    if e.Handle? && e.a < |s.agents| && s.agents[e.a].outbox == [] && e.k < |s.tasks.log| then
      var m := s.tasks.log[e.k];
      var t := RunBy(cfg, m.body);
      if ControlOf(cfg.name, m.subject).None? && t.Some? then [Handled(t.value, e.answer)] else []
    else []
  }

  // Every task run so far, each time it was.
  ghost function History(cfg: Config, workers: nat, es: seq<Event>): seq<Handled> {
    if es == [] then []
    else
      var k := |es| - 1;
      History(cfg, workers, es[..k]) + Happened(cfg, After(cfg, workers, es[..k]), es[k])
  }

  predicate IsAttempt(x: Handled, inst: Text, step: U16, attempt: U8) {
    x.t.inst == inst && x.t.step == step && x.t.attempt == attempt
  }

  ghost predicate FailedAt(h: seq<Handled>, inst: Text, step: U16, attempt: U8) {
    exists x :: x in h && IsAttempt(x, inst, step, attempt) && x.answer.Failed?
  }

  // The step was done, or suspended to be resumed later.
  ghost predicate LeftAt(h: seq<Handled>, inst: Text, step: U16, attempt: U8) {
    exists x :: x in h && IsAttempt(x, inst, step, attempt) && (x.answer.Done? || x.answer.Suspend?)
  }

  ghost predicate Left(h: seq<Handled>, inst: Text, step: U16) {
    exists attempt: U8 :: LeftAt(h, inst, step, attempt)
  }

  // An attempt failed that was the last to be made.
  ghost predicate GaveUp(cfg: Config, h: seq<Handled>, inst: Text, step: U16) {
    exists attempt: U8 :: FailedAt(h, inst, step, attempt) && NextAttempt(attempt) >= cfg.maxRetries
  }

  // ---- The invariant ----

  // A later attempt follows a failure of the one before, a later step what
  // leaves the one before, a compensation a later step given up.
  ghost predicate NameCaused(cfg: Config, h: seq<Handled>, n: MsgName) {
    match n
    case StepTask(inst, step, attempt) =>
      if attempt > 0 then FailedAt(h, inst, step, attempt - 1)
      else step == 0 || Left(h, inst, step - 1) || FailedAt(h, inst, step, 0xFF)
    case Compensate(inst, j) => exists step: U16 :: step > j && GaveUp(cfg, h, inst, step)
    case _ => true
  }

  ghost predicate NoteCaused(cfg: Config, h: seq<Handled>, subject: Text, body: Text) {
    match NoteOf(cfg.name, subject)
    case Some(ParkSubject(inst)) => DecodePark(body).Some? ==> Left(h, inst, DecodePark(body).value.step)
    case _ => true
  }

  ghost predicate PostFollows(cfg: Config, h: seq<Handled>, p: Post) {
    NameCaused(cfg, h, p.name) && (p.to == States ==> NoteCaused(cfg, h, SubjectText(cfg.name, p.subject), p.body))
  }

  ghost predicate AgentFollows(cfg: Config, h: seq<Handled>, agent: Agent) {
    && (forall inst :: inst in agent.worker.parked ==> Left(h, inst, agent.worker.parked[inst].step))
    && forall p :: p in agent.outbox ==> PostFollows(cfg, h, p)
  }

  ghost predicate Follows(cfg: Config, h: seq<Handled>, s: State) {
    && (forall k :: 0 <= k < |s.tasks.log| && s.tasks.log[k].name.Some? ==>
       NameCaused(cfg, h, s.tasks.log[k].name.value))
    && (forall k :: 0 <= k < |s.states.log| ==> NoteCaused(cfg, h, s.states.log[k].subject, s.states.log[k].body))
    && forall a :: 0 <= a < |s.agents| ==> AgentFollows(cfg, h, s.agents[a])
  }

  // ---- Histories only grow ----

  lemma StillCaused(cfg: Config, h: seq<Handled>, more: seq<Handled>, n: MsgName)
    ensures NameCaused(cfg, h, n) ==> NameCaused(cfg, h + more, n)
  {
    if NameCaused(cfg, h, n) {
      match n
      case StepTask(inst, step, attempt) =>
        if attempt > 0 {
          StillFailed(h, more, inst, step, attempt - 1);
        } else if step > 0 {
          StillFailed(h, more, inst, step, 0xFF);
          StillLeft(h, more, inst, step - 1);
        }
      case Compensate(inst, j) =>
        var step: U16 :| step > j && GaveUp(cfg, h, inst, step);
        var attempt: U8 :| FailedAt(h, inst, step, attempt) && NextAttempt(attempt) >= cfg.maxRetries;
        StillFailed(h, more, inst, step, attempt);
        assert GaveUp(cfg, h + more, inst, step);
      case _ =>
    }
  }

  lemma StillFailed(h: seq<Handled>, more: seq<Handled>, inst: Text, step: U16, attempt: U8)
    ensures FailedAt(h, inst, step, attempt) ==> FailedAt(h + more, inst, step, attempt)
  {
    if x :| x in h && IsAttempt(x, inst, step, attempt) && x.answer.Failed? {
      assert x in h + more;
    }
  }

  lemma StillLeft(h: seq<Handled>, more: seq<Handled>, inst: Text, step: U16)
    ensures Left(h, inst, step) ==> Left(h + more, inst, step)
  {
    if attempt: U8 :| LeftAt(h, inst, step, attempt) {
      var x :| x in h && IsAttempt(x, inst, step, attempt) && (x.answer.Done? || x.answer.Suspend?);
      assert x in h + more;
      assert LeftAt(h + more, inst, step, attempt);
    }
  }

  lemma NoteStill(cfg: Config, h: seq<Handled>, more: seq<Handled>, subject: Text, body: Text)
    ensures NoteCaused(cfg, h, subject, body) ==> NoteCaused(cfg, h + more, subject, body)
  {
    match NoteOf(cfg.name, subject)
    case Some(ParkSubject(inst)) =>
      if DecodePark(body).Some? {
        StillLeft(h, more, inst, DecodePark(body).value.step);
      }
    case _ =>
  }

  lemma AgentStill(cfg: Config, h: seq<Handled>, more: seq<Handled>, agent: Agent)
    requires AgentFollows(cfg, h, agent)
    ensures AgentFollows(cfg, h + more, agent)
  {
    forall inst | inst in agent.worker.parked
      ensures Left(h + more, inst, agent.worker.parked[inst].step)
    {
      StillLeft(h, more, inst, agent.worker.parked[inst].step);
    }
    forall p | p in agent.outbox
      ensures PostFollows(cfg, h + more, p)
    {
      StillCaused(cfg, h, more, p.name);
      NoteStill(cfg, h, more, SubjectText(cfg.name, p.subject), p.body);
    }
  }

  lemma StillFollows(cfg: Config, h: seq<Handled>, more: seq<Handled>, s: State)
    requires Follows(cfg, h, s)
    ensures Follows(cfg, h + more, s)
  {
    forall k | 0 <= k < |s.tasks.log| && s.tasks.log[k].name.Some?
      ensures NameCaused(cfg, h + more, s.tasks.log[k].name.value)
    {
      StillCaused(cfg, h, more, s.tasks.log[k].name.value);
    }
    forall k | 0 <= k < |s.states.log|
      ensures NoteCaused(cfg, h + more, s.states.log[k].subject, s.states.log[k].body)
    {
      NoteStill(cfg, h, more, s.states.log[k].subject, s.states.log[k].body);
    }
    forall a | 0 <= a < |s.agents|
      ensures AgentFollows(cfg, h + more, s.agents[a])
    {
      AgentStill(cfg, h, more, s.agents[a]);
    }
  }

  // ---- What one message leads to ----

  lemma NotesFollow(cfg: Config, h: seq<Handled>, inst: Text, e: Parked)
    ensures PostFollows(cfg, h, RemovePost(inst)) && (Left(h, inst, e.step) ==> PostFollows(cfg, h, ParkPost(inst, e)))
  {
    NotesAreToldApart(cfg.name, ParkSubject(inst));
    NotesAreToldApart(cfg.name, RemoveSubject(inst));
    ParkReadsBackIff(e);
  }

  lemma AdvanceFollows(cfg: Config, h: seq<Handled>, inst: Text, step: U16, ctx: Text)
    requires Left(h, inst, step)
    ensures forall p :: p in Advance(cfg, inst, step, ctx) ==> PostFollows(cfg, h, p)
  {
  }

  lemma {:induction false} UndoFollows(cfg: Config, h: seq<Handled>, inst: Text, step: U16, j: nat, ctx: Text)
    requires j <= step && GaveUp(cfg, h, inst, step)
    ensures forall p :: p in Undo(inst, j, ctx) ==> PostFollows(cfg, h, p)
  {
    if j > 0 {
      UndoFollows(cfg, h, inst, step, j - 1, ctx);
      assert NameCaused(cfg, h, Compensate(inst, j - 1));
    }
  }

  lemma RanLast(h: seq<Handled>, x: Handled)
    requires h != [] && h[|h| - 1] == x
    ensures x.answer.Failed? ==> FailedAt(h, x.t.inst, x.t.step, x.t.attempt)
    ensures x.answer.Done? || x.answer.Suspend? ==> Left(h, x.t.inst, x.t.step)
  {
    assert x in h && IsAttempt(x, x.t.inst, x.t.step, x.t.attempt);
    assert x.answer.Done? || x.answer.Suspend? ==> LeftAt(h, x.t.inst, x.t.step, x.t.attempt);
  }

  lemma FailureFollows(cfg: Config, h: seq<Handled>, w: Worker, t: Task, err: Text)
    requires FailedAt(h, t.inst, t.step, t.attempt)
    ensures forall p :: p in OnFailure(cfg, w, t, err).posts ==> PostFollows(cfg, h, p)
  {
    if NextAttempt(t.attempt) >= cfg.maxRetries {
      assert GaveUp(cfg, h, t.inst, t.step);
      UndoFollows(cfg, h, t.inst, t.step, t.step, t.ctx);
    }
  }

  lemma StepFollows(cfg: Config, h: seq<Handled>, w: Worker, t: Task, answer: Answer)
    requires t.step < |cfg.steps| && h != [] && h[|h| - 1] == Handled(t, answer)
    requires AgentFollows(cfg, h, Agent(w, []))
    ensures var e := OnStep(cfg, w, t, answer); AgentFollows(cfg, h, Agent(e.worker, e.posts))
  {
    RanLast(h, Handled(t, answer));
    match answer
    case Failed(err) => FailureFollows(cfg, h, w, t, err);
    case Done(ctx) => AdvanceFollows(cfg, h, t.inst, t.step, ctx);
    case Suspend(state, ms) => NotesFollow(cfg, h, t.inst, Parked(t.step, state, t.ctx));
    case Neither =>
  }

  lemma HeldFollows(cfg: Config, h: seq<Handled>, w: Worker, inst: Text, seqNo: nat, answer: Answer)
    requires AgentFollows(cfg, h, Agent(w, []))
    ensures var e := OnResume(cfg, w, inst, seqNo, answer); AgentFollows(cfg, h, Agent(e.worker, e.posts))
    ensures var e := OnTimeout(cfg, w, inst, seqNo, answer); AgentFollows(cfg, h, Agent(e.worker, e.posts))
    ensures var e := OnCancel(w, inst); AgentFollows(cfg, h, Agent(e.worker, e.posts))
  {
    NotesFollow(cfg, h, inst, Parked(0, [], []));
    if inst in w.parked && answer.Done? {
      AdvanceFollows(cfg, h, inst, w.parked[inst].step, answer.ctx);
    }
  }

  lemma HandleFollows(cfg: Config, h: seq<Handled>, s: State, a: nat, k: nat, answer: Answer)
    requires a < |s.agents| && s.agents[a].outbox == [] && k < |s.tasks.log| && AgentFollows(cfg, h, s.agents[a])
    ensures var m, w := s.tasks.log[k], s.agents[a].worker;
            var e := Process(cfg, w, ControlOf(cfg.name, m.subject), m.body, k, answer);
            AgentFollows(cfg, h + Happened(cfg, s, Handle(a, k, answer)), Agent(e.worker, e.posts))
  {
    var m, w, more := s.tasks.log[k], s.agents[a].worker, Happened(cfg, s, Handle(a, k, answer));
    var control := ControlOf(cfg.name, m.subject);
    AgentStill(cfg, h, more, s.agents[a]);
    if control.None? {
      var t := RunBy(cfg, m.body);
      if t.Some? {
        StepFollows(cfg, h + more, w, t.value, answer);
      }
    } else {
      match control.value
      case ResumeSubject(inst) => HeldFollows(cfg, h + more, w, inst, k, answer);
      case TimeoutSubject(inst) => HeldFollows(cfg, h + more, w, inst, k, answer);
      case CancelSubject(inst) => HeldFollows(cfg, h + more, w, inst, k, answer);
      case _ =>
    }
  }

  // ---- One event ----

  lemma PutFollows(cfg: Config, h: seq<Handled>, s: State, p: Post)
    requires Follows(cfg, h, s) && PostFollows(cfg, h, p)
    ensures Follows(cfg, h, Put(cfg, s, p))
  {
  }

  lemma WithAgentFollows(cfg: Config, h: seq<Handled>, s: State, a: nat, agent: Agent)
    requires Follows(cfg, h, s) && a < |s.agents| && AgentFollows(cfg, h, agent)
    ensures Follows(cfg, h, s.(agents := s.agents[a := agent]))
  {
  }

  lemma SyncFollows(cfg: Config, h: seq<Handled>, agent: Agent, subject: Text, body: Text)
    requires AgentFollows(cfg, h, agent) && NoteCaused(cfg, h, subject, body)
    ensures AgentFollows(cfg, h, agent.(worker := OnState(cfg, agent.worker, subject, body)))
  {
  }

  // Handling a message is the one event that adds to the history.
  lemma EventFollows(cfg: Config, h: seq<Handled>, s: State, e: Event)
    requires Follows(cfg, h, s)
    ensures Follows(cfg, h + Happened(cfg, s, e), Step(cfg, s, e))
  {
    StillFollows(cfg, h, Happened(cfg, s, e), s);
    var h' := h + Happened(cfg, s, e);
    match e
    case Trigger(inst, payload) => PutFollows(cfg, h', s, StepPost(inst, 0, 0, payload));
    case Foreign(_, _) =>
    case AskResume(inst, n, event) => PutFollows(cfg, h', s,
      Post(Tasks, ResumeSubject(inst), ResumeCall(inst, n), event));
    case AskCancel(inst) => PutFollows(cfg, h', s, Post(Tasks, CancelSubject(inst), CancelCall(inst), []));
    case Handle(a, k, answer) =>
      if a < |s.agents| && s.agents[a].outbox == [] && k < |s.tasks.log| {
        HandleFollows(cfg, h, s, a, k, answer);
        var m := s.tasks.log[k];
        var eff := Process(cfg, s.agents[a].worker, ControlOf(cfg.name, m.subject), m.body, k, answer);
        WithAgentFollows(cfg, h', s, a, Agent(eff.worker, eff.posts));
      }
    case Send(a, ok) =>
      if a < |s.agents| && s.agents[a].outbox != [] {
        var agent := s.agents[a].(outbox := s.agents[a].outbox[1..]);
        WithAgentFollows(cfg, h', s, a, agent);
        PutFollows(cfg, h', s.(agents := s.agents[a := agent]), s.agents[a].outbox[0]);
      }
    case Fire(a, j, ok) =>
      if a < |s.agents| && j < |s.agents[a].worker.timers| {
        var w := s.agents[a].worker;
        var agent := s.agents[a].(worker := w.(timers := w.timers[..j] + w.timers[j + 1..]));
        WithAgentFollows(cfg, h', s, a, agent);
        PutFollows(cfg, h', s.(agents := s.agents[a := agent]), TimeoutPost(w.timers[j].0, w.timers[j].1));
      }
    case Sync(a, k) =>
      if a < |s.agents| && k < |s.states.log| {
        var m := s.states.log[k];
        SyncFollows(cfg, h', s.agents[a], m.subject, m.body);
        WithAgentFollows(cfg, h', s, a, s.agents[a].(worker := OnState(cfg, s.agents[a].worker, m.subject, m.body)));
      }
    case Restart(a) => if a < |s.agents| { WithAgentFollows(cfg, h', s, a, Agent(IDLE, [])); }
  }

  lemma {:induction false} RunFollows(cfg: Config, workers: nat, es: seq<Event>)
    ensures Follows(cfg, History(cfg, workers, es), After(cfg, workers, es))
  {
    if es != [] {
      var k := |es| - 1;
      RunFollows(cfg, workers, es[..k]);
      NextIsStep(cfg, After(cfg, workers, es[..k]), es[k]);
      EventFollows(cfg, History(cfg, workers, es[..k]), After(cfg, workers, es[..k]), es[k]);
    }
  }

  // ---- Results ----

  // In every run: a compensation is enqueued only after a later step of that
  // instance failed at an attempt after which there is no other.
  lemma CompensationsAreCaused(cfg: Config, workers: nat, es: seq<Event>, inst: Text, j: U16)
    requires Logged(After(cfg, workers, es).tasks, Compensate(inst, j))
    ensures exists step: U16 :: step > j && GaveUp(cfg, History(cfg, workers, es), inst, step)
  {
    LoggedIsCaused(cfg, workers, es, Compensate(inst, j));
  }

  // What was run had been published, if nobody else puts tasks on the stream.
  lemma {:induction false} RunTasksAreLogged(cfg: Config, workers: nat, es: seq<Event>, x: Handled)
    requires (forall i :: 0 <= i < |es| ==> OwnEvent(cfg, es[i])) && x in History(cfg, workers, es)
    ensures Logged(After(cfg, workers, es).tasks, StepTask(x.t.inst, x.t.step, x.t.attempt))
  {
    var k := |es| - 1;
    var s := After(cfg, workers, es[..k]);
    var n := StepTask(x.t.inst, x.t.step, x.t.attempt);
    assert forall i :: 0 <= i < k ==> es[..k][i] == es[i];
    if x in History(cfg, workers, es[..k]) {
      RunTasksAreLogged(cfg, workers, es[..k], x);
    } else {
      RunKeepsOwn(cfg, workers, es[..k]);
      assert Own(cfg, s.tasks.log[es[k].k]);
    }
    NextIsStep(cfg, s, es[k]);
    StillLogged(cfg, s, es[k], n);
  }

  lemma StillLogged(cfg: Config, s: State, e: Event, n: MsgName)
    requires Logged(s.tasks, n)
    ensures Logged(Step(cfg, s, e).tasks, n)
  {
    var k :| 0 <= k < |s.tasks.log| && s.tasks.log[k].name == Some(n);
    assert s.tasks.log <= Step(cfg, s, e).tasks.log;
    assert Step(cfg, s, e).tasks.log[k].name == Some(n);
  }

  // An attempt that was published had every attempt before it fail.
  lemma {:induction false} EarlierAttemptsFailed(
      cfg: Config, workers: nat, es: seq<Event>, inst: Text, step: U16, attempt: U8, before: U8)
    requires (forall i :: 0 <= i < |es| ==> OwnEvent(cfg, es[i])) && before < attempt
    requires Logged(After(cfg, workers, es).tasks, StepTask(inst, step, attempt))
    ensures FailedAt(History(cfg, workers, es), inst, step, before)
    decreases attempt
  {
    var h := History(cfg, workers, es);
    LoggedIsCaused(cfg, workers, es, StepTask(inst, step, attempt));
    if before < attempt - 1 {
      var x :| x in h && IsAttempt(x, inst, step, attempt - 1) && x.answer.Failed?;
      RunTasksAreLogged(cfg, workers, es, x);
      EarlierAttemptsFailed(cfg, workers, es, inst, step, attempt - 1, before);
    }
  }

  lemma FirstAttemptIsLogged(cfg: Config, workers: nat, es: seq<Event>, inst: Text, step: U16, attempt: U8)
    requires (forall i :: 0 <= i < |es| ==> OwnEvent(cfg, es[i]))
    requires Logged(After(cfg, workers, es).tasks, StepTask(inst, step, attempt))
    ensures Logged(After(cfg, workers, es).tasks, StepTask(inst, step, 0))
  {
    if attempt > 0 {
      EarlierAttemptsFailed(cfg, workers, es, inst, step, attempt, 0);
      var x :| x in History(cfg, workers, es) && IsAttempt(x, inst, step, 0) && x.answer.Failed?;
      RunTasksAreLogged(cfg, workers, es, x);
    }
  }

  lemma LoggedInBounds(cfg: Config, workers: nat, es: seq<Event>, n: MsgName)
    requires |cfg.steps| > 0 && Logged(After(cfg, workers, es).tasks, n)
    ensures InBounds(cfg, n)
  {
    RunKeepsInv(cfg, workers, es);
    var log := After(cfg, workers, es).tasks.log;
    var k :| 0 <= k < |log| && log[k].name == Some(n);
    assert MessageOk(cfg, log[k]);
  }

  lemma NoAttempt255(cfg: Config, workers: nat, es: seq<Event>, inst: Text, step: U16)
    requires |cfg.steps| > 0 && (forall i :: 0 <= i < |es| ==> OwnEvent(cfg, es[i]))
    ensures !FailedAt(History(cfg, workers, es), inst, step, 0xFF)
  {
    if x :| x in History(cfg, workers, es) && IsAttempt(x, inst, step, 0xFF) && x.answer.Failed? {
      RunAttempt(cfg, workers, es, x);
    }
  }

  lemma LoggedIsCaused(cfg: Config, workers: nat, es: seq<Event>, n: MsgName)
    requires Logged(After(cfg, workers, es).tasks, n)
    ensures NameCaused(cfg, History(cfg, workers, es), n)
  {
    RunFollows(cfg, workers, es);
    var log := After(cfg, workers, es).tasks.log;
    var k :| 0 <= k < |log| && log[k].name == Some(n);
  }

  lemma AdvancedIsLeft(cfg: Config, workers: nat, es: seq<Event>, inst: Text, step: U16, attempt: U8)
    requires |cfg.steps| > 0 && (forall i :: 0 <= i < |es| ==> OwnEvent(cfg, es[i])) && step > 0
    requires Logged(After(cfg, workers, es).tasks, StepTask(inst, step, attempt))
    ensures Left(History(cfg, workers, es), inst, step - 1)
  {
    FirstAttemptIsLogged(cfg, workers, es, inst, step, attempt);
    LoggedIsCaused(cfg, workers, es, StepTask(inst, step, 0));
    NoAttempt255(cfg, workers, es, inst, step);
  }

  // A worker was given two kinds of answer for one and the same attempt.
  ghost predicate AnsweredBothWays(h: seq<Handled>, inst: Text, step: U16) {
    exists attempt: U8 :: FailedAt(h, inst, step, attempt) && LeftAt(h, inst, step, attempt)
  }

  lemma RunAttempt(cfg: Config, workers: nat, es: seq<Event>, x: Handled)
    requires |cfg.steps| > 0 && (forall i :: 0 <= i < |es| ==> OwnEvent(cfg, es[i])) && x in History(cfg, workers, es)
    ensures x.t.attempt < Tries(cfg)
    ensures Logged(After(cfg, workers, es).tasks, StepTask(x.t.inst, x.t.step, x.t.attempt))
  {
    RunTasksAreLogged(cfg, workers, es, x);
    LoggedInBounds(cfg, workers, es, StepTask(x.t.inst, x.t.step, x.t.attempt));
  }

  // Once the last attempt was run and failed, every attempt has failed.
  lemma AllAttemptsFailed(cfg: Config, workers: nat, es: seq<Event>, inst: Text, step: U16, b: U8)
    requires |cfg.steps| > 0 && (forall i :: 0 <= i < |es| ==> OwnEvent(cfg, es[i])) && b < Tries(cfg)
    requires GaveUp(cfg, History(cfg, workers, es), inst, step)
    ensures FailedAt(History(cfg, workers, es), inst, step, b)
  {
    var h := History(cfg, workers, es);
    var last: U8 :| FailedAt(h, inst, step, last) && NextAttempt(last) >= cfg.maxRetries;
    var x :| x in h && IsAttempt(x, inst, step, last) && x.answer.Failed?;
    RunAttempt(cfg, workers, es, x);
    if b < last {
      EarlierAttemptsFailed(cfg, workers, es, inst, step, last, b);
    }
  }

  // An instance that is given up at a step and also goes on past it has had one
  // attempt at that step run twice, to different ends. So if no attempt is
  // answered both ways, none is both compensated and advanced.
  lemma BothNeedsTwoAnswers(cfg: Config, workers: nat, es: seq<Event>, inst: Text, step: U16, attempt: U8)
    requires |cfg.steps| > 0 && (forall i :: 0 <= i < |es| ==> OwnEvent(cfg, es[i])) && step < 0xFFFF
    requires GaveUp(cfg, History(cfg, workers, es), inst, step)
    requires Logged(After(cfg, workers, es).tasks, StepTask(inst, step as int + 1, attempt))
    ensures AnsweredBothWays(History(cfg, workers, es), inst, step)
  {
    var h := History(cfg, workers, es);
    AdvancedIsLeft(cfg, workers, es, inst, step as int + 1, attempt);
    var b: U8 :| LeftAt(h, inst, step, b);
    var y :| y in h && IsAttempt(y, inst, step, b) && (y.answer.Done? || y.answer.Suspend?);
    RunAttempt(cfg, workers, es, y);
    AllAttemptsFailed(cfg, workers, es, inst, step, b);
  }
}
