// In every run the steps of an instance are enqueued in order.
module SagaOrder {
  import opened Bytes
  import opened TaskCodec
  import opened Saga
  import opened SagaRuns

  // A worker that gets this message runs that step of that instance.
  ghost predicate TakenFor(cfg: Config, m: Message, inst: Text, step: U16) {
    ControlOf(cfg.name, m.subject).None?
    && var t := RunBy(cfg, m.body);
    t.Some? && t.value.inst == inst && t.value.step == step
  }

  // The workflow published it as a task of that step of that instance.
  ghost predicate NamedFor(m: Message, inst: Text, step: U16) {
    m.name.Some? && m.name.value.StepTask? && m.name.value.inst == inst && m.name.value.step == step
  }

  ghost predicate Ran(cfg: Config, log: seq<Message>, inst: Text, step: U16) {
    exists i :: 0 <= i < |log| && TakenFor(cfg, log[i], inst, step)
  }

  // Someone else brought the step about: a message is taken for it that was not
  // published as it.
  ghost predicate Intruded(cfg: Config, log: seq<Message>, inst: Text, step: U16) {
    exists i :: 0 <= i < |log| && TakenFor(cfg, log[i], inst, step) && !NamedFor(log[i], inst, step)
  }

  ghost predicate Caused(cfg: Config, log: seq<Message>, inst: Text, step: U16) {
    step == 0 || Ran(cfg, log, inst, step - 1) || Intruded(cfg, log, inst, step)
  }

  lemma CausedMore(cfg: Config, log: seq<Message>, more: seq<Message>, inst: Text, step: U16)
    ensures Ran(cfg, log, inst, step) ==> Ran(cfg, log + more, inst, step)
    ensures Caused(cfg, log, inst, step) ==> Caused(cfg, log + more, inst, step)
  {
    assert forall i :: 0 <= i < |log| ==> (log + more)[i] == log[i];
    if i :| 0 <= i < |log| && TakenFor(cfg, log[i], inst, step) {
      assert TakenFor(cfg, (log + more)[i], inst, step);
    }
    if step > 0 && Ran(cfg, log, inst, step - 1) {
      var i :| 0 <= i < |log| && TakenFor(cfg, log[i], inst, step - 1);
      assert TakenFor(cfg, (log + more)[i], inst, step - 1);
    }
    if i :| 0 <= i < |log| && TakenFor(cfg, log[i], inst, step) && !NamedFor(log[i], inst, step) {
      assert TakenFor(cfg, (log + more)[i], inst, step) && !NamedFor((log + more)[i], inst, step);
    }
  }

  // ---- The invariant ----

  ghost predicate NameOk(cfg: Config, log: seq<Message>, n: MsgName) {
    n.StepTask? ==> Caused(cfg, log, n.inst, n.step)
  }

  // What a park note tells was announced after the step was run.
  ghost predicate NoteOk(cfg: Config, log: seq<Message>, subject: Text, body: Text) {
    match NoteOf(cfg.name, subject)
    case Some(ParkSubject(inst)) => DecodePark(body).Some? ==> Ran(cfg, log, inst, DecodePark(body).value.step)
    case _ => true
  }

  ghost predicate PostCaused(cfg: Config, log: seq<Message>, p: Post) {
    NameOk(cfg, log, p.name) && (p.to == States ==> NoteOk(cfg, log, SubjectText(cfg.name, p.subject), p.body))
  }

  ghost predicate ParkedOk(cfg: Config, log: seq<Message>, parked: map<Text, Parked>) {
    forall inst :: inst in parked ==> Ran(cfg, log, inst, parked[inst].step)
  }

  ghost predicate AgentOk(cfg: Config, log: seq<Message>, agent: Agent) {
    ParkedOk(cfg, log, agent.worker.parked) && forall p :: p in agent.outbox ==> PostCaused(cfg, log, p)
  }

  ghost predicate LogOk(cfg: Config, log: seq<Message>) {
    forall j :: 0 <= j < |log| && log[j].name.Some? ==> NameOk(cfg, log[..j], log[j].name.value)
  }

  ghost predicate NotesOk(cfg: Config, log: seq<Message>, notes: seq<Message>) {
    forall k :: 0 <= k < |notes| ==> NoteOk(cfg, log, notes[k].subject, notes[k].body)
  }

  ghost predicate Ordered(cfg: Config, s: State) {
    && LogOk(cfg, s.tasks.log) && NotesOk(cfg, s.tasks.log, s.states.log)
    && forall a :: 0 <= a < |s.agents| ==> AgentOk(cfg, s.tasks.log, s.agents[a])
  }

  // ---- What one message leads to ----

  lemma ParkPostOk(cfg: Config, log: seq<Message>, inst: Text, e: Parked)
    requires Ran(cfg, log, inst, e.step)
    ensures PostCaused(cfg, log, ParkPost(inst, e))
  {
    NotesAreToldApart(cfg.name, ParkSubject(inst));
    ParkReadsBackIff(e);
  }

  lemma RemovePostOk(cfg: Config, log: seq<Message>, inst: Text)
    ensures PostCaused(cfg, log, RemovePost(inst))
  {
    NotesAreToldApart(cfg.name, RemoveSubject(inst));
  }

  lemma AdvanceOk(cfg: Config, log: seq<Message>, inst: Text, step: U16, ctx: Text)
    requires Ran(cfg, log, inst, step)
    ensures forall p :: p in Advance(cfg, inst, step, ctx) ==> PostCaused(cfg, log, p)
  {
  }

  lemma RetryOk(cfg: Config, log: seq<Message>, k: nat, t: Task, attempt: U8)
    requires LogOk(cfg, log) && k < |log| && TakenFor(cfg, log[k], t.inst, t.step)
    ensures PostCaused(cfg, log, StepPost(t.inst, t.step, attempt, t.ctx))
  {
    if NamedFor(log[k], t.inst, t.step) {
      assert NameOk(cfg, log[..k], log[k].name.value);
      assert log == log[..k] + log[k..];
      CausedMore(cfg, log[..k], log[k..], t.inst, t.step);
    }
  }

  lemma FailureOk(cfg: Config, log: seq<Message>, k: nat, w: Worker, t: Task, err: Text)
    requires LogOk(cfg, log) && k < |log| && TakenFor(cfg, log[k], t.inst, t.step)
    ensures forall p :: p in OnFailure(cfg, w, t, err).posts ==> PostCaused(cfg, log, p)
  {
    UndoPosts(t.inst, t.step, t.ctx);
    RetryOk(cfg, log, k, t, NextAttempt(t.attempt));
  }

  lemma StepOk(cfg: Config, log: seq<Message>, k: nat, w: Worker, t: Task, answer: Answer)
    requires LogOk(cfg, log) && k < |log| && TakenFor(cfg, log[k], t.inst, t.step) && t.step < |cfg.steps|
    requires ParkedOk(cfg, log, w.parked)
    ensures var e := OnStep(cfg, w, t, answer); AgentOk(cfg, log, Agent(e.worker, e.posts))
  {
    match answer
    case Failed(err) => FailureOk(cfg, log, k, w, t, err);
    case Done(ctx) => AdvanceOk(cfg, log, t.inst, t.step, ctx);
    case Suspend(state, ms) => ParkPostOk(cfg, log, t.inst, Parked(t.step, state, t.ctx));
    case Neither =>
  }

  lemma HeldOk(cfg: Config, log: seq<Message>, w: Worker, inst: Text, seqNo: nat, answer: Answer)
    requires ParkedOk(cfg, log, w.parked)
    ensures var e := OnResume(cfg, w, inst, seqNo, answer); AgentOk(cfg, log, Agent(e.worker, e.posts))
    ensures var e := OnTimeout(cfg, w, inst, seqNo, answer); AgentOk(cfg, log, Agent(e.worker, e.posts))
    ensures var e := OnCancel(w, inst); AgentOk(cfg, log, Agent(e.worker, e.posts))
  {
    RemovePostOk(cfg, log, inst);
    if inst in w.parked && answer.Done? {
      AdvanceOk(cfg, log, inst, w.parked[inst].step, answer.ctx);
    }
  }

  lemma ProcessOk(cfg: Config, log: seq<Message>, k: nat, w: Worker, answer: Answer)
    requires LogOk(cfg, log) && k < |log| && ParkedOk(cfg, log, w.parked)
    ensures var e := Process(cfg, w, ControlOf(cfg.name, log[k].subject), log[k].body, k, answer);
            AgentOk(cfg, log, Agent(e.worker, e.posts))
  {
    var control := ControlOf(cfg.name, log[k].subject);
    if control.None? {
      var t := RunBy(cfg, log[k].body);
      if t.Some? {
        StepOk(cfg, log, k, w, t.value, answer);
      }
    } else {
      match control.value
      case ResumeSubject(inst) => HeldOk(cfg, log, w, inst, k, answer);
      case TimeoutSubject(inst) => HeldOk(cfg, log, w, inst, k, answer);
      case CancelSubject(inst) => HeldOk(cfg, log, w, inst, k, answer);
      case _ =>
    }
  }

  lemma SyncOk(cfg: Config, log: seq<Message>, w: Worker, subject: Text, body: Text)
    requires ParkedOk(cfg, log, w.parked) && NoteOk(cfg, log, subject, body)
    ensures ParkedOk(cfg, log, OnState(cfg, w, subject, body).parked)
  {
  }

  // ---- One event ----

  lemma AgentMore(cfg: Config, log: seq<Message>, m: Message, agent: Agent)
    requires AgentOk(cfg, log, agent)
    ensures AgentOk(cfg, log + [m], agent)
  {
    forall inst | inst in agent.worker.parked
      ensures Ran(cfg, log + [m], inst, agent.worker.parked[inst].step)
    {
      CausedMore(cfg, log, [m], inst, agent.worker.parked[inst].step);
    }
    forall p | p in agent.outbox
      ensures PostCaused(cfg, log + [m], p)
    {
      if p.name.StepTask? {
        CausedMore(cfg, log, [m], p.name.inst, p.name.step);
      }
      NoteMore(cfg, log, m, SubjectText(cfg.name, p.subject), p.body);
    }
  }

  lemma NoteMore(cfg: Config, log: seq<Message>, m: Message, subject: Text, body: Text)
    ensures NoteOk(cfg, log, subject, body) ==> NoteOk(cfg, log + [m], subject, body)
  {
    match NoteOf(cfg.name, subject)
    case Some(ParkSubject(inst)) =>
      if DecodePark(body).Some? {
        CausedMore(cfg, log, [m], inst, DecodePark(body).value.step);
      }
    case _ =>
  }

  lemma LogMore(cfg: Config, log: seq<Message>, m: Message)
    requires LogOk(cfg, log) && (m.name.Some? ==> NameOk(cfg, log, m.name.value))
    ensures LogOk(cfg, log + [m])
  {
    var log' := log + [m];
    forall j | 0 <= j < |log'| && log'[j].name.Some?
      ensures NameOk(cfg, log'[..j], log'[j].name.value)
    {
      assert log'[..j] == log[..j];
      assert j == |log| ==> log[..j] == log;
    }
  }

  // One more message on the task stream.
  lemma GrowsOrdered(cfg: Config, s: State, m: Message, ids: set<Text>)
    requires Ordered(cfg, s) && (m.name.Some? ==> NameOk(cfg, s.tasks.log, m.name.value))
    ensures Ordered(cfg, s.(tasks := Stream(s.tasks.log + [m], ids)))
  {
    LogMore(cfg, s.tasks.log, m);
    forall k | 0 <= k < |s.states.log|
      ensures NoteOk(cfg, s.tasks.log + [m], s.states.log[k].subject, s.states.log[k].body)
    {
      NoteMore(cfg, s.tasks.log, m, s.states.log[k].subject, s.states.log[k].body);
    }
    forall a | 0 <= a < |s.agents|
      ensures AgentOk(cfg, s.tasks.log + [m], s.agents[a])
    {
      AgentMore(cfg, s.tasks.log, m, s.agents[a]);
    }
  }

  lemma PutOrdered(cfg: Config, s: State, p: Post)
    requires Ordered(cfg, s) && PostCaused(cfg, s.tasks.log, p)
    ensures Ordered(cfg, Put(cfg, s, p))
  {
    var m := Message(Some(p.name), SubjectText(cfg.name, p.subject), p.body);
    match p.to
    case Tasks =>
      if IdOf(p.name) !in s.tasks.ids {
        GrowsOrdered(cfg, s, m, s.tasks.ids + {IdOf(p.name)});
      }
    case States => NotesMore(cfg, s.tasks.log, s.states.log, m);
    case DeadLetters =>
  }

  lemma NotesMore(cfg: Config, log: seq<Message>, notes: seq<Message>, m: Message)
    requires NotesOk(cfg, log, notes) && NoteOk(cfg, log, m.subject, m.body)
    ensures NotesOk(cfg, log, notes + [m])
  {
  }

  lemma WithAgent(cfg: Config, s: State, a: nat, agent: Agent)
    requires Ordered(cfg, s) && a < |s.agents| && AgentOk(cfg, s.tasks.log, agent)
    ensures Ordered(cfg, s.(agents := s.agents[a := agent]))
  {
  }

  lemma EventKeepsOrder(cfg: Config, s: State, e: Event)
    requires Ordered(cfg, s)
    ensures Ordered(cfg, Step(cfg, s, e))
  {
    match e
    case Trigger(inst, payload) => PutOrdered(cfg, s, StepPost(inst, 0, 0, payload));
    case Foreign(subject, body) => GrowsOrdered(cfg, s, Message(None, subject, body), s.tasks.ids);
    case AskResume(inst, n, event) => PutOrdered(cfg, s, Post(Tasks, ResumeSubject(inst), ResumeCall(inst, n), event));
    case AskCancel(inst) => PutOrdered(cfg, s, Post(Tasks, CancelSubject(inst), CancelCall(inst), []));
    case Handle(a, k, answer) =>
      if a < |s.agents| && s.agents[a].outbox == [] && k < |s.tasks.log| {
        var w := s.agents[a].worker;
        ProcessOk(cfg, s.tasks.log, k, w, answer);
        var eff := Process(cfg, w, ControlOf(cfg.name, s.tasks.log[k].subject), s.tasks.log[k].body, k, answer);
        WithAgent(cfg, s, a, Agent(eff.worker, eff.posts));
      }
    case Send(a, ok) => SendKeepsOrder(cfg, s, a, ok);
    case Fire(a, j, ok) => FireKeepsOrder(cfg, s, a, j, ok);
    case Sync(a, k) =>
      if a < |s.agents| && k < |s.states.log| {
        var m := s.states.log[k];
        SyncOk(cfg, s.tasks.log, s.agents[a].worker, m.subject, m.body);
        WithAgent(cfg, s, a, s.agents[a].(worker := OnState(cfg, s.agents[a].worker, m.subject, m.body)));
      }
    case Restart(a) => if a < |s.agents| { WithAgent(cfg, s, a, Agent(IDLE, [])); }
  }

  lemma SendKeepsOrder(cfg: Config, s: State, a: nat, ok: bool)
    requires Ordered(cfg, s)
    ensures Ordered(cfg, Step(cfg, s, Send(a, ok)))
  {
    if a < |s.agents| && s.agents[a].outbox != [] {
      var agent := s.agents[a].(outbox := s.agents[a].outbox[1..]);
      WithAgent(cfg, s, a, agent);
      PutOrdered(cfg, s.(agents := s.agents[a := agent]), s.agents[a].outbox[0]);
    }
  }

  lemma FireKeepsOrder(cfg: Config, s: State, a: nat, j: nat, ok: bool)
    requires Ordered(cfg, s)
    ensures Ordered(cfg, Step(cfg, s, Fire(a, j, ok)))
  {
    if a < |s.agents| && j < |s.agents[a].worker.timers| {
      var w := s.agents[a].worker;
      var agent := s.agents[a].(worker := w.(timers := w.timers[..j] + w.timers[j + 1..]));
      WithAgent(cfg, s, a, agent);
      PutOrdered(cfg, s.(agents := s.agents[a := agent]), TimeoutPost(w.timers[j].0, w.timers[j].1));
    }
  }

  lemma {:induction false} RunKeepsOrder(cfg: Config, workers: nat, es: seq<Event>)
    ensures Ordered(cfg, After(cfg, workers, es))
  {
    if es != [] {
      var k := |es| - 1;
      RunKeepsOrder(cfg, workers, es[..k]);
      NextIsStep(cfg, After(cfg, workers, es[..k]), es[k]);
      EventKeepsOrder(cfg, After(cfg, workers, es[..k]), es[k]);
    }
  }

  // ---- Results ----

  // In every run, whatever is redelivered, lost, resumed or brought in from
  // elsewhere: a task of a later step is enqueued only after some message that
  // runs the step before it, or one from elsewhere that runs this very step.
  lemma LaterStepsAreCaused(cfg: Config, workers: nat, es: seq<Event>, j: nat, inst: Text, step: U16)
    requires j < |After(cfg, workers, es).tasks.log| && NamedFor(After(cfg, workers, es).tasks.log[j], inst, step)
             && step > 0
    ensures var log := After(cfg, workers, es).tasks.log;
            || (exists i :: 0 <= i < j && TakenFor(cfg, log[i], inst, step - 1))
            || (exists i :: 0 <= i < j && TakenFor(cfg, log[i], inst, step) && !NamedFor(log[i], inst, step))
  {
    RunKeepsOrder(cfg, workers, es);
    var log := After(cfg, workers, es).tasks.log;
    var before := log[..j];
    assert NameOk(cfg, before, log[j].name.value);
    if i :| 0 <= i < |before| && TakenFor(cfg, before[i], inst, step - 1) {
      assert TakenFor(cfg, log[i], inst, step - 1);
    } else {
      var i :| 0 <= i < |before| && TakenFor(cfg, before[i], inst, step) && !NamedFor(before[i], inst, step);
      assert TakenFor(cfg, log[i], inst, step) && !NamedFor(log[i], inst, step);
    }
  }

  // ---- Runs that nobody else puts tasks into ----

  // What is taken for a task was published as that task.
  predicate Own(cfg: Config, m: Message) {
    var t := RunBy(cfg, m.body);
    ControlOf(cfg.name, m.subject).None? && t.Some? ==>
      m.name == Some(StepTask(t.value.inst, t.value.step, t.value.attempt))
  }

  predicate Short(inst: Text) {
    |inst| < 0x1_0000
  }

  // Foreign messages are no tasks, and the instances started have ids that fit.
  predicate OwnEvent(cfg: Config, e: Event) {
    match e
    case Foreign(subject, body) => ControlOf(cfg.name, subject).Some? || RunBy(cfg, body).None?
    case Trigger(inst, _) => Short(inst)
    case _ => true
  }

  predicate ShortNote(cfg: Config, subject: Text) {
    match NoteOf(cfg.name, subject)
    case Some(ParkSubject(inst)) => Short(inst)
    case _ => true
  }

  function MessageOf(cfg: Config, p: Post): Message {
    Message(Some(p.name), SubjectText(cfg.name, p.subject), p.body)
  }

  ghost predicate PostOwn(cfg: Config, p: Post) {
    && (p.to == Tasks ==> Own(cfg, MessageOf(cfg, p)))
    && (p.to == States ==> ShortNote(cfg, SubjectText(cfg.name, p.subject)))
  }

  ghost predicate AgentOwn(cfg: Config, agent: Agent) {
    && (forall inst :: inst in agent.worker.parked ==> Short(inst))
    && forall p :: p in agent.outbox ==> PostOwn(cfg, p)
  }

  ghost predicate AllOwn(cfg: Config, s: State) {
    && (forall k :: 0 <= k < |s.tasks.log| ==> Own(cfg, s.tasks.log[k]))
    && (forall k :: 0 <= k < |s.states.log| ==> ShortNote(cfg, s.states.log[k].subject))
    && forall a :: 0 <= a < |s.agents| ==> AgentOwn(cfg, s.agents[a])
  }

  lemma StepPostOwn(cfg: Config, inst: Text, step: U16, attempt: U8, ctx: Text)
    requires Short(inst)
    ensures PostOwn(cfg, StepPost(inst, step, attempt, ctx))
  {
    TaskReadsBackIff(Task(inst, step, attempt, ctx));
  }

  lemma UndoPostOwn(cfg: Config, inst: Text, step: U16, ctx: Text)
    requires Short(inst)
    ensures PostOwn(cfg, UndoPost(inst, step, ctx))
  {
    TaskReadsBackIff(Task(inst, SetUndoBit(step), 0, ctx));
  }

  lemma ControlOwn(cfg: Config, p: Post)
    requires p.subject.ResumeSubject? || p.subject.TimeoutSubject? || p.subject.CancelSubject?
    ensures p.to == Tasks ==> PostOwn(cfg, p)
  {
    SubjectsAreToldApart(cfg.name, p.subject);
  }

  lemma NotePostOwn(cfg: Config, inst: Text, e: Parked)
    requires Short(inst)
    ensures PostOwn(cfg, ParkPost(inst, e)) && PostOwn(cfg, RemovePost(inst))
  {
    NotesAreToldApart(cfg.name, ParkSubject(inst));
    NotesAreToldApart(cfg.name, RemoveSubject(inst));
  }

  lemma RemovePostOwn(cfg: Config, inst: Text)
    ensures PostOwn(cfg, RemovePost(inst))
  {
    NotesAreToldApart(cfg.name, RemoveSubject(inst));
  }

  lemma AdvanceOwn(cfg: Config, inst: Text, step: U16, ctx: Text)
    requires Short(inst)
    ensures forall p :: p in Advance(cfg, inst, step, ctx) ==> PostOwn(cfg, p)
  {
    StepPostOwn(cfg, inst, NextStep(step), 0, ctx);
  }

  lemma {:induction false} UndoOwn(cfg: Config, inst: Text, step: nat, ctx: Text)
    requires Short(inst) && step < 0x1_0000
    ensures forall p :: p in Undo(inst, step, ctx) ==> PostOwn(cfg, p)
  {
    if step > 0 {
      UndoPostOwn(cfg, inst, step - 1, ctx);
      UndoOwn(cfg, inst, step - 1, ctx);
    }
  }

  lemma StepOwn(cfg: Config, w: Worker, t: Task, answer: Answer)
    requires Short(t.inst) && t.step < |cfg.steps| && forall inst :: inst in w.parked ==> Short(inst)
    ensures var e := OnStep(cfg, w, t, answer); AgentOwn(cfg, Agent(e.worker, e.posts))
  {
    match answer
    case Failed(err) =>
      UndoOwn(cfg, t.inst, t.step, t.ctx);
      StepPostOwn(cfg, t.inst, t.step, NextAttempt(t.attempt), t.ctx);
    case Done(ctx) => AdvanceOwn(cfg, t.inst, t.step, ctx);
    case Suspend(state, ms) => NotePostOwn(cfg, t.inst, Parked(t.step, state, t.ctx));
    case Neither =>
  }

  lemma HeldOwn(cfg: Config, w: Worker, inst: Text, seqNo: nat, answer: Answer)
    requires forall inst :: inst in w.parked ==> Short(inst)
    ensures var e := OnResume(cfg, w, inst, seqNo, answer); AgentOwn(cfg, Agent(e.worker, e.posts))
    ensures var e := OnTimeout(cfg, w, inst, seqNo, answer); AgentOwn(cfg, Agent(e.worker, e.posts))
    ensures var e := OnCancel(w, inst); AgentOwn(cfg, Agent(e.worker, e.posts))
  {
    RemovePostOwn(cfg, inst);
    if inst in w.parked && answer.Done? {
      AdvanceOwn(cfg, inst, w.parked[inst].step, answer.ctx);
    }
  }

  lemma ProcessOwn(cfg: Config, w: Worker, subject: Text, body: Text, seqNo: nat, answer: Answer)
    requires forall inst :: inst in w.parked ==> Short(inst)
    ensures var e := Process(cfg, w, ControlOf(cfg.name, subject), body, seqNo, answer);
            AgentOwn(cfg, Agent(e.worker, e.posts))
  {
    var control := ControlOf(cfg.name, subject);
    if control.None? {
      var t := RunBy(cfg, body);
      if t.Some? {
        StepOwn(cfg, w, t.value, answer);
      }
    } else {
      match control.value
      case ResumeSubject(inst) => HeldOwn(cfg, w, inst, seqNo, answer);
      case TimeoutSubject(inst) => HeldOwn(cfg, w, inst, seqNo, answer);
      case CancelSubject(inst) => HeldOwn(cfg, w, inst, seqNo, answer);
      case _ =>
    }
  }

  lemma PutOwn(cfg: Config, s: State, p: Post)
    requires AllOwn(cfg, s) && PostOwn(cfg, p)
    ensures AllOwn(cfg, Put(cfg, s, p))
  {
  }

  lemma WithAgentOwn(cfg: Config, s: State, a: nat, agent: Agent)
    requires AllOwn(cfg, s) && a < |s.agents| && AgentOwn(cfg, agent)
    ensures AllOwn(cfg, s.(agents := s.agents[a := agent]))
  {
  }

  lemma EventKeepsOwn(cfg: Config, s: State, e: Event)
    requires AllOwn(cfg, s) && OwnEvent(cfg, e)
    ensures AllOwn(cfg, Step(cfg, s, e))
  {
    match e
    case Trigger(inst, payload) =>
      StepPostOwn(cfg, inst, 0, 0, payload);
      PutOwn(cfg, s, StepPost(inst, 0, 0, payload));
    case Foreign(subject, body) =>
    case AskResume(inst, n, event) =>
      ControlOwn(cfg, Post(Tasks, ResumeSubject(inst), ResumeCall(inst, n), event));
      PutOwn(cfg, s, Post(Tasks, ResumeSubject(inst), ResumeCall(inst, n), event));
    case AskCancel(inst) =>
      ControlOwn(cfg, Post(Tasks, CancelSubject(inst), CancelCall(inst), []));
      PutOwn(cfg, s, Post(Tasks, CancelSubject(inst), CancelCall(inst), []));
    case Handle(a, k, answer) =>
      if a < |s.agents| && s.agents[a].outbox == [] && k < |s.tasks.log| {
        var w, m := s.agents[a].worker, s.tasks.log[k];
        ProcessOwn(cfg, w, m.subject, m.body, k, answer);
        var eff := Process(cfg, w, ControlOf(cfg.name, m.subject), m.body, k, answer);
        WithAgentOwn(cfg, s, a, Agent(eff.worker, eff.posts));
      }
    case Send(a, ok) =>
      if a < |s.agents| && s.agents[a].outbox != [] {
        var agent := s.agents[a].(outbox := s.agents[a].outbox[1..]);
        WithAgentOwn(cfg, s, a, agent);
        PutOwn(cfg, s.(agents := s.agents[a := agent]), s.agents[a].outbox[0]);
      }
    case Fire(a, j, ok) =>
      if a < |s.agents| && j < |s.agents[a].worker.timers| {
        var w := s.agents[a].worker;
        var agent := s.agents[a].(worker := w.(timers := w.timers[..j] + w.timers[j + 1..]));
        WithAgentOwn(cfg, s, a, agent);
        ControlOwn(cfg, TimeoutPost(w.timers[j].0, w.timers[j].1));
        PutOwn(cfg, s.(agents := s.agents[a := agent]), TimeoutPost(w.timers[j].0, w.timers[j].1));
      }
    case Sync(a, k) =>
      if a < |s.agents| && k < |s.states.log| {
        var m := s.states.log[k];
        assert ShortNote(cfg, m.subject);
        WithAgentOwn(cfg, s, a, s.agents[a].(worker := OnState(cfg, s.agents[a].worker, m.subject, m.body)));
      }
    case Restart(a) => if a < |s.agents| { WithAgentOwn(cfg, s, a, Agent(IDLE, [])); }
  }

  lemma {:induction false} RunKeepsOwn(cfg: Config, workers: nat, es: seq<Event>)
    requires forall i :: 0 <= i < |es| ==> OwnEvent(cfg, es[i])
    ensures AllOwn(cfg, After(cfg, workers, es))
  {
    if es != [] {
      var k := |es| - 1;
      RunKeepsOwn(cfg, workers, es[..k]);
      NextIsStep(cfg, After(cfg, workers, es[..k]), es[k]);
      EventKeepsOwn(cfg, After(cfg, workers, es[..k]), es[k]);
    }
  }

  // If nobody else puts tasks on the stream, every task of an instance has tasks
  // of all the steps before its own ahead of it.
  lemma {:induction false} StepsAreEnqueuedInOrder(
      cfg: Config, workers: nat, es: seq<Event>, j: nat, inst: Text, step: U16, before: U16)
    requires (forall i :: 0 <= i < |es| ==> OwnEvent(cfg, es[i])) && before < step
    requires j < |After(cfg, workers, es).tasks.log| && NamedFor(After(cfg, workers, es).tasks.log[j], inst, step)
    ensures exists i :: 0 <= i < j && NamedFor(After(cfg, workers, es).tasks.log[i], inst, before)
    decreases step
  {
    var log := After(cfg, workers, es).tasks.log;
    LaterStepsAreCaused(cfg, workers, es, j, inst, step);
    RunKeepsOwn(cfg, workers, es);
    assert forall i :: 0 <= i < j ==> Own(cfg, log[i]);
    var i :| 0 <= i < j && TakenFor(cfg, log[i], inst, step - 1);
    assert NamedFor(log[i], inst, step - 1);
    if before < step - 1 {
      StepsAreEnqueuedInOrder(cfg, workers, es, i, inst, step - 1, before);
      var h :| 0 <= h < i && NamedFor(log[h], inst, before);
      assert NamedFor(log[h], inst, before);
    }
  }
}
