// One turn of a worker's dispatch loop, message by message: what it keeps,
// posts and answers, and which handler it calls with what.
module SagaTurns {
  import opened Bytes
  import opened TaskCodec
  import opened Saga
  import opened SagaRuns
  import opened SagaPaths

  // The next step's task on a handler's result, if there is a next step.
  function NextTask(cfg: Config, inst: Text, step: U16, ctx: Text): seq<Post> {
    if step as int + 1 < |cfg.steps| && step < 0xFFFF then [StepPost(inst, step as int + 1, 0, ctx)] else []
  }

  predicate Suspending(cfg: Config, step: U16) {
    step < |cfg.steps| && cfg.steps[step].suspends
  }

  // The worker lets go of the instance, and publishes and answers just this.
  predicate LetsGo(w: Worker, e: Effect, inst: Text, posts: seq<Post>, verdict: Verdict) {
    e.worker == w.(parked := w.parked - {inst}) && e.posts == posts && e.verdict == verdict
  }

  // ---- Resumes and timeouts of an instance the worker holds ----

  // A timeout goes on to the next step on what the handler returns, and has the
  // instance removed; without a handler it is only removed; when the handler
  // fails nothing is published, and the message comes again.
  lemma TimeoutTells(cfg: Config, w: Worker, inst: Text, p: Text, q: nat, answer: Answer)
    requires inst in w.parked && |cfg.steps| < 0x1_0000
    ensures var e := Process(cfg, w, Some(TimeoutSubject(inst)), p, q, answer);
            var step := w.parked[inst].step;
            if !Suspending(cfg, step) then LetsGo(w, e, inst, [], Ack)
            else if !cfg.steps[step].onTimeout then LetsGo(w, e, inst, [RemovePost(inst)], Ack)
            else match answer
              case Done(ctx) => LetsGo(w, e, inst, NextTask(cfg, inst, step, ctx) + [RemovePost(inst)], Ack)
              case _ => LetsGo(w, e, inst, [], Nack)
    ensures var c := Called(cfg, w, Some(TimeoutSubject(inst)), p);
            var entry := w.parked[inst];
            c == if Suspending(cfg, entry.step) && cfg.steps[entry.step].onTimeout
                 then Some(TimesOut(entry.step, inst, entry.state)) else None
  {
  }

  // A resume likewise, but one without a handler is dropped with the instance,
  // unannounced.
  lemma ResumeTells(cfg: Config, w: Worker, inst: Text, p: Text, q: nat, answer: Answer)
    requires inst in w.parked && |cfg.steps| < 0x1_0000
    ensures var e := Process(cfg, w, Some(ResumeSubject(inst)), p, q, answer);
            var step := w.parked[inst].step;
            if !Suspending(cfg, step) || !cfg.steps[step].resumable then LetsGo(w, e, inst, [], Ack)
            else match answer
              case Done(ctx) => LetsGo(w, e, inst, NextTask(cfg, inst, step, ctx) + [RemovePost(inst)], Ack)
              case _ => LetsGo(w, e, inst, [], Nack)
    ensures var c := Called(cfg, w, Some(ResumeSubject(inst)), p);
            var entry := w.parked[inst];
            c == if Suspending(cfg, entry.step) && cfg.steps[entry.step].resumable
                 then Some(Resumes(entry.step, inst, entry.state, p)) else None
  {
  }

  // A resume or timeout of an instance that is not held calls nothing and
  // publishes nothing: it is handed on the first time this message comes, and
  // dropped the second.
  lemma UnknownIsHandedOnOnce(cfg: Config, w: Worker, control: Subject, p: Text, q: nat, answer: Answer)
    requires (control.ResumeSubject? || control.TimeoutSubject?) && control.inst !in w.parked && q !in w.nacked
    ensures var e := Process(cfg, w, Some(control), p, q, answer);
            var e' := Process(cfg, e.worker, Some(control), p, q, answer);
            && e.posts == [] && e.verdict == NackLater && e.worker.parked == w.parked && e.worker.timers == w.timers
            && e'.posts == [] && e'.verdict == Ack && e'.worker == w
            && Called(cfg, w, Some(control), p) == None
  {
    assert w.nacked + {q} - {q} == w.nacked;
  }

  // A cancellation has every worker let go, whether this one holds it or not.
  lemma CancelTells(cfg: Config, w: Worker, inst: Text, p: Text, q: nat, answer: Answer)
    ensures LetsGo(w, Process(cfg, w, Some(CancelSubject(inst)), p, q, answer), inst, [RemovePost(inst)], Ack)
    ensures Called(cfg, w, Some(CancelSubject(inst)), p) == None
  {
  }

  // A park note that can be read is taken over unless the instance is already
  // held, a removal has it let go of, and nothing else changes anything.
  lemma NotesTell(cfg: Config, w: Worker, inst: Text, p: Text, subject: Text)
    ensures OnState(cfg, w, SubjectText(cfg.name, ParkSubject(inst)), p)
            == match DecodePark(p)
               case None => w
               case Some(e) => if inst in w.parked then w else w.(parked := w.parked[inst := e])
    ensures OnState(cfg, w, SubjectText(cfg.name, RemoveSubject(inst)), p) == w.(parked := w.parked - {inst})
    ensures NoteOf(cfg.name, subject) == None ==> OnState(cfg, w, subject, p) == w
  {
    NotesAreToldApart(cfg.name, ParkSubject(inst));
    NotesAreToldApart(cfg.name, RemoveSubject(inst));
  }

  // ---- Tasks ----

  // What running a step comes to: a result goes on to the next step unless it
  // is too large; a suspension is held, announced and timed; a failure is tried
  // again, or reported and compensated. The message is acknowledged once what
  // it leads to is published, and otherwise comes again.
  lemma StepTells(cfg: Config, w: Worker, t: Task, answer: Answer, posted: bool)
    requires t.step < |cfg.steps| < 0x1_0000
    ensures var e := OnStep(cfg, w, t, answer);
            var v := Resolved(e.verdict, posted);
            match answer
            case Done(ctx) =>
              && e.worker == w
              && if |ctx| > cfg.maxContext then e.posts == [] && v == Nack
                 else e.posts == NextTask(cfg, t.inst, t.step, ctx) && v == Ack
            case Suspend(state, ms) =>
              if !cfg.steps[t.step].suspends then e.worker == w && e.posts == [] && v == Unanswered
              else
                && e.posts == [ParkPost(t.inst, Parked(t.step, state, t.ctx))] && v == Ack
                && e.worker.parked == w.parked[t.inst := Parked(t.step, state, t.ctx)] && e.worker.nacked == w.nacked
                && e.worker.timers == w.timers +
                     if ms > 0 || cfg.steps[t.step].timeoutMs > 0 then [(t.inst, t.step)] else []
            case Neither => e.worker == w && e.posts == [] && v == Unanswered
            case Failed(err) =>
              && e.worker == w
              && if t.attempt < 0xFF && t.attempt as int + 1 < cfg.maxRetries
                 then e.posts == [StepPost(t.inst, t.step, t.attempt as int + 1, t.ctx)]
                      && v == if posted then Ack else Nack
                 else t.attempt < 0xFF ==> |e.posts| == 1 + t.step && e.posts[0] == DeadPost(t, err) && v == Ack
  {
    if answer.Failed? {
      UndoPosts(t.inst, t.step, t.ctx);
    }
  }

  // A task that is no step's, unreadable, too large or of a step there is not,
  // calls no step, and is acknowledged and done with.
  lemma NothingToRun(cfg: Config, w: Worker, p: Text, q: nat, answer: Answer)
    requires Called(cfg, w, None, p) == None || Called(cfg, w, None, p).value.UndoesStep?
    ensures Process(cfg, w, None, p, q, answer) == Effect(w, [], Ack)
  {
  }

  // A step's task calls that step's handler on the context it carries, and a
  // compensation the compensation of the step it names.
  lemma TasksCall(cfg: Config, inst: Text, step: U16, attempt: U8, ctx: Text, w: Worker)
    requires |inst| < 0x1_0000 && |ctx| <= cfg.maxContext && step < |cfg.steps| && step < 0x8000
    ensures var m := StepMessage(cfg, inst, step, attempt, ctx);
            Called(cfg, w, ControlOf(cfg.name, m.subject), m.body) == Some(RunsStep(step, inst, attempt, ctx))
    ensures var m := UndoMessage(cfg, inst, step, ctx);
            Called(cfg, w, ControlOf(cfg.name, m.subject), m.body)
            == if cfg.steps[step].undoes then Some(UndoesStep(step, inst, 0, ctx)) else None
  {
    SubjectsAreToldApart(cfg.name, StepSubject(step));
    SubjectsAreToldApart(cfg.name, UndoSubject(step));
    StepTaskRunsIff(cfg, Task(inst, step, attempt, ctx));
    TaskReadsBackIff(Task(inst, step, attempt, ctx));
    UndoReachesItsStepIff(cfg, inst, step, ctx);
    TaskReadsBackIff(Task(inst, SetUndoBit(step), 0, ctx));
  }

  // In the run in which every step succeeds, each handler is called on what the
  // one before it returned, the first on the payload.
  lemma HappyCalls(cfg: Config, inst: Text, payload: Text, results: seq<Text>, j: nat, w: Worker)
    requires Fits(cfg, inst, payload, results) && j < |results|
    ensures var log := After(cfg, 1, HappyEvents(inst, payload, results, |results|)).tasks.log;
            && |log| == |results|
            && Called(cfg, w, ControlOf(cfg.name, log[j].subject), log[j].body)
               == Some(RunsStep(j, inst, 0, if j == 0 then payload else results[j - 1]))
  {
    AllStepsRunInOrder(cfg, inst, payload, results, |results|);
    TasksCall(cfg, inst, j, 0, if j == 0 then payload else results[j - 1], w);
  }

  // ---- Dead letters ----

  lemma SixParts(a: Text, inst: Text, b: Text, attempt: U8, c: Text, err: Text, ctx: Text)
    requires |a| == 2 && |b| == 2 && |c| == 4
    ensures var p, k := a + inst + b + [attempt] + c + err + ctx, |inst|;
            && |p| == k + 9 + |err| + |ctx| && p[0..2] == a && p[2..2 + k] == inst && p[2 + k..2 + k + 2] == b
            && p[4 + k] == attempt && p[5 + k..5 + k + 4] == c && p[9 + k..9 + k + |err|] == err
            && p[9 + k + |err|..] == ctx
  {
  }

  lemma DeadLetterParts(t: Task, err: Text)
    requires |t.inst| < 0x1_0000 && |err| < 0x1_0000_0000
    ensures var p, k := DeadPost(t, err).body, |t.inst|;
            && |p| == k + 9 + |err| + |t.ctx|
            && U16At(p, 0) == k && p[2..2 + k] == t.inst && U16At(p, 2 + k) == t.step && p[4 + k] == t.attempt
            && U32At(p, 5 + k) == |err| && p[9 + k..9 + k + |err|] == err && p[9 + k + |err|..] == t.ctx
  {
    var p, k := DeadPost(t, err).body, |t.inst|;
    SixParts(LE(k, 2), t.inst, LE(t.step, 2), t.attempt, LE(|err|, 4), err, t.ctx);
    U16Field(p, 0, k);
    U16Field(p, 2 + k, t.step);
    U32Field(p, 5 + k, |err|);
  }

  // A dead letter tells which task failed, at which attempt, on what and why.
  lemma DeadLettersTell(t: Task, err: Text, t': Task, err': Text)
    requires |t.inst| < 0x1_0000 && |err| < 0x1_0000_0000 && |t'.inst| < 0x1_0000 && |err'| < 0x1_0000_0000
    requires DeadPost(t, err).body == DeadPost(t', err').body
    ensures t == t' && err == err'
  {
    DeadLetterParts(t, err);
    DeadLetterParts(t', err');
  }
}
