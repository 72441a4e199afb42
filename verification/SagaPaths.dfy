// Scripted runs of a workflow instance: every step succeeds, or a step fails
// until it is given up.
module SagaPaths {
  import opened Bytes
  import opened TaskCodec
  import opened Saga
  import opened SagaRuns

  function StepMessage(cfg: Config, inst: Text, step: U16, attempt: U8, ctx: Text): Message {
    Message(Some(StepTask(inst, step, attempt)), SubjectText(cfg.name, StepSubject(step)),
            EncodeTask(Task(inst, step, attempt, ctx)))
  }

  // A worker with nothing in hand takes the k-th message, answers it, and
  // publishes what follows from that.
  ghost function HandleAndSend(cfg: Config, s: State, a: nat, k: nat, answer: Answer): State {
    Next()(cfg, Next()(cfg, s, Handle(a, k, answer)), Send(a, true))
  }

  // A step message of a run is processed as the step it names.
  lemma StepMessageRuns(cfg: Config, inst: Text, step: U16, attempt: U8, ctx: Text, w: Worker, k: nat, answer: Answer)
    requires |inst| < 0x1_0000 && |ctx| <= cfg.maxContext && step < |cfg.steps| && step < 0x8000
    ensures var m := StepMessage(cfg, inst, step, attempt, ctx);
            Process(cfg, w, ControlOf(cfg.name, m.subject), m.body, k, answer)
            == OnStep(cfg, w, Task(inst, step, attempt, ctx), answer)
  {
    SubjectsAreToldApart(cfg.name, StepSubject(step));
    StepTaskRunsIff(cfg, Task(inst, step, attempt, ctx));
  }

  // What one handled message adds, when it leads to one step task or to none.
  lemma HandledLeadsTo(cfg: Config, s: State, a: nat, k: nat, answer: Answer, posts: seq<Post>)
    requires a < |s.agents| && s.agents[a].outbox == [] && k < |s.tasks.log| && StreamOk(s.tasks)
    requires var m := s.tasks.log[k];
             Process(cfg, s.agents[a].worker, ControlOf(cfg.name, m.subject), m.body, k, answer)
             == Effect(s.agents[a].worker, posts, if answer.Done? then Ack else AckIfPosted)
    requires |posts| <= 1 && forall p :: p in posts ==> p.to == Tasks && !Logged(s.tasks, p.name)
    ensures var s' := HandleAndSend(cfg, s, a, k, answer);
            && s'.agents == s.agents && StreamOk(s'.tasks)
            && s'.tasks.log == s.tasks.log +
                 if posts == [] then []
                 else [Message(Some(posts[0].name), SubjectText(cfg.name, posts[0].subject), posts[0].body)]
  {
    var s1 := Step(cfg, s, Handle(a, k, answer));
    NextIsStep(cfg, s, Handle(a, k, answer));
    NextIsStep(cfg, s1, Send(a, true));
    assert s1 == s.(agents := s.agents[a := Agent(s.agents[a].worker, posts)]);
    if posts == [] {
      assert s1.agents == s.agents;
    } else {
      assert posts[1..] == [];
      assert s1.agents[a := Agent(s.agents[a].worker, [])] == s.agents;
      AcceptKeeps(s.tasks, posts[0].name, SubjectText(cfg.name, posts[0].subject), posts[0].body);
    }
  }

  // ---- Every step succeeds ----

  // The first k steps are run; `results` is what each step's handler returns.
  function HappyEvents(inst: Text, payload: Text, results: seq<Text>, k: nat): seq<Event>
    requires k <= |results|
  {
    if k == 0 then [Trigger(inst, payload)]
    else HappyEvents(inst, payload, results, k - 1) + [Handle(0, k - 1, Done(results[k - 1]))] + [Send(0, true)]
  }

  function HappyMessage(cfg: Config, inst: Text, payload: Text, results: seq<Text>, j: nat): Message
    requires j < |results| < 0x1_0000
  {
    StepMessage(cfg, inst, j, 0, if j == 0 then payload else results[j - 1])
  }

  // The log holds the tasks of the first n steps and nothing else.
  ghost predicate HappyLog(cfg: Config, inst: Text, payload: Text, results: seq<Text>, log: seq<Message>, n: nat)
    requires n <= |results| < 0x1_0000
  {
    |log| == n && forall j :: 0 <= j < n ==> log[j] == HappyMessage(cfg, inst, payload, results, j)
  }

  predicate Fits(cfg: Config, inst: Text, payload: Text, results: seq<Text>) {
    && 0 < |results| == |cfg.steps| <= 0x8000 && |inst| < 0x1_0000 && |payload| <= cfg.maxContext
    && forall i :: 0 <= i < |results| ==> |results[i]| <= cfg.maxContext
  }

  // With k steps run, the tasks of those and of the next are all there is.
  ghost predicate HappyAt(cfg: Config, inst: Text, payload: Text, results: seq<Text>, s: State, k: nat)
    requires k <= |results| < 0x1_0000
  {
    && HappyLog(cfg, inst, payload, results, s.tasks.log, if k < |results| then k + 1 else k)
    && s.agents == [Agent(IDLE, [])] && StreamOk(s.tasks)
  }

  ghost function HappyState(cfg: Config, inst: Text, payload: Text, results: seq<Text>, k: nat): State
    requires k <= |results|
  {
    if k == 0 then After(cfg, 1, [Trigger(inst, payload)])
    else HandleAndSend(cfg, HappyState(cfg, inst, payload, results, k - 1), 0, k - 1, Done(results[k - 1]))
  }

  lemma {:induction false} HappyRun(cfg: Config, inst: Text, payload: Text, results: seq<Text>, k: nat)
    requires k <= |results|
    ensures After(cfg, 1, HappyEvents(inst, payload, results, k)) == HappyState(cfg, inst, payload, results, k)
  {
    if k > 0 {
      HappyRun(cfg, inst, payload, results, k - 1);
      TwoMore(cfg, 1, HappyEvents(inst, payload, results, k - 1), 0, k - 1, Done(results[k - 1]));
    }
  }

  lemma TriggerStarts(cfg: Config, inst: Text, payload: Text, results: seq<Text>)
    requires Fits(cfg, inst, payload, results)
    ensures HappyAt(cfg, inst, payload, results, After(cfg, 1, [Trigger(inst, payload)]), 0)
  {
    OneMore(cfg, 1, [], Trigger(inst, payload));
    assert [] + [Trigger(inst, payload)] == [Trigger(inst, payload)];
    assert After(cfg, 1, [Trigger(inst, payload)]) == Put(cfg, Start(1), StepPost(inst, 0, 0, payload));
    assert Start(1).agents == [Agent(IDLE, [])];
    RunKeepsInv(cfg, 1, [Trigger(inst, payload)]);
  }

  lemma {:induction false} HappyStates(cfg: Config, inst: Text, payload: Text, results: seq<Text>, k: nat)
    requires Fits(cfg, inst, payload, results) && k <= |results|
    ensures HappyAt(cfg, inst, payload, results, HappyState(cfg, inst, payload, results, k), k)
  {
    if k == 0 {
      TriggerStarts(cfg, inst, payload, results);
    } else {
      HappyStates(cfg, inst, payload, results, k - 1);
      HappyStep(cfg, HappyState(cfg, inst, payload, results, k - 1), inst, payload, results, k - 1);
    }
  }

  // A triggered instance whose handlers all succeed has its steps run once
  // each, in order, the first on the payload and each later one on the context
  // the one before it returned; and then nothing more is enqueued.
  lemma AllStepsRunInOrder(cfg: Config, inst: Text, payload: Text, results: seq<Text>, k: nat)
    requires Fits(cfg, inst, payload, results) && k <= |results|
    ensures HappyAt(cfg, inst, payload, results, After(cfg, 1, HappyEvents(inst, payload, results, k)), k)
  {
    HappyRun(cfg, inst, payload, results, k);
    HappyStates(cfg, inst, payload, results, k);
  }

  lemma AdvanceIs(cfg: Config, inst: Text, step: U16, ctx: Text)
    requires step < |cfg.steps| <= 0x8000
    ensures Advance(cfg, inst, step, ctx) ==
            if step as int + 1 < |cfg.steps| then [StepPost(inst, step as int + 1, 0, ctx)] else []
  {
  }

  lemma HappyPosts(cfg: Config, inst: Text, payload: Text, results: seq<Text>, k: nat)
    requires Fits(cfg, inst, payload, results) && k < |results|
    ensures var m := HappyMessage(cfg, inst, payload, results, k);
            Process(cfg, IDLE, ControlOf(cfg.name, m.subject), m.body, k, Done(results[k]))
            == Effect(IDLE, if k + 1 < |results| then [StepPost(inst, k + 1, 0, results[k])] else [], Ack)
  {
    var ctx := if k == 0 then payload else results[k - 1];
    StepMessageRuns(cfg, inst, k, 0, ctx, IDLE, k, Done(results[k]));
    AdvanceIs(cfg, inst, k, results[k]);
    assert OnStep(cfg, IDLE, Task(inst, k, 0, ctx), Done(results[k])) == OnDone(cfg, IDLE, inst, k, results[k]);
  }

  lemma NotYet(cfg: Config, inst: Text, payload: Text, results: seq<Text>, st: Stream, k: nat)
    requires k < |results| < 0x1_0000 && HappyLog(cfg, inst, payload, results, st.log, k)
    ensures !Logged(st, StepTask(inst, k, 0))
  {
  }

  lemma HappyMore(cfg: Config, inst: Text, payload: Text, results: seq<Text>, log: seq<Message>, k: nat)
    requires k < |results| < 0x1_0000 && HappyLog(cfg, inst, payload, results, log, k)
    ensures HappyLog(cfg, inst, payload, results, log + [HappyMessage(cfg, inst, payload, results, k)], k + 1)
  {
  }

  lemma HappyMiddle(cfg: Config, s: State, inst: Text, payload: Text, results: seq<Text>, k: nat)
    requires Fits(cfg, inst, payload, results) && k + 1 < |results| && StreamOk(s.tasks)
    requires s.agents == [Agent(IDLE, [])] && HappyLog(cfg, inst, payload, results, s.tasks.log, k + 1)
    ensures var s' := HandleAndSend(cfg, s, 0, k, Done(results[k]));
            && s'.agents == s.agents && StreamOk(s'.tasks)
            && s'.tasks.log == s.tasks.log + [HappyMessage(cfg, inst, payload, results, k + 1)]
  {
    HappyPosts(cfg, inst, payload, results, k);
    NotYet(cfg, inst, payload, results, s.tasks, k + 1);
    HandledLeadsTo(cfg, s, 0, k, Done(results[k]), [StepPost(inst, k + 1, 0, results[k])]);
  }

  lemma HappyLast(cfg: Config, s: State, inst: Text, payload: Text, results: seq<Text>, k: nat)
    requires Fits(cfg, inst, payload, results) && k + 1 == |results| && StreamOk(s.tasks)
    requires s.agents == [Agent(IDLE, [])] && HappyLog(cfg, inst, payload, results, s.tasks.log, k + 1)
    ensures var s' := HandleAndSend(cfg, s, 0, k, Done(results[k]));
            s'.agents == s.agents && s'.tasks.log == s.tasks.log && StreamOk(s'.tasks)
  {
    HappyPosts(cfg, inst, payload, results, k);
    HandledLeadsTo(cfg, s, 0, k, Done(results[k]), []);
    assert s.tasks.log + [] == s.tasks.log;
  }

  lemma HappyStep(cfg: Config, s: State, inst: Text, payload: Text, results: seq<Text>, k: nat)
    requires Fits(cfg, inst, payload, results) && k < |results|
    requires HappyAt(cfg, inst, payload, results, s, k)
    ensures HappyAt(cfg, inst, payload, results, HandleAndSend(cfg, s, 0, k, Done(results[k])), k + 1)
  {
    if k + 1 < |results| {
      HappyMiddle(cfg, s, inst, payload, results, k);
      HappyMore(cfg, inst, payload, results, s.tasks.log, k + 1);
    } else {
      HappyLast(cfg, s, inst, payload, results, k);
    }
  }

  // ---- A step that keeps failing ----

  // n failures in a row: of the k-th message, and then each time of the newest.
  function RetryEvents(a: nat, k: nat, end: nat, n: nat, err: Text): seq<Event>
    decreases n
  {
    if n == 0 then []
    else [Handle(a, k, Failed(err))] + [Send(a, true)] + RetryEvents(a, end, end + 1, n - 1, err)
  }

  ghost function Retried(cfg: Config, s: State, a: nat, k: nat, end: nat, n: nat, err: Text): State
    decreases n
  {
    if n == 0 then s else Retried(cfg, HandleAndSend(cfg, s, a, k, Failed(err)), a, end, end + 1, n - 1, err)
  }

  lemma TwoMore(cfg: Config, workers: nat, es: seq<Event>, a: nat, k: nat, answer: Answer)
    ensures After(cfg, workers, es + [Handle(a, k, answer)] + [Send(a, true)])
            == HandleAndSend(cfg, After(cfg, workers, es), a, k, answer)
  {
    OneMore(cfg, workers, es, Handle(a, k, answer));
    OneMore(cfg, workers, es + [Handle(a, k, answer)], Send(a, true));
  }

  lemma RetryEventsUnroll(es: seq<Event>, a: nat, k: nat, end: nat, n: nat, err: Text)
    requires n > 0
    ensures es + RetryEvents(a, k, end, n, err)
            == es + [Handle(a, k, Failed(err))] + [Send(a, true)] + RetryEvents(a, end, end + 1, n - 1, err)
  {
  }

  lemma {:induction false} AfterRetries(cfg: Config, workers: nat, es: seq<Event>, a: nat, k: nat, end: nat, n: nat,
                                        err: Text)
    ensures After(cfg, workers, es + RetryEvents(a, k, end, n, err))
            == Retried(cfg, After(cfg, workers, es), a, k, end, n, err)
    decreases n
  {
    if n == 0 {
      assert es + RetryEvents(a, k, end, 0, err) == es;
    } else {
      TwoMore(cfg, workers, es, a, k, Failed(err));
      AfterRetries(cfg, workers, es + [Handle(a, k, Failed(err))] + [Send(a, true)], a, end, end + 1, n - 1, err);
      RetryEventsUnroll(es, a, k, end, n, err);
    }
  }

  // The tasks of attempts `from` to `from + n - 1`.
  function Retries(cfg: Config, inst: Text, step: U16, from: nat, n: nat, ctx: Text): (r: seq<Message>)
    requires from + n <= 0x100
    ensures |r| == n && forall i :: 0 <= i < n ==> r[i] == StepMessage(cfg, inst, step, from + i, ctx)
    decreases n
  {
    if n == 0 then [] else [StepMessage(cfg, inst, step, from, ctx)] + Retries(cfg, inst, step, from + 1, n - 1, ctx)
  }

  // The k-th message is attempt j of a step, and no later attempt is enqueued.
  ghost predicate LatestAttempt(cfg: Config, s: State, a: nat, k: nat, inst: Text, step: U16, j: nat, ctx: Text) {
    && a < |s.agents| && s.agents[a].outbox == [] && k < |s.tasks.log| && StreamOk(s.tasks)
    && |inst| < 0x1_0000 && |ctx| <= cfg.maxContext && step < |cfg.steps| && step < 0x8000 && j < Tries(cfg)
    && s.tasks.log[k] == StepMessage(cfg, inst, step, j, ctx)
    && forall i: U8 :: j < i ==> !Logged(s.tasks, StepTask(inst, step, i))
  }

  lemma FailurePosts(cfg: Config, inst: Text, step: U16, j: nat, ctx: Text, w: Worker, k: nat, err: Text)
    requires |inst| < 0x1_0000 && |ctx| <= cfg.maxContext && step < |cfg.steps| && step < 0x8000 && j + 1 < Tries(cfg)
    ensures var m := StepMessage(cfg, inst, step, j, ctx);
            Process(cfg, w, ControlOf(cfg.name, m.subject), m.body, k, Failed(err))
            == Effect(w, [StepPost(inst, step, j + 1, ctx)], AckIfPosted)
  {
    StepMessageRuns(cfg, inst, step, j, ctx, w, k, Failed(err));
    FailureRetries(cfg, w, Task(inst, step, j, ctx), err);
  }

  lemma FailureRetries(cfg: Config, w: Worker, t: Task, err: Text)
    requires t.step < |cfg.steps| && t.attempt as int + 1 < Tries(cfg)
    ensures OnStep(cfg, w, t, Failed(err))
            == Effect(w, [StepPost(t.inst, t.step, t.attempt as int + 1, t.ctx)], AckIfPosted)
  {
    assert NextAttempt(t.attempt) == t.attempt as int + 1;
  }

  lemma RetryOnce(cfg: Config, s: State, a: nat, k: nat, inst: Text, step: U16, j: nat, ctx: Text, err: Text)
    requires LatestAttempt(cfg, s, a, k, inst, step, j, ctx) && j + 1 < Tries(cfg)
    ensures var s' := HandleAndSend(cfg, s, a, k, Failed(err));
            && s'.agents == s.agents && s'.tasks.log == s.tasks.log + [StepMessage(cfg, inst, step, j + 1, ctx)]
            && StreamOk(s'.tasks)
  {
    FailurePosts(cfg, inst, step, j, ctx, s.agents[a].worker, k, err);
    HandledLeadsTo(cfg, s, a, k, Failed(err), [StepPost(inst, step, j + 1, ctx)]);
  }

  // One more message, a step task, on the stream.
  ghost predicate OnlyAdds(st: Stream, st': Stream, m: Message) {
    st'.log == st.log + [m] && forall x: MsgName :: Logged(st', x) <==> Logged(st, x) || m.name == Some(x)
  }

  lemma OnlyAddsIt(st: Stream, st': Stream, m: Message)
    requires st'.log == st.log + [m]
    ensures OnlyAdds(st, st', m)
  {
    forall x: MsgName
      ensures Logged(st', x) <==> Logged(st, x) || m.name == Some(x)
    {
      LoggedMore(st, m, x);
      assert Logged(st', x) <==> Logged(st.(log := st.log + [m]), x);
    }
  }

  lemma NextLatest(cfg: Config, s: State, s': State, a: nat, k: nat, inst: Text, step: U16, j: nat, ctx: Text)
    requires LatestAttempt(cfg, s, a, k, inst, step, j, ctx) && j + 1 < Tries(cfg)
    requires s'.agents == s.agents && StreamOk(s'.tasks)
             && OnlyAdds(s.tasks, s'.tasks, StepMessage(cfg, inst, step, j + 1, ctx))
    ensures LatestAttempt(cfg, s', a, |s.tasks.log|, inst, step, j + 1, ctx)
    ensures Lacking(cfg, s'.tasks, inst, step, ctx) == Lacking(cfg, s.tasks, inst, step, ctx)
  {
    LackingSame(cfg, s.tasks, s'.tasks, inst, step, ctx);
  }

  // From `s`, where attempt j is the latest, the remaining attempts were
  // enqueued and nothing else; the last of them is message `last` of `s'`.
  ghost predicate Through(cfg: Config, s: State, s': State, a: nat, last: nat, inst: Text, step: U16, j: nat,
                          ctx: Text) {
    && j < Tries(cfg) && s'.agents == s.agents
    && s'.tasks.log == s.tasks.log + Retries(cfg, inst, step, j + 1, Tries(cfg) - 1 - j, ctx)
    && LatestAttempt(cfg, s', a, last, inst, step, Tries(cfg) - 1, ctx)
    && Lacking(cfg, s'.tasks, inst, step, ctx) == Lacking(cfg, s.tasks, inst, step, ctx)
  }

  lemma ThroughOneMore(cfg: Config, s: State, s1: State, s': State, a: nat, last: nat, inst: Text, step: U16, j: nat,
                       ctx: Text)
    requires j + 1 < Tries(cfg) && s1.agents == s.agents && Through(cfg, s1, s', a, last, inst, step, j + 1, ctx)
    requires s1.tasks.log == s.tasks.log + [StepMessage(cfg, inst, step, j + 1, ctx)]
    requires Lacking(cfg, s1.tasks, inst, step, ctx) == Lacking(cfg, s.tasks, inst, step, ctx)
    ensures Through(cfg, s, s', a, last, inst, step, j, ctx)
  {
    RetriesUnroll(cfg, s.tasks.log, s1.tasks.log, s'.tasks.log, inst, step, j + 1, Tries(cfg) - 1 - j, ctx);
  }

  lemma RetriesUnroll(cfg: Config, log: seq<Message>, log1: seq<Message>, log': seq<Message>, inst: Text, step: U16,
                      from: nat, n: nat, ctx: Text)
    requires n > 0 && from + n <= 0x100
    requires log1 == log + [StepMessage(cfg, inst, step, from, ctx)]
    requires log' == log1 + Retries(cfg, inst, step, from + 1, n - 1, ctx)
    ensures log' == log + Retries(cfg, inst, step, from, n, ctx)
  {
  }

  function LastOf(k: nat, end: nat, n: nat): nat {
    if n == 0 then k else end + n - 1
  }

  lemma {:induction false} RetriedThrough(
      cfg: Config, s: State, a: nat, k: nat, inst: Text, step: U16, j: nat, ctx: Text, err: Text)
    requires LatestAttempt(cfg, s, a, k, inst, step, j, ctx)
    ensures var n := Tries(cfg) - 1 - j;
            Through(cfg, s, Retried(cfg, s, a, k, |s.tasks.log|, n, err), a, LastOf(k, |s.tasks.log|, n),
                    inst, step, j, ctx)
    decreases Tries(cfg) - j
  {
    var n := Tries(cfg) - 1 - j;
    if n > 0 {
      var s1 := HandleAndSend(cfg, s, a, k, Failed(err));
      RetryOnce(cfg, s, a, k, inst, step, j, ctx, err);
      OnlyAddsIt(s.tasks, s1.tasks, StepMessage(cfg, inst, step, j + 1, ctx));
      NextLatest(cfg, s, s1, a, k, inst, step, j, ctx);
      RetriedThrough(cfg, s1, a, |s.tasks.log|, inst, step, j + 1, ctx, err);
      RetriedUnroll(cfg, s, a, k, |s.tasks.log|, n, err);
      ThroughOneMore(cfg, s, s1, Retried(cfg, s, a, k, |s.tasks.log|, n, err), a, LastOf(k, |s.tasks.log|, n),
                     inst, step, j, ctx);
    }
  }

  lemma RetriedUnroll(cfg: Config, s: State, a: nat, k: nat, end: nat, n: nat, err: Text)
    requires n > 0
    ensures Retried(cfg, s, a, k, end, n, err)
            == Retried(cfg, HandleAndSend(cfg, s, a, k, Failed(err)), a, end, end + 1, n - 1, err)
    ensures LastOf(k, end, n) == LastOf(end, end + 1, n - 1)
  {
  }

  lemma GiveUpLatest(cfg: Config, workers: nat, es: seq<Event>, a: nat, k: nat, inst: Text, step: U16, ctx: Text,
                     err: Text)
    requires LatestAttempt(cfg, After(cfg, workers, es), a, k, inst, step, Tries(cfg) - 1, ctx)
    ensures var s := After(cfg, workers, es);
            var s' := After(cfg, workers, es + [Handle(a, k, Failed(err))] + Sends(a, 1 + step));
            s'.tasks.log == s.tasks.log + Lacking(cfg, s.tasks, inst, step, ctx) && s'.agents == s.agents
  {
    var t := Task(inst, step, Tries(cfg) - 1, ctx);
    SubjectsAreToldApart(cfg.name, StepSubject(step));
    StepTaskRunsIff(cfg, t);
    assert NextAttempt(t.attempt) >= cfg.maxRetries;
    GivingUpEnqueuesCompensations(cfg, workers, es, a, k, t, err);
  }

  lemma RetriesGoThrough(
      cfg: Config, workers: nat, es: seq<Event>, a: nat, k: nat, inst: Text, step: U16, j: nat, ctx: Text, err: Text)
    requires LatestAttempt(cfg, After(cfg, workers, es), a, k, inst, step, j, ctx)
    ensures var s := After(cfg, workers, es);
            var n, end := Tries(cfg) - 1 - j, |s.tasks.log|;
            Through(cfg, s, After(cfg, workers, es + RetryEvents(a, k, end, n, err)), a, LastOf(k, end, n),
                    inst, step, j, ctx)
  {
    var s := After(cfg, workers, es);
    AfterRetries(cfg, workers, es, a, k, |s.tasks.log|, Tries(cfg) - 1 - j, err);
    RetriedThrough(cfg, s, a, k, inst, step, j, ctx, err);
  }

  // What a step that failed for good leaves behind.
  ghost predicate RetriedAndUndone(cfg: Config, s: State, s': State, inst: Text, step: U16, j: nat, ctx: Text) {
    && j < Tries(cfg) && s'.agents == s.agents
    && s'.tasks.log == s.tasks.log + Retries(cfg, inst, step, j + 1, Tries(cfg) - 1 - j, ctx)
                       + Lacking(cfg, s.tasks, inst, step, ctx)
  }

  // A step that fails every time is attempted as often as configured, each
  // attempt enqueued by the one before, and is then given up: exactly the
  // compensations not yet enqueued follow, the latest step's first.
  lemma FailingStepIsRetriedThenUndone(
      cfg: Config, workers: nat, es: seq<Event>, a: nat, k: nat, inst: Text, step: U16, j: nat, ctx: Text, err: Text)
    returns (done: seq<Event>)
    requires LatestAttempt(cfg, After(cfg, workers, es), a, k, inst, step, j, ctx)
    ensures var n, end := Tries(cfg) - 1 - j, |After(cfg, workers, es).tasks.log|;
            done == es + RetryEvents(a, k, end, n, err) + [Handle(a, LastOf(k, end, n), Failed(err))]
              + Sends(a, 1 + step)
    ensures RetriedAndUndone(cfg, After(cfg, workers, es), After(cfg, workers, done), inst, step, j, ctx)
  {
    var n, end := Tries(cfg) - 1 - j, |After(cfg, workers, es).tasks.log|;
    RetriesGoThrough(cfg, workers, es, a, k, inst, step, j, ctx, err);
    var es1 := es + RetryEvents(a, k, end, n, err);
    GiveUpLatest(cfg, workers, es1, a, LastOf(k, end, n), inst, step, ctx, err);
    done := es1 + [Handle(a, LastOf(k, end, n), Failed(err))] + Sends(a, 1 + step);
    UndoneAfterAll(cfg, After(cfg, workers, es), After(cfg, workers, es1), After(cfg, workers, done), a,
                   LastOf(k, end, n), inst, step, j, ctx);
  }

  lemma UndoneAfterAll(cfg: Config, s: State, s1: State, s2: State, a: nat, last: nat, inst: Text, step: U16, j: nat,
                       ctx: Text)
    requires Through(cfg, s, s1, a, last, inst, step, j, ctx)
    requires s2.tasks.log == s1.tasks.log + Lacking(cfg, s1.tasks, inst, step, ctx) && s2.agents == s1.agents
    ensures RetriedAndUndone(cfg, s, s2, inst, step, j, ctx)
  {
  }

  // ---- One attempt answered both ways ----

  lemma {:induction false} LackingIsUndo(cfg: Config, st: Stream, inst: Text, step: nat, ctx: Text, m: Message)
    requires step < 0x1_0000 && m in Lacking(cfg, st, inst, step, ctx)
    ensures m.name.Some? && m.name.value.Compensate?
  {
    if step > 0 && m in Lacking(cfg, st, inst, step - 1, ctx) {
      LackingIsUndo(cfg, st, inst, step - 1, ctx, m);
    }
  }

  lemma NoStepAdded(cfg: Config, st: Stream, st': Stream, inst: Text, step: U16, ctx: Text, n: MsgName)
    requires st'.log == st.log + Lacking(cfg, st, inst, step, ctx) && n.StepTask? && !Logged(st, n)
    ensures !Logged(st', n)
  {
    var more := Lacking(cfg, st, inst, step, ctx);
    forall k | 0 <= k < |st'.log|
      ensures st'.log[k].name != Some(n)
    {
      if k >= |st.log| {
        assert st'.log[k] == more[k - |st.log|];
        LackingIsUndo(cfg, st, inst, step, ctx, more[k - |st.log|]);
      } else {
        assert st'.log[k] == st.log[k];
      }
    }
  }

  // A step whose last attempt fails, and is delivered again and then succeeds,
  // has the instance compensated and advanced past that step.
  lemma RedeliveredAfterGivingUp(cfg: Config, workers: nat, es: seq<Event>, a: nat, k: nat, inst: Text, step: U16,
                                 ctx: Text, err: Text, res: Text)
    requires LatestAttempt(cfg, After(cfg, workers, es), a, k, inst, step, Tries(cfg) - 1, ctx)
    requires step as int + 1 < |cfg.steps| <= 0x8000 && |res| <= cfg.maxContext
    requires !Logged(After(cfg, workers, es).tasks, StepTask(inst, step as int + 1, 0))
    ensures var s := After(cfg, workers, es);
            var given := es + [Handle(a, k, Failed(err))] + Sends(a, 1 + step);
            After(cfg, workers, given + [Handle(a, k, Done(res))] + [Send(a, true)]).tasks.log
            == s.tasks.log + Lacking(cfg, s.tasks, inst, step, ctx) + [StepMessage(cfg, inst, step as int + 1, 0, res)]
  {
    var given := es + [Handle(a, k, Failed(err))] + Sends(a, 1 + step);
    GiveUpLatest(cfg, workers, es, a, k, inst, step, ctx, err);
    RunKeepsInv(cfg, workers, given);
    StillAt(cfg, After(cfg, workers, es), After(cfg, workers, given), a, k, inst, step, ctx);
    DoneAdvances(cfg, After(cfg, workers, given), a, k, inst, step, Tries(cfg) - 1, ctx, res);
    TwoMore(cfg, workers, given, a, k, Done(res));
  }

  // Message k is this step's task, at hand for worker a.
  ghost predicate TaskAt(cfg: Config, s: State, a: nat, k: nat, inst: Text, step: U16, j: U8, ctx: Text) {
    && a < |s.agents| && s.agents[a].outbox == [] && k < |s.tasks.log| && StreamOk(s.tasks)
    && |inst| < 0x1_0000 && |ctx| <= cfg.maxContext && s.tasks.log[k] == StepMessage(cfg, inst, step, j, ctx)
  }

  lemma StillAt(cfg: Config, s: State, s1: State, a: nat, k: nat, inst: Text, step: U16, ctx: Text)
    requires LatestAttempt(cfg, s, a, k, inst, step, Tries(cfg) - 1, ctx) && step < 0xFFFF
    requires s1.agents == s.agents && StreamOk(s1.tasks)
    requires s1.tasks.log == s.tasks.log + Lacking(cfg, s.tasks, inst, step, ctx)
    ensures TaskAt(cfg, s1, a, k, inst, step, Tries(cfg) - 1, ctx)
    ensures Logged(s1.tasks, StepTask(inst, step as int + 1, 0)) ==> Logged(s.tasks, StepTask(inst, step as int + 1, 0))
  {
    if !Logged(s.tasks, StepTask(inst, step as int + 1, 0)) {
      NoStepAdded(cfg, s.tasks, s1.tasks, inst, step, ctx, StepTask(inst, step as int + 1, 0));
    }
    assert s1.tasks.log[k] == s.tasks.log[k];
  }

  lemma DoneAdvances(cfg: Config, s: State, a: nat, k: nat, inst: Text, step: U16, j: U8, ctx: Text, res: Text)
    requires TaskAt(cfg, s, a, k, inst, step, j, ctx)
    requires step as int + 1 < |cfg.steps| <= 0x8000 && |res| <= cfg.maxContext
    requires !Logged(s.tasks, StepTask(inst, step as int + 1, 0))
    ensures HandleAndSend(cfg, s, a, k, Done(res)).tasks.log
            == s.tasks.log + [StepMessage(cfg, inst, step as int + 1, 0, res)]
  {
    DonePosts(cfg, inst, step, j, ctx, s.agents[a].worker, k, res);
    HandledLeadsTo(cfg, s, a, k, Done(res), [StepPost(inst, step as int + 1, 0, res)]);
  }

  lemma DonePosts(cfg: Config, inst: Text, step: U16, j: U8, ctx: Text, w: Worker, k: nat, res: Text)
    requires |inst| < 0x1_0000 && |ctx| <= cfg.maxContext && |res| <= cfg.maxContext
    requires step as int + 1 < |cfg.steps| <= 0x8000
    ensures var m := StepMessage(cfg, inst, step, j, ctx);
            Process(cfg, w, ControlOf(cfg.name, m.subject), m.body, k, Done(res))
            == Effect(w, [StepPost(inst, step as int + 1, 0, res)], Ack)
  {
    StepMessageRuns(cfg, inst, step, j, ctx, w, k, Done(res));
    AdvanceIs(cfg, inst, step, res);
    assert OnStep(cfg, w, Task(inst, step, j, ctx), Done(res)) == OnDone(cfg, w, inst, step, res);
  }
}
