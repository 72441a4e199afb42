// Whole runs of a workflow: any number of workers over streams that accept
// each message id once and may deliver any message again, at any time.
module SagaRuns {
  import opened Bytes
  import opened TaskCodec
  import opened Saga

  // How often a step may be attempted.
  function Tries(cfg: Config): nat {
    if cfg.maxRetries == 0 then 1 else cfg.maxRetries
  }

  // ---- What one message leads to ----

  predicate InBounds(cfg: Config, n: MsgName) {
    n.StepTask? ==> n.step < |cfg.steps| && n.attempt < Tries(cfg)
  }

  predicate AllInBounds(cfg: Config, posts: seq<Post>) {
    forall p :: p in posts ==> InBounds(cfg, p.name)
  }

  lemma StepPostsInBounds(cfg: Config, w: Worker, t: Task, answer: Answer)
    requires t.step < |cfg.steps|
    ensures AllInBounds(cfg, OnStep(cfg, w, t, answer).posts)
  {
    UndoPosts(t.inst, t.step, t.ctx);
  }

  // No step task is published for a step that does not exist or an attempt too
  // many, whatever the message that was processed.
  lemma PostsInBounds(cfg: Config, w: Worker, control: Option<Subject>, p: Text, seqNo: nat, answer: Answer)
    ensures AllInBounds(cfg, Process(cfg, w, control, p, seqNo, answer).posts)
  {
    var t := RunBy(cfg, p);
    if t.Some? {
      StepPostsInBounds(cfg, w, t.value, answer);
    }
    if control.Some?
       && (control.value.ResumeSubject? || control.value.TimeoutSubject? || control.value.CancelSubject?) {
      HeldPostsInBounds(cfg, w, control.value.inst, seqNo, answer);
    } else {
      assert Process(cfg, w, control, p, seqNo, answer) == OnTask(cfg, w, p, answer);
    }
  }

  lemma HeldPostsInBounds(cfg: Config, w: Worker, inst: Text, seqNo: nat, answer: Answer)
    ensures AllInBounds(cfg, OnResume(cfg, w, inst, seqNo, answer).posts)
    ensures AllInBounds(cfg, OnTimeout(cfg, w, inst, seqNo, answer).posts)
    ensures AllInBounds(cfg, OnCancel(w, inst).posts)
  {
  }

  lemma {:induction false} UndoPosts(inst: Text, step: nat, ctx: Text)
    requires step < 0x1_0000
    ensures |Undo(inst, step, ctx)| == step
    ensures forall j :: 0 <= j < step ==> Undo(inst, step, ctx)[j] == UndoPost(inst, step - 1 - j, ctx)
  {
    if step > 0 {
      UndoPosts(inst, step - 1, ctx);
    }
  }

  // A step given up is reported, and then every step before it is compensated,
  // in reverse.
  lemma GivingUpUndoesInReverse(cfg: Config, w: Worker, t: Task, err: Text)
    requires t.step < |cfg.steps|
    ensures var posts := OnStep(cfg, w, t, Failed(err)).posts;
            NextAttempt(t.attempt) >= cfg.maxRetries ==>
              && |posts| == 1 + t.step && posts[0] == DeadPost(t, err)
              && forall j :: 1 <= j <= t.step ==> posts[j] == UndoPost(t.inst, t.step - j, t.ctx)
  {
    UndoPosts(t.inst, t.step, t.ctx);
  }

  // (steps left, attempts left), compared lexicographically.
  predicate Descends(from: MsgName, to: MsgName)
    requires from.StepTask? && to.StepTask?
  {
    to.step > from.step || (to.step == from.step && to.attempt > from.attempt)
  }

  // Each step task among the posts is a later one of the same instance.
  ghost predicate AllDescend(from: MsgName, posts: seq<Post>)
    requires from.StepTask?
  {
    forall post :: post in posts && post.name.StepTask? ==> post.name.inst == from.inst && Descends(from, post.name)
  }

  lemma FailureDescendsIff(cfg: Config, w: Worker, t: Task, err: Text)
    ensures AllDescend(StepTask(t.inst, t.step, t.attempt), OnFailure(cfg, w, t, err).posts)
            <==> !(t.attempt == 0xFF && cfg.maxRetries > 0)
  {
    UndoPosts(t.inst, t.step, t.ctx);
    var posts := OnFailure(cfg, w, t, err).posts;
    if t.attempt == 0xFF && cfg.maxRetries > 0 {
      assert posts[0].name == StepTask(t.inst, t.step, 0);
    }
  }

  lemma DoneDescendsIff(cfg: Config, w: Worker, t: Task, ctx: Text)
    ensures AllDescend(StepTask(t.inst, t.step, t.attempt), OnDone(cfg, w, t.inst, t.step, ctx).posts)
            <==> !(t.step == 0xFFFF && TotalSteps(cfg) > 0 && |ctx| <= cfg.maxContext)
  {
    var posts := OnDone(cfg, w, t.inst, t.step, ctx).posts;
    if t.step == 0xFFFF && TotalSteps(cfg) > 0 && |ctx| <= cfg.maxContext {
      assert posts[0].name == StepTask(t.inst, 0, 0);
    }
  }

  // Processing a step task leads on to a later step or a later attempt of the
  // same instance, unless a counter wraps: only a failure at attempt 255, when
  // retries are configured, and a success at step 65535.
  lemma FollowUpsDescendIff(cfg: Config, w: Worker, t: Task, answer: Answer)
    requires t.step < |cfg.steps|
    ensures AllDescend(StepTask(t.inst, t.step, t.attempt), OnStep(cfg, w, t, answer).posts)
            <==> !(answer.Failed? && t.attempt == 0xFF && cfg.maxRetries > 0)
                 && !(answer.Done? && t.step == 0xFFFF && TotalSteps(cfg) > 0 && |answer.ctx| <= cfg.maxContext)
  {
    match answer
    case Failed(err) => FailureDescendsIff(cfg, w, t, err);
    case Done(ctx) => DoneDescendsIff(cfg, w, t, ctx);
    case _ =>
  }

  // Resuming or timing out a parked instance leads on to a later step.
  lemma ResumesDescend(cfg: Config, w: Worker, inst: Text, seqNo: nat, answer: Answer, post: Post)
    requires |cfg.steps| < 0x1_0000 && inst in w.parked
    requires post in OnResume(cfg, w, inst, seqNo, answer).posts || post in OnTimeout(cfg, w, inst, seqNo, answer).posts
    ensures post.name.StepTask? ==> post.name.inst == inst && post.name.step == w.parked[inst].step as int + 1
  {
  }

  // A step's task is run as that step exactly when the undo bit is clear of
  // its index; from step 32768 on it is taken for a compensation.
  lemma StepTaskRunsIff(cfg: Config, t: Task)
    requires |t.inst| < 0x1_0000 && |t.ctx| <= cfg.maxContext && t.step < |cfg.steps|
    ensures RunBy(cfg, EncodeTask(t)) == Some(t) <==> t.step < 0x8000
    ensures t.step >= 0x8000 ==> RunBy(cfg, EncodeTask(t)) == None
    ensures t.step >= 0x8000 && cfg.steps[t.step - 0x8000].undoes ==>
            UndoneBy(cfg, EncodeTask(t)) == Some(t.step - 0x8000)
  {
    TaskReadsBackIff(t);
  }

  // A compensation task compensates the step it names exactly when that step
  // is below 32768 and has a compensation.
  lemma UndoReachesItsStepIff(cfg: Config, inst: Text, step: U16, ctx: Text)
    requires |inst| < 0x1_0000 && |ctx| <= cfg.maxContext && step < |cfg.steps|
    ensures UndoneBy(cfg, UndoPost(inst, step, ctx).body) == Some(step) <==> step < 0x8000 && cfg.steps[step].undoes
    ensures RunBy(cfg, UndoPost(inst, step, ctx).body) == None
  {
    TaskReadsBackIff(Task(inst, SetUndoBit(step), 0, ctx));
  }

  // ---- Streams ----

  // A message the workflow published has a name; one from elsewhere has none.
  datatype Message = Message(name: Option<MsgName>, subject: Text, body: Text)

  datatype Stream = Stream(log: seq<Message>, ids: set<Text>)

  function Accept(st: Stream, n: MsgName, subject: Text, body: Text): Stream {
    if IdOf(n) in st.ids then st
    else Stream(st.log + [Message(Some(n), subject, body)], st.ids + {IdOf(n)})
  }

  predicate Logged(st: Stream, n: MsgName) {
    exists k :: 0 <= k < |st.log| && st.log[k].name == Some(n)
  }

  // The ids on record are those of the messages logged, each logged once.
  ghost predicate StreamOk(st: Stream) {
    && (forall n: MsgName :: IdOf(n) in st.ids <==> Logged(st, n))
    && (forall j, k :: 0 <= j < k < |st.log| && st.log[j].name.Some? ==> st.log[j].name != st.log[k].name)
  }

  // Accepting a message logs it, unless the very same message is there already.
  lemma AcceptKeeps(st: Stream, n: MsgName, subject: Text, body: Text)
    requires StreamOk(st)
    ensures var st' := Accept(st, n, subject, body);
            StreamOk(st') && Logged(st', n) && (Logged(st, n) ==> st' == st)
            && (!Logged(st, n) ==> st'.log == st.log + [Message(Some(n), subject, body)])
  {
    var st' := Accept(st, n, subject, body);
    if !Logged(st, n) {
      forall m: MsgName
        ensures IdOf(m) in st'.ids <==> Logged(st', m)
      {
        if IdOf(m) == IdOf(n) {
          IdsAreDistinct(m, n);
          assert st'.log[|st.log|].name == Some(n);
        } else if Logged(st, m) {
          var k :| 0 <= k < |st.log| && st.log[k].name == Some(m);
          assert st'.log[k].name == Some(m);
        }
      }
    }
  }

  lemma UnnamedKeeps(st: Stream, subject: Text, body: Text)
    requires StreamOk(st)
    ensures StreamOk(st.(log := st.log + [Message(None, subject, body)]))
  {
    var st' := st.(log := st.log + [Message(None, subject, body)]);
    forall m: MsgName
      ensures Logged(st, m) <==> Logged(st', m)
    {
      if Logged(st, m) {
        var k :| 0 <= k < |st.log| && st.log[k].name == Some(m);
        assert st'.log[k].name == Some(m);
      }
    }
  }

  // ---- Runs ----

  // A worker and what it has still to publish for the message in hand.
  datatype Agent = Agent(worker: Worker, outbox: seq<Post>)

  // The dead-letter stream keeps every copy of a message it is sent.
  datatype State = State(tasks: Stream, states: Stream, dead: seq<Message>, agents: seq<Agent>)

  const NOTHING := Stream([], {})

  datatype Event =
    | Trigger(inst: Text, payload: Text)
    | Foreign(subject: Text, body: Text)
    | AskResume(inst: Text, n: U32, event: Text)
    | AskCancel(inst: Text)
    | Handle(a: nat, k: nat, answer: Answer)
    | Send(a: nat, ok: bool)
    | Fire(a: nat, j: nat, ok: bool)
    | Sync(a: nat, k: nat)
    | Restart(a: nat)

  function Put(cfg: Config, s: State, p: Post): State {
    var subject := SubjectText(cfg.name, p.subject);
    match p.to
    case Tasks => s.(tasks := Accept(s.tasks, p.name, subject, p.body))
    case States => s.(states := Accept(s.states, p.name, subject, p.body))
    case DeadLetters => s.(dead := s.dead + [Message(Some(p.name), subject, p.body)])
  }

  // An event that cannot happen changes nothing. A failed publish is dropped.
  function Step(cfg: Config, s: State, e: Event): State {
    match e
    case Trigger(inst, payload) => Put(cfg, s, StepPost(inst, 0, 0, payload))
    case Foreign(subject, body) => s.(tasks := s.tasks.(log := s.tasks.log + [Message(None, subject, body)]))
    case AskResume(inst, n, event) => Put(cfg, s, Post(Tasks, ResumeSubject(inst), ResumeCall(inst, n), event))
    case AskCancel(inst) => Put(cfg, s, Post(Tasks, CancelSubject(inst), CancelCall(inst), []))
    case Handle(a, k, answer) =>
      if a < |s.agents| && s.agents[a].outbox == [] && k < |s.tasks.log| then
        var m := s.tasks.log[k];
        var e := Process(cfg, s.agents[a].worker, ControlOf(cfg.name, m.subject), m.body, k, answer);
        s.(agents := s.agents[a := Agent(e.worker, e.posts)])
      else s
    case Send(a, ok) =>
      if a < |s.agents| && s.agents[a].outbox != [] then
        var rest := s.(agents := s.agents[a := s.agents[a].(outbox := s.agents[a].outbox[1..])]);
        if ok then Put(cfg, rest, s.agents[a].outbox[0]) else rest
      else s
    case Fire(a, j, ok) =>
      if a < |s.agents| && j < |s.agents[a].worker.timers| then
        var w := s.agents[a].worker;
        var w' := w.(timers := w.timers[..j] + w.timers[j + 1..]);
        var rest := s.(agents := s.agents[a := s.agents[a].(worker := w')]);
        if ok then Put(cfg, rest, TimeoutPost(w.timers[j].0, w.timers[j].1)) else rest
      else s
    case Sync(a, k) =>
      if a < |s.agents| && k < |s.states.log| then
        var m := s.states.log[k];
        s.(agents := s.agents[a := s.agents[a].(worker := OnState(cfg, s.agents[a].worker, m.subject, m.body))])
      else s
    case Restart(a) => if a < |s.agents| then s.(agents := s.agents[a := Agent(IDLE, [])]) else s
  }

  function Start(workers: nat): State {
    State(NOTHING, NOTHING, [], seq(workers, i => Agent(IDLE, [])))
  }

  ghost predicate Moves(f: (Config, State, Event) -> State, cfg: Config, s: State, e: Event) {
    f(cfg, s, e) == Step(cfg, s, e)
  }

  ghost predicate IsStep(f: (Config, State, Event) -> State) {
    forall cfg, s, e :: Moves(f, cfg, s, e)
  }

  // Step as a value, so that proofs about runs do not look into it.
  ghost function Next(): (f: (Config, State, Event) -> State)
    ensures IsStep(f)
  {
    NextExists();
    var f :| IsStep(f);
    f
  }

  lemma NextExists()
    ensures exists f :: IsStep(f)
  {
    var f := (cfg: Config, s: State, e: Event) => Step(cfg, s, e);
    assert IsStep(f);
  }

  lemma NextIsStep(cfg: Config, s: State, e: Event)
    ensures Next()(cfg, s, e) == Step(cfg, s, e)
  {
    assert Moves(Next(), cfg, s, e);
  }

  ghost function After(cfg: Config, workers: nat, es: seq<Event>): State {
    if es == [] then Start(workers) else Next()(cfg, After(cfg, workers, es[..|es| - 1]), es[|es| - 1])
  }

  lemma OneMore(cfg: Config, workers: nat, es: seq<Event>, e: Event)
    ensures After(cfg, workers, es + [e]) == Next()(cfg, After(cfg, workers, es), e) ==
            Step(cfg, After(cfg, workers, es), e)
  {
    assert (es + [e])[..|es|] == es;
    NextIsStep(cfg, After(cfg, workers, es), e);
  }

  // ---- What every state of every run has ----

  // A step task's body is its encoding, and it sits on its step's subject.
  predicate BodyOk(cfg: Config, n: MsgName, subject: Text, body: Text) {
    n.StepTask? ==>
      && subject == SubjectText(cfg.name, StepSubject(n.step)) && |body| >= |n.inst| + 5
      && body == EncodeTask(Task(n.inst, n.step, n.attempt, body[|n.inst| + 5..]))
  }

  predicate PostOk(cfg: Config, p: Post) {
    InBounds(cfg, p.name) && BodyOk(cfg, p.name, SubjectText(cfg.name, p.subject), p.body)
  }

  predicate MessageOk(cfg: Config, m: Message) {
    m.name.Some? ==> InBounds(cfg, m.name.value) && BodyOk(cfg, m.name.value, m.subject, m.body)
  }

  ghost predicate Inv(cfg: Config, s: State) {
    && StreamOk(s.tasks) && StreamOk(s.states)
    && (forall k :: 0 <= k < |s.tasks.log| ==> MessageOk(cfg, s.tasks.log[k]))
    && (forall a :: 0 <= a < |s.agents| ==> forall p :: p in s.agents[a].outbox ==> PostOk(cfg, p))
  }

  lemma StepPostOk(cfg: Config, inst: Text, step: U16, attempt: U8, ctx: Text)
    requires step < |cfg.steps| && attempt < Tries(cfg)
    ensures PostOk(cfg, StepPost(inst, step, attempt, ctx))
  {
    EncodedTaskParts(Task(inst, step, attempt, ctx));
    var body := EncodeTask(Task(inst, step, attempt, ctx));
    assert body[|inst| + 5..] == ctx;
  }

  lemma PostsOk(cfg: Config, w: Worker, control: Option<Subject>, p: Text, seqNo: nat, answer: Answer)
    ensures forall post :: post in Process(cfg, w, control, p, seqNo, answer).posts ==> PostOk(cfg, post)
  {
    PostsInBounds(cfg, w, control, p, seqNo, answer);
    forall post | post in Process(cfg, w, control, p, seqNo, answer).posts
      ensures PostOk(cfg, post)
    {
      if post.name.StepTask? {
        var ctx := StepPostsArePlain(cfg, w, control, p, seqNo, answer, post);
        StepPostOk(cfg, post.name.inst, post.name.step, post.name.attempt, ctx);
      }
    }
  }

  predicate Plain(p: Post, ctx: Text) {
    p.name.StepTask? ==> p == StepPost(p.name.inst, p.name.step, p.name.attempt, ctx)
  }

  lemma OnStepPlain(cfg: Config, w: Worker, t: Task, answer: Answer, post: Post)
    requires t.step < |cfg.steps| && post in OnStep(cfg, w, t, answer).posts
    ensures Plain(post, if answer.Done? then answer.ctx else t.ctx)
  {
    UndoPosts(t.inst, t.step, t.ctx);
  }

  lemma StepPostsArePlain(cfg: Config, w: Worker, control: Option<Subject>, p: Text, seqNo: nat, answer: Answer,
                          post: Post)
    returns (ctx: Text)
    requires post in Process(cfg, w, control, p, seqNo, answer).posts
    ensures Plain(post, ctx)
  {
    var t := RunBy(cfg, p);
    ctx := if answer.Done? then answer.ctx else if t.Some? then t.value.ctx else [];
    if t.Some? && post in OnStep(cfg, w, t.value, answer).posts {
      OnStepPlain(cfg, w, t.value, answer, post);
    }
  }

  lemma PutKeeps(cfg: Config, s: State, p: Post)
    requires Inv(cfg, s) && PostOk(cfg, p)
    ensures Inv(cfg, Put(cfg, s, p))
  {
    var subject := SubjectText(cfg.name, p.subject);
    AcceptKeeps(s.tasks, p.name, subject, p.body);
    AcceptKeeps(s.states, p.name, subject, p.body);
  }

  lemma AgentKeeps(cfg: Config, s: State, a: nat, agent: Agent)
    requires Inv(cfg, s) && a < |s.agents| && forall p :: p in agent.outbox ==> PostOk(cfg, p)
    ensures Inv(cfg, s.(agents := s.agents[a := agent]))
  {
  }

  lemma StepKeeps(cfg: Config, s: State, e: Event)
    requires Inv(cfg, s) && |cfg.steps| > 0
    ensures Inv(cfg, Step(cfg, s, e))
  {
    match e
    case Trigger(inst, payload) =>
      StepPostOk(cfg, inst, 0, 0, payload);
      PutKeeps(cfg, s, StepPost(inst, 0, 0, payload));
    case Foreign(subject, body) => UnnamedKeeps(s.tasks, subject, body);
    case AskResume(inst, n, event) => PutKeeps(cfg, s, Post(Tasks, ResumeSubject(inst), ResumeCall(inst, n), event));
    case AskCancel(inst) => PutKeeps(cfg, s, Post(Tasks, CancelSubject(inst), CancelCall(inst), []));
    case Handle(a, k, answer) =>
      if a < |s.agents| && s.agents[a].outbox == [] && k < |s.tasks.log| {
        var m := s.tasks.log[k];
        var w := s.agents[a].worker;
        PostsOk(cfg, w, ControlOf(cfg.name, m.subject), m.body, k, answer);
        var eff := Process(cfg, w, ControlOf(cfg.name, m.subject), m.body, k, answer);
        AgentKeeps(cfg, s, a, Agent(eff.worker, eff.posts));
      }
    case Send(a, ok) =>
      if a < |s.agents| && s.agents[a].outbox != [] {
        AgentKeeps(cfg, s, a, s.agents[a].(outbox := s.agents[a].outbox[1..]));
        PutKeeps(cfg, s.(agents := s.agents[a := s.agents[a].(outbox := s.agents[a].outbox[1..])]),
          s.agents[a].outbox[0]);
      }
    case Fire(a, j, ok) =>
      if a < |s.agents| && j < |s.agents[a].worker.timers| {
        var w := s.agents[a].worker;
        var agent := s.agents[a].(worker := w.(timers := w.timers[..j] + w.timers[j + 1..]));
        AgentKeeps(cfg, s, a, agent);
        PutKeeps(cfg, s.(agents := s.agents[a := agent]), TimeoutPost(w.timers[j].0, w.timers[j].1));
      }
    case Sync(a, k) =>
      if a < |s.agents| && k < |s.states.log| {
        var m := s.states.log[k];
        AgentKeeps(cfg, s, a, s.agents[a].(worker := OnState(cfg, s.agents[a].worker, m.subject, m.body)));
      }
    case Restart(a) => if a < |s.agents| { AgentKeeps(cfg, s, a, Agent(IDLE, [])); }
  }

  lemma {:induction false} RunKeepsInv(cfg: Config, workers: nat, es: seq<Event>)
    requires |cfg.steps| > 0
    ensures Inv(cfg, After(cfg, workers, es))
  {
    if es != [] {
      RunKeepsInv(cfg, workers, es[..|es| - 1]);
      StepKeeps(cfg, After(cfg, workers, es[..|es| - 1]), es[|es| - 1]);
      NextIsStep(cfg, After(cfg, workers, es[..|es| - 1]), es[|es| - 1]);
    }
  }

  // ---- The theorems ----

  // The step tasks logged for one instance.
  function StepTasksOf(log: seq<Message>, inst: Text): set<nat> {
    set k: nat | k < |log| && log[k].name.Some? && log[k].name.value.StepTask? && log[k].name.value.inst == inst
  }

  // Where a step task stands among all an instance may have.
  function Rank(tries: nat, n: MsgName): nat {
    if n.StepTask? then n.step * tries + n.attempt else 0
  }

  function RankAt(log: seq<Message>, tries: nat, k: nat): nat {
    if k < |log| && log[k].name.Some? then Rank(tries, log[k].name.value) else 0
  }

  lemma {:induction false} AtMostAsMany(log: seq<Message>, tries: nat, ks: set<nat>, n: nat)
    requires forall k :: k in ks ==> RankAt(log, tries, k) < n
    requires forall j, k :: j in ks && k in ks && j != k ==> RankAt(log, tries, j) != RankAt(log, tries, k)
    ensures |ks| <= n
    decreases n
  {
    if k :| k in ks && RankAt(log, tries, k) == n - 1 {
      forall j | j in ks - {k}
        ensures RankAt(log, tries, j) < n - 1
      {
        assert RankAt(log, tries, j) < n;
      }
      AtMostAsMany(log, tries, ks - {k}, n - 1);
    } else if n > 0 {
      forall j | j in ks
        ensures RankAt(log, tries, j) < n - 1
      {
        assert RankAt(log, tries, j) < n;
      }
      AtMostAsMany(log, tries, ks, n - 1);
    } else {
      assert forall k :: k in ks ==> RankAt(log, tries, k) < 0;
      assert ks == {};
    }
  }

  // However messages are redelivered, handlers answer, publishes fail, workers
  // restart, resumes and timeouts compete, and whatever others put on the
  // stream: an instance has at most one task for each attempt at each step.
  lemma StepTasksBounded(cfg: Config, workers: nat, es: seq<Event>, inst: Text)
    requires |cfg.steps| > 0
    ensures |StepTasksOf(After(cfg, workers, es).tasks.log, inst)| <= |cfg.steps| * Tries(cfg)
  {
    RunKeepsInv(cfg, workers, es);
    var log := After(cfg, workers, es).tasks.log;
    var ks := StepTasksOf(log, inst);
    forall k | k in ks
      ensures RankAt(log, Tries(cfg), k) < |cfg.steps| * Tries(cfg)
    {
      assert MessageOk(cfg, log[k]);
      RankBelow(log[k].name.value.step, log[k].name.value.attempt, |cfg.steps|, Tries(cfg));
    }
    forall j, k | j in ks && k in ks && j != k
      ensures RankAt(log, Tries(cfg), j) != RankAt(log, Tries(cfg), k)
    {
      assert MessageOk(cfg, log[j]) && MessageOk(cfg, log[k]) && log[j].name != log[k].name;
      RankTells(cfg, log[j].name.value, log[k].name.value);
    }
    AtMostAsMany(log, Tries(cfg), ks, |cfg.steps| * Tries(cfg));
  }

  lemma RankTells(cfg: Config, a: MsgName, b: MsgName)
    requires a.StepTask? && b.StepTask? && a.inst == b.inst && a != b && InBounds(cfg, a) && InBounds(cfg, b)
    ensures Rank(Tries(cfg), a) != Rank(Tries(cfg), b)
  {
    if Rank(Tries(cfg), a) == Rank(Tries(cfg), b) {
      RankSplits(a.step, a.attempt, b.step, b.attempt, Tries(cfg));
    }
  }

  lemma RankBelow(step: nat, attempt: nat, steps: nat, tries: nat)
    requires step < steps && attempt < tries
    ensures step * tries + attempt < steps * tries
  {
    assert (step + 1) * tries <= steps * tries;
  }

  lemma RankSplits(s: nat, a: nat, s': nat, a': nat, tries: nat)
    requires a < tries && a' < tries && s * tries + a == s' * tries + a'
    ensures s == s' && a == a'
  {
    assert s < s' ==> (s + 1) * tries <= s' * tries;
    assert s' < s ==> (s' + 1) * tries <= s * tries;
  }

  // Every message of a workflow is on its task stream at most once: the next
  // step of an instance whoever resumes it, and each compensation under
  // redelivery.
  lemma EnqueuedAtMostOnce(cfg: Config, workers: nat, es: seq<Event>, j: nat, k: nat)
    requires |cfg.steps| > 0 && j < |After(cfg, workers, es).tasks.log| && k < |After(cfg, workers, es).tasks.log|
    requires After(cfg, workers, es).tasks.log[j].name == After(cfg, workers, es).tasks.log[k].name != None
    ensures j == k
  {
    RunKeepsInv(cfg, workers, es);
  }

  // Every step task of a run reads back as itself, its attempt counter has room
  // for one more, and whatever processing it publishes descends.
  lemma RunsDescend(cfg: Config, workers: nat, es: seq<Event>, k: nat, w: Worker, answer: Answer)
    requires 0 < |cfg.steps| < 0x1_0000 && k < |After(cfg, workers, es).tasks.log|
    requires var m := After(cfg, workers, es).tasks.log[k];
             m.name.Some? && m.name.value.StepTask? && |m.name.value.inst| < 0x1_0000
    ensures var m := After(cfg, workers, es).tasks.log[k];
            var n := m.name.value;
            && DecodeTask(m.body).Some? && n.attempt < 0xFF
            && (var t := DecodeTask(m.body).value; n == StepTask(t.inst, t.step, t.attempt))
            && forall post | post in Process(cfg, w, ControlOf(cfg.name, m.subject), m.body, k, answer).posts ::
                 post.name.StepTask? ==> post.name.inst == n.inst && Descends(n, post.name)
  {
    RunKeepsInv(cfg, workers, es);
    var m := After(cfg, workers, es).tasks.log[k];
    var n := m.name.value;
    assert MessageOk(cfg, m);
    var t := Task(n.inst, n.step, n.attempt, m.body[|n.inst| + 5..]);
    TaskReadsBackIff(t);
    SubjectsAreToldApart(cfg.name, StepSubject(n.step));
    if RunBy(cfg, m.body).Some? {
      FollowUpsDescendIff(cfg, w, t, answer);
    }
  }

  // ---- Giving up ----

  function Sends(a: nat, n: nat): seq<Event> {
    seq(n, i => Send(a, true))
  }

  function PutEach(cfg: Config, s: State, posts: seq<Post>): (r: State)
    ensures (forall p :: p in posts ==> p.to == Tasks) ==> r.agents == s.agents && r.dead == s.dead
    decreases |posts|
  {
    if posts == [] then s else PutEach(cfg, Put(cfg, s, posts[0]), posts[1..])
  }

  function SendAll(cfg: Config, s: State, a: nat, n: nat): State
    decreases n
  {
    if n == 0 then s else SendAll(cfg, Step(cfg, s, Send(a, true)), a, n - 1)
  }

  lemma SendsUnroll(es: seq<Event>, a: nat, n: nat)
    requires n > 0
    ensures es + Sends(a, n) == es + [Send(a, true)] + Sends(a, n - 1)
  {
    assert Sends(a, n) == [Send(a, true)] + Sends(a, n - 1);
  }

  lemma {:induction false} AfterSends(cfg: Config, workers: nat, es: seq<Event>, a: nat, n: nat)
    ensures After(cfg, workers, es + Sends(a, n)) == SendAll(cfg, After(cfg, workers, es), a, n)
    decreases n
  {
    if n == 0 {
      assert es + Sends(a, 0) == es;
    } else {
      SendsUnroll(es, a, n);
      OneMore(cfg, workers, es, Send(a, true));
      AfterSends(cfg, workers, es + [Send(a, true)], a, n - 1);
    }
  }

  function WithOutbox(s: State, a: nat, posts: seq<Post>): State
    requires a < |s.agents|
  {
    s.(agents := s.agents[a := s.agents[a].(outbox := posts)])
  }

  lemma SendOne(cfg: Config, s: State, a: nat)
    requires a < |s.agents| && s.agents[a].outbox != []
    ensures var posts, s' := s.agents[a].outbox, Step(cfg, s, Send(a, true));
            && a < |s'.agents| && s'.agents[a].outbox == posts[1..]
            && WithOutbox(s', a, []) == Put(cfg, WithOutbox(s, a, []), posts[0])
  {
    var posts := s.agents[a].outbox;
    var rest := WithOutbox(s, a, posts[1..]);
    assert Step(cfg, s, Send(a, true)) == Put(cfg, rest, posts[0]);
    assert rest.agents[a := rest.agents[a].(outbox := [])] == s.agents[a := s.agents[a].(outbox := [])];
  }

  lemma {:induction false} SendsDrain(cfg: Config, s: State, a: nat)
    requires a < |s.agents|
    ensures SendAll(cfg, s, a, |s.agents[a].outbox|) == PutEach(cfg, WithOutbox(s, a, []), s.agents[a].outbox)
    decreases |s.agents[a].outbox|
  {
    if s.agents[a].outbox == [] {
      assert s.agents[a := s.agents[a]] == s.agents;
    } else {
      SendOne(cfg, s, a);
      SendsDrain(cfg, Step(cfg, s, Send(a, true)), a);
    }
  }

  function UndoMessage(cfg: Config, inst: Text, step: U16, ctx: Text): Message {
    var p := UndoPost(inst, step, ctx);
    Message(Some(p.name), SubjectText(cfg.name, p.subject), p.body)
  }

  function DeadMessage(cfg: Config, t: Task, err: Text): Message {
    var p := DeadPost(t, err);
    Message(Some(p.name), SubjectText(cfg.name, p.subject), p.body)
  }

  // The compensations of the steps below `step` the stream lacks, last first.
  function Lacking(cfg: Config, st: Stream, inst: Text, step: nat, ctx: Text): seq<Message>
    requires step < 0x1_0000
  {
    if step == 0 then []
    else (if Logged(st, Compensate(inst, step - 1)) then [] else [UndoMessage(cfg, inst, step - 1, ctx)])
         + Lacking(cfg, st, inst, step - 1, ctx)
  }

  lemma {:induction false} LackingSame(cfg: Config, st: Stream, st': Stream, inst: Text, step: nat, ctx: Text)
    requires step < 0x1_0000
    requires forall j: U16 :: j < step ==> (Logged(st, Compensate(inst, j)) <==> Logged(st', Compensate(inst, j)))
    ensures Lacking(cfg, st, inst, step, ctx) == Lacking(cfg, st', inst, step, ctx)
  {
    if step > 0 {
      LackingSame(cfg, st, st', inst, step - 1, ctx);
    }
  }

  lemma LoggedMore(st: Stream, m: Message, n: MsgName)
    ensures Logged(st.(log := st.log + [m]), n) <==> Logged(st, n) || m.name == Some(n)
  {
    var st' := st.(log := st.log + [m]);
    if Logged(st, n) {
      var k :| 0 <= k < |st.log| && st.log[k].name == Some(n);
      assert st'.log[k].name == Some(n);
    }
    assert st'.log[|st.log|] == m;
  }

  ghost predicate AddsOnly(st: Stream, st': Stream, added: MsgName) {
    forall n: MsgName :: Logged(st', n) <==> Logged(st, n) || n == added
  }

  lemma UndoOne(cfg: Config, s: State, inst: Text, step: U16, ctx: Text)
    requires StreamOk(s.tasks)
    ensures var m := UndoMessage(cfg, inst, step, ctx);
            var st := Put(cfg, s, UndoPost(inst, step, ctx)).tasks;
            && StreamOk(st) && AddsOnly(s.tasks, st, m.name.value)
            && st.log == s.tasks.log + if Logged(s.tasks, Compensate(inst, step)) then [] else [m]
  {
    var p := UndoPost(inst, step, ctx);
    var m := UndoMessage(cfg, inst, step, ctx);
    AcceptKeeps(s.tasks, p.name, m.subject, p.body);
    forall n: MsgName
      ensures Logged(s.tasks.(log := s.tasks.log + [m]), n) <==> Logged(s.tasks, n) || m.name == Some(n)
    {
      LoggedMore(s.tasks, m, n);
    }
    forall n: MsgName
      ensures Logged(Put(cfg, s, p).tasks, n) <==> Logged(s.tasks, n) || m.name == Some(n)
    {
      assert Logged(Put(cfg, s, p).tasks, n) <==>
             if Logged(s.tasks, p.name) then Logged(s.tasks, n) else Logged(s.tasks.(log := s.tasks.log + [m]), n);
    }
  }

  lemma UndoUnrolls(cfg: Config, s: State, inst: Text, step: U16, ctx: Text)
    requires step < 0xFFFF
    ensures PutEach(cfg, s, Undo(inst, step as int + 1, ctx))
            == PutEach(cfg, Put(cfg, s, UndoPost(inst, step, ctx)), Undo(inst, step, ctx))
  {
    var all := Undo(inst, step as int + 1, ctx);
    assert all[1..] == Undo(inst, step, ctx) && all[0] == UndoPost(inst, step, ctx);
  }

  lemma UndoStep(cfg: Config, s: State, inst: Text, step: U16, ctx: Text)
    requires StreamOk(s.tasks) && step < 0xFFFF
    ensures var st := Put(cfg, s, UndoPost(inst, step, ctx)).tasks;
            && StreamOk(st)
            && st.log + Lacking(cfg, st, inst, step, ctx) ==
               s.tasks.log + Lacking(cfg, s.tasks, inst, step as int + 1, ctx)
  {
    UndoOne(cfg, s, inst, step, ctx);
    LackingBelow(cfg, s.tasks, Put(cfg, s, UndoPost(inst, step, ctx)).tasks, inst, step, ctx);
  }

  lemma {:induction false} UndoFillsIn(cfg: Config, s: State, inst: Text, step: nat, ctx: Text)
    requires step < 0x1_0000 && StreamOk(s.tasks)
    ensures PutEach(cfg, s, Undo(inst, step, ctx)).tasks.log == s.tasks.log + Lacking(cfg, s.tasks, inst, step, ctx)
    decreases step
  {
    if step == 0 {
      assert Undo(inst, 0, ctx) == [];
    } else {
      UndoStep(cfg, s, inst, step - 1, ctx);
      UndoUnrolls(cfg, s, inst, step - 1, ctx);
      UndoFillsIn(cfg, Put(cfg, s, UndoPost(inst, step - 1, ctx)), inst, step - 1, ctx);
    }
  }

  ghost predicate Has(log: seq<Message>, n: MsgName) {
    exists m :: m in log && m.name == Some(n)
  }

  // With what was lacking added, every compensation is there.
  lemma {:induction false} NothingLacking(cfg: Config, st: Stream, inst: Text, step: nat, ctx: Text, j: U16)
    requires step < 0x1_0000 && j < step
    ensures Has(st.log + Lacking(cfg, st, inst, step, ctx), Compensate(inst, j))
  {
    if Logged(st, Compensate(inst, j)) {
      var k :| 0 <= k < |st.log| && st.log[k].name == Some(Compensate(inst, j));
      assert st.log[k] in st.log;
    } else if j == step - 1 {
      assert UndoMessage(cfg, inst, j, ctx) in Lacking(cfg, st, inst, step, ctx);
    } else {
      NothingLacking(cfg, st, inst, step - 1, ctx, j);
      var m :| m in st.log + Lacking(cfg, st, inst, step - 1, ctx) && m.name == Some(Compensate(inst, j));
      assert m in st.log + Lacking(cfg, st, inst, step, ctx);
    }
  }

  lemma LackingBelow(cfg: Config, st: Stream, st': Stream, inst: Text, step: U16, ctx: Text)
    requires AddsOnly(st, st', Compensate(inst, step))
    ensures Lacking(cfg, st, inst, step, ctx) == Lacking(cfg, st', inst, step, ctx)
  {
    forall j: U16 | j < step
      ensures Logged(st, Compensate(inst, j)) <==> Logged(st', Compensate(inst, j))
    {
      assert Compensate(inst, j) != Compensate(inst, step);
    }
    LackingSame(cfg, st, st', inst, step, ctx);
  }

  // When a worker gives up on step k and its publishes succeed, the stream
  // gains exactly the compensations of steps k-1 down to 0 it did not already
  // have, in that order, and nothing else; and the dead letters gain one more,
  // whether or not they have one for this step.
  lemma GivingUpEnqueuesCompensations(cfg: Config, workers: nat, es: seq<Event>, a: nat, k: nat, t: Task, err: Text)
    requires |cfg.steps| > 0 && a < |After(cfg, workers, es).agents| && After(cfg, workers, es).agents[a].outbox == []
    requires k < |After(cfg, workers, es).tasks.log|
    requires var m := After(cfg, workers, es).tasks.log[k];
             ControlOf(cfg.name, m.subject) == None && RunBy(cfg, m.body) == Some(t)
    requires NextAttempt(t.attempt) >= cfg.maxRetries
    ensures var s := After(cfg, workers, es);
            var s' := After(cfg, workers, es + [Handle(a, k, Failed(err))] + Sends(a, 1 + t.step));
            && s'.tasks.log == s.tasks.log + Lacking(cfg, s.tasks, t.inst, t.step, t.ctx)
            && (forall j: U16 :: j < t.step ==> Has(s'.tasks.log, Compensate(t.inst, j)))
            && s'.agents == s.agents && s'.dead == s.dead + [DeadMessage(cfg, t, err)]
  {
    RunKeepsInv(cfg, workers, es);
    var s := After(cfg, workers, es);
    var es1 := es + [Handle(a, k, Failed(err))];
    var posts := [DeadPost(t, err)] + Undo(t.inst, t.step, t.ctx);
    UndoPosts(t.inst, t.step, t.ctx);
    OneMore(cfg, workers, es, Handle(a, k, Failed(err)));
    HandledFailure(cfg, s, a, k, t, err);
    AfterSends(cfg, workers, es1, a, 1 + t.step);
    SendsDrain(cfg, After(cfg, workers, es1), a);
    assert s.agents[a := Agent(s.agents[a].worker, posts)][a := s.agents[a]] == s.agents;
    assert posts[1..] == Undo(t.inst, t.step, t.ctx);
    var told := Put(cfg, s, posts[0]);
    assert PutEach(cfg, s, posts) == PutEach(cfg, told, posts[1..]);
    UndoFillsIn(cfg, told, t.inst, t.step, t.ctx);
    AllThere(cfg, s.tasks, t.inst, t.step, t.ctx);
  }

  lemma AllThere(cfg: Config, st: Stream, inst: Text, step: U16, ctx: Text)
    ensures forall j: U16 :: j < step ==> Has(st.log + Lacking(cfg, st, inst, step, ctx), Compensate(inst, j))
  {
    forall j: U16 | j < step
      ensures Has(st.log + Lacking(cfg, st, inst, step, ctx), Compensate(inst, j))
    {
      NothingLacking(cfg, st, inst, step, ctx, j);
    }
  }

  lemma HandledFailure(cfg: Config, s: State, a: nat, k: nat, t: Task, err: Text)
    requires a < |s.agents| && s.agents[a].outbox == [] && k < |s.tasks.log|
    requires ControlOf(cfg.name, s.tasks.log[k].subject) == None && RunBy(cfg, s.tasks.log[k].body) == Some(t)
    requires NextAttempt(t.attempt) >= cfg.maxRetries
    ensures Step(cfg, s, Handle(a, k, Failed(err)))
            == s.(agents := s.agents[a := Agent(s.agents[a].worker, [DeadPost(t, err)] + Undo(t.inst, t.step, t.ctx))])
  {
    var m, w := s.tasks.log[k], s.agents[a].worker;
    var e := Process(cfg, w, ControlOf(cfg.name, m.subject), m.body, k, Failed(err));
    assert e == OnFailure(cfg, w, t, err);
  }
}
