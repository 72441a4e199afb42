// The workflow processor: what one worker does with one message.
module Saga {
  import opened Bytes
  import opened TaskCodec

  datatype StepDef = StepDef(suspends: bool, resumable: bool, onTimeout: bool, timeoutMs: U64, undoes: bool)

  datatype Config = Config(name: Text, steps: seq<StepDef>, maxRetries: U8, maxContext: int)

  // uint16(len(steps)), as Start stores it.
  function TotalSteps(cfg: Config): U16 {
    |cfg.steps| % 0x1_0000
  }

  datatype Target = Tasks | States | DeadLetters

  datatype Post = Post(to: Target, subject: Subject, name: MsgName, body: Text)

  datatype Verdict = Ack | Nack | NackLater | Unanswered | AckIfPosted

  // What the user's handlers answered. A suspend step may also return neither
  // a result nor a suspension.
  datatype Answer = Done(ctx: Text) | Suspend(state: Text, timeoutMs: U64) | Neither | Failed(err: Text)

  // A worker's memory: parked instances, messages nacked once, running timers.
  datatype Worker = Worker(parked: map<Text, Parked>, nacked: set<nat>, timers: seq<(Text, U16)>)

  const IDLE := Worker(map[], {}, [])

  // ---- 16-bit step indexes and 8-bit attempts ----

  const UNDO_BIT: U16 := 0x8000

  predicate HasUndoBit(step: U16) {
    step >= UNDO_BIT
  }

  function SetUndoBit(step: U16): U16 {
    if step >= UNDO_BIT then step
    else
      var n: nat := step;
      n + 0x8000
  }

  function ClearUndoBit(step: U16): U16 {
    if step >= UNDO_BIT then step - UNDO_BIT else step
  }

  function NextStep(step: U16): U16 {
    var n: nat := step;
    (n + 1) % 0x1_0000
  }

  function NextAttempt(a: U8): U8 {
    var n: nat := a;
    (n + 1) % 0x100
  }

  // ---- Posts ----

  function StepPost(inst: Text, step: U16, attempt: U8, ctx: Text): Post {
    Post(Tasks, StepSubject(step), StepTask(inst, step, attempt), EncodeTask(Task(inst, step, attempt, ctx)))
  }

  function UndoPost(inst: Text, step: U16, ctx: Text): Post {
    Post(Tasks, UndoSubject(step), Compensate(inst, step), EncodeTask(Task(inst, SetUndoBit(step), 0, ctx)))
  }

  function RemovePost(inst: Text): Post {
    Post(States, RemoveSubject(inst), RemoveNote(inst), [])
  }

  function ParkPost(inst: Text, e: Parked): Post {
    Post(States, ParkSubject(inst), ParkNote(inst, e.step), EncodePark(e))
  }

  function TimeoutPost(inst: Text, step: U16): Post {
    Post(Tasks, TimeoutSubject(inst), TimeoutCall(inst, step), [])
  }

  function DeadPost(t: Task, err: Text): Post {
    Post(DeadLetters, DeadSubject(t.step), Dead(t.inst, t.step),
         LE(|t.inst|, 2) + t.inst + LE(t.step, 2) + [t.attempt] + LE(|err|, 4) + err + t.ctx)
  }

  // The task that follows a step, if there is a next step.
  function Advance(cfg: Config, inst: Text, step: U16, ctx: Text): seq<Post> {
    if NextStep(step) < TotalSteps(cfg) then [StepPost(inst, NextStep(step), 0, ctx)] else []
  }

  // The completed steps below `step`, last first.
  function Undo(inst: Text, step: nat, ctx: Text): seq<Post>
    requires step < 0x1_0000
  {
    if step == 0 then [] else [UndoPost(inst, step - 1, ctx)] + Undo(inst, step - 1, ctx)
  }

  // ---- One message ----

  datatype Effect = Effect(worker: Worker, posts: seq<Post>, verdict: Verdict)

  function OnFailure(cfg: Config, w: Worker, t: Task, err: Text): Effect {
    if NextAttempt(t.attempt) >= cfg.maxRetries then
      Effect(w, [DeadPost(t, err)] + Undo(t.inst, t.step, t.ctx), Ack)
    else
      Effect(w, [StepPost(t.inst, t.step, NextAttempt(t.attempt), t.ctx)], AckIfPosted)
  }

  function OnDone(cfg: Config, w: Worker, inst: Text, step: U16, ctx: Text): Effect {
    if |ctx| > cfg.maxContext then Effect(w, [], Nack) else Effect(w, Advance(cfg, inst, step, ctx), Ack)
  }

  function OnSuspend(cfg: Config, w: Worker, t: Task, def: StepDef, state: Text, timeoutMs: U64): Effect {
    var e := Parked(t.step, state, t.ctx);
    var ms := if timeoutMs == 0 then def.timeoutMs else timeoutMs;
    Effect(w.(parked := w.parked[t.inst := e], timers := if ms > 0 then w.timers + [(t.inst, t.step)] else w.timers),
           [ParkPost(t.inst, e)], Ack)
  }

  function OnStep(cfg: Config, w: Worker, t: Task, answer: Answer): Effect
    requires t.step < |cfg.steps|
  {
    var def := cfg.steps[t.step];
    match answer
    case Failed(err) => OnFailure(cfg, w, t, err)
    case Done(ctx) => OnDone(cfg, w, t.inst, t.step, ctx)
    case Suspend(state, ms) => if def.suspends then OnSuspend(cfg, w, t, def, state, ms) else Effect(w, [], Unanswered)
    case Neither => Effect(w, [], Unanswered)
  }

  // A resume or timeout for an instance this worker does not hold is handed on
  // once and dropped the second time.
  function OnUnknown(w: Worker, seqNo: nat): Effect {
    if seqNo in w.nacked then Effect(w.(nacked := w.nacked - {seqNo}), [], Ack)
    else Effect(w.(nacked := w.nacked + {seqNo}), [], NackLater)
  }

  function OnResume(cfg: Config, w: Worker, inst: Text, seqNo: nat, answer: Answer): Effect {
    if inst !in w.parked then OnUnknown(w, seqNo)
    else
      var step := w.parked[inst].step;
      var w' := w.(parked := w.parked - {inst});
      if step >= |cfg.steps| || !cfg.steps[step].suspends || !cfg.steps[step].resumable then Effect(w', [], Ack)
      else if !answer.Done? then Effect(w', [], Nack)
      else Effect(w', Advance(cfg, inst, step, answer.ctx) + [RemovePost(inst)], Ack)
  }

  function OnTimeout(cfg: Config, w: Worker, inst: Text, seqNo: nat, answer: Answer): Effect {
    if inst !in w.parked then OnUnknown(w, seqNo)
    else
      var step := w.parked[inst].step;
      var w' := w.(parked := w.parked - {inst});
      if step >= |cfg.steps| || !cfg.steps[step].suspends then Effect(w', [], Ack)
      else if !cfg.steps[step].onTimeout then Effect(w', [RemovePost(inst)], Ack)
      else if !answer.Done? then Effect(w', [], Nack)
      else Effect(w', Advance(cfg, inst, step, answer.ctx) + [RemovePost(inst)], Ack)
  }

  function OnCancel(w: Worker, inst: Text): Effect {
    Effect(w.(parked := w.parked - {inst}), [RemovePost(inst)], Ack)
  }

  // A note of another worker on the state stream. A park note does not replace
  // an entry already held.
  function OnState(cfg: Config, w: Worker, subject: Text, p: Text): Worker {
    var note := NoteOf(cfg.name, subject);
    if note.None? then w
    else if note.value.RemoveSubject? then w.(parked := w.parked - {note.value.inst})
    else
      var e := DecodePark(p);
      if e.None? || note.value.inst in w.parked then w else w.(parked := w.parked[note.value.inst := e.value])
  }

  // The step whose compensation a task runs.
  function UndoneBy(cfg: Config, p: Text): Option<U16> {
    var t := DecodeTask(p);
    if t.None? || |t.value.ctx| > cfg.maxContext || !HasUndoBit(t.value.step) then None
    else
      var step := ClearUndoBit(t.value.step);
      if step < |cfg.steps| && cfg.steps[step].undoes then Some(step) else None
  }

  // The step a task runs.
  function RunBy(cfg: Config, p: Text): Option<Task> {
    var t := DecodeTask(p);
    if t.Some? && |t.value.ctx| <= cfg.maxContext && !HasUndoBit(t.value.step) && t.value.step < |cfg.steps|
    then t else None
  }

  // What one of the user's handlers is called with.
  datatype Call =
    | RunsStep(step: U16, inst: Text, attempt: U8, input: Text)
    | UndoesStep(step: U16, inst: Text, attempt: U8, input: Text)
    | Resumes(step: U16, inst: Text, state: Text, event: Text)
    | TimesOut(step: U16, inst: Text, state: Text)

  function CalledByTask(cfg: Config, p: Text): Option<Call> {
    if UndoneBy(cfg, p).Some? then
      var t := DecodeTask(p).value;
      Some(UndoesStep(UndoneBy(cfg, p).value, t.inst, t.attempt, t.ctx))
    else if RunBy(cfg, p).Some? then
      var t := RunBy(cfg, p).value;
      Some(RunsStep(t.step, t.inst, t.attempt, t.ctx))
    else None
  }

  function CalledByResume(cfg: Config, w: Worker, inst: Text, event: Text): Option<Call> {
    if inst !in w.parked then None
    else
      var e := w.parked[inst];
      if e.step < |cfg.steps| && cfg.steps[e.step].suspends && cfg.steps[e.step].resumable
      then Some(Resumes(e.step, inst, e.state, event)) else None
  }

  function CalledByTimeout(cfg: Config, w: Worker, inst: Text): Option<Call> {
    if inst !in w.parked then None
    else
      var e := w.parked[inst];
      if e.step < |cfg.steps| && cfg.steps[e.step].suspends && cfg.steps[e.step].onTimeout
      then Some(TimesOut(e.step, inst, e.state)) else None
  }

  // The handler a message leads to, if any.
  function Called(cfg: Config, w: Worker, control: Option<Subject>, p: Text): Option<Call> {
    if control.None? then CalledByTask(cfg, p)
    else
      match control.value
      case ResumeSubject(inst) => CalledByResume(cfg, w, inst, p)
      case TimeoutSubject(inst) => CalledByTimeout(cfg, w, inst)
      case CancelSubject(_) => None
      case _ => CalledByTask(cfg, p)
  }

  function OnTask(cfg: Config, w: Worker, p: Text, answer: Answer): Effect {
    var t := RunBy(cfg, p);
    if t.Some? then OnStep(cfg, w, t.value, answer) else Effect(w, [], Ack)
  }

  function Process(cfg: Config, w: Worker, control: Option<Subject>, p: Text, seqNo: nat, answer: Answer): Effect {
    if control.None? then OnTask(cfg, w, p, answer)
    else
      match control.value
      case ResumeSubject(inst) => OnResume(cfg, w, inst, seqNo, answer)
      case TimeoutSubject(inst) => OnTimeout(cfg, w, inst, seqNo, answer)
      case CancelSubject(inst) => OnCancel(w, inst)
      case _ => OnTask(cfg, w, p, answer)
  }

  // ---- The processor ----

  function Resolved(v: Verdict, posted: bool): Verdict {
    if v == AckIfPosted then (if posted then Ack else Nack) else v
  }

  class Processor {
    const cfg: Config
    var parked: map<Text, Parked>
    var nacked: set<nat>
    var timers: seq<(Text, U16)>
    var posts: seq<Post>

    ghost function View(): Worker
      reads this
    {
      Worker(parked, nacked, timers)
    }

    twostate predicate Did(e: Effect, v: Verdict, posted: bool)
      reads this
    {
      View() == e.worker && posts == old(posts) + e.posts && v == Resolved(e.verdict, posted)
    }

    constructor (cfg: Config)
      ensures this.cfg == cfg && View() == IDLE && posts == []
    {
      this.cfg := cfg;
      parked, nacked, timers, posts := map[], {}, [], [];
    }

    method Publish(p: Post)
      modifies this`posts
      ensures posts == old(posts) + [p]
    {
      posts := posts + [p];
    }

    method PublishNext(inst: Text, step: U16, ctx: Text)
      modifies this`posts
      ensures posts == old(posts) + Advance(cfg, inst, step, ctx)
    {
      var next := NextStep(step);
      if next < TotalSteps(cfg) {
        Publish(StepPost(inst, next, 0, ctx));
      }
    }

    method HandleUnknown(seqNo: nat) returns (v: Verdict)
      modifies this`nacked
      ensures View() == OnUnknown(old(View()), seqNo).worker && v == OnUnknown(old(View()), seqNo).verdict
    {
      if seqNo !in nacked {
        nacked := nacked + {seqNo};
        return NackLater;
      }
      nacked := nacked - {seqNo};
      return Ack;
    }

    method HandleResume(inst: Text, event: Text, seqNo: nat, answer: Answer)
      returns (v: Verdict, called: Option<Call>)
      modifies this
      ensures Did(OnResume(cfg, old(View()), inst, seqNo, answer), v, true)
      ensures called == CalledByResume(cfg, old(View()), inst, event)
    {
      called := None;
      if inst !in parked {
        v := HandleUnknown(seqNo);
        return;
      }
      var step, state := parked[inst].step, parked[inst].state;
      parked := parked - {inst};
      if step >= |cfg.steps| {
        return Ack, called;
      }
      if !cfg.steps[step].suspends || !cfg.steps[step].resumable {
        return Ack, called;
      }
      called := Some(Resumes(step, inst, state, event));
      if !answer.Done? {
        return Nack, called;
      }
      PublishNext(inst, step, answer.ctx);
      Publish(RemovePost(inst));
      return Ack, called;
    }

    method HandleTimeout(inst: Text, seqNo: nat, answer: Answer) returns (v: Verdict, called: Option<Call>)
      modifies this
      ensures Did(OnTimeout(cfg, old(View()), inst, seqNo, answer), v, true)
      ensures called == CalledByTimeout(cfg, old(View()), inst)
    {
      called := None;
      if inst !in parked {
        v := HandleUnknown(seqNo);
        return;
      }
      var step, state := parked[inst].step, parked[inst].state;
      parked := parked - {inst};
      if step >= |cfg.steps| {
        return Ack, called;
      }
      if !cfg.steps[step].suspends {
        return Ack, called;
      }
      if cfg.steps[step].onTimeout {
        called := Some(TimesOut(step, inst, state));
        if !answer.Done? {
          return Nack, called;
        }
        PublishNext(inst, step, answer.ctx);
      }
      Publish(RemovePost(inst));
      return Ack, called;
    }

    method HandleCancel(inst: Text) returns (v: Verdict)
      modifies this
      ensures Did(OnCancel(old(View()), inst), v, true)
    {
      parked := parked - {inst};
      Publish(RemovePost(inst));
      return Ack;
    }

    method HandleStepDone(inst: Text, step: U16, ctx: Text) returns (v: Verdict)
      modifies this`posts
      ensures Did(OnDone(cfg, old(View()), inst, step, ctx), v, true)
    {
      if |ctx| > cfg.maxContext {
        return Nack;
      }
      PublishNext(inst, step, ctx);
      return Ack;
    }

    method HandleStepSuspend(t: Task, def: StepDef, state: Text, timeoutMs: U64) returns (v: Verdict)
      modifies this
      ensures Did(OnSuspend(cfg, old(View()), t, def, state, timeoutMs), v, true)
    {
      var e := Parked(t.step, state, t.ctx);
      parked := parked[t.inst := e];
      Publish(ParkPost(t.inst, e));
      var ms := timeoutMs;
      if ms == 0 {
        ms := def.timeoutMs;
      }
      if ms > 0 {
        timers := timers + [(t.inst, t.step)];
      }
      return Ack;
    }

    // A failed step is retried, or given up and the steps before it undone,
    // the latest first. `posted` is whether the retry could be published.
    method HandleStepError(t: Task, err: Text, posted: bool) returns (v: Verdict)
      modifies this`posts
      ensures Did(OnFailure(cfg, old(View()), t, err), v, posted)
    {
      if NextAttempt(t.attempt) >= cfg.maxRetries {
        Publish(DeadPost(t, err));
        var k: int := t.step - 1;
        while k >= 0
          invariant -1 <= k < t.step
          invariant posts + Undo(t.inst, k + 1, t.ctx) ==
            old(posts) + ([DeadPost(t, err)] + Undo(t.inst, t.step, t.ctx))
        {
          Publish(UndoPost(t.inst, k, t.ctx));
          k := k - 1;
        }
        return Ack;
      }
      Publish(StepPost(t.inst, t.step, NextAttempt(t.attempt), t.ctx));
      if !posted {
        return Nack;
      }
      return Ack;
    }

    method RunStep(t: Task, answer: Answer, posted: bool) returns (v: Verdict)
      requires t.step < |cfg.steps|
      modifies this
      ensures Did(OnStep(cfg, old(View()), t, answer), v, posted)
    {
      var def := cfg.steps[t.step];
      match answer
      case Failed(err) => v := HandleStepError(t, err, posted);
      case Done(ctx) => v := HandleStepDone(t.inst, t.step, ctx);
      case Suspend(state, ms) =>
        if def.suspends {
          v := HandleStepSuspend(t, def, state, ms);
        } else {
          v := Unanswered;
        }
      case Neither => v := Unanswered;
    }

    method HandleState(subject: Text, p: Text)
      modifies this`parked
      ensures View() == OnState(cfg, old(View()), subject, p)
    {
      var note := NoteOf(cfg.name, subject);
      if note.None? {
        return;
      }
      if note.value.RemoveSubject? {
        parked := parked - {note.value.inst};
        return;
      }
      var e := DecodePark(p);
      if e.Some? && note.value.inst !in parked {
        parked := parked[note.value.inst := e.value];
      }
    }

    // A message that is no control message: a compensation or a step.
    method ProcessTask(p: Text, answer: Answer, posted: bool) returns (v: Verdict, called: Option<Call>)
      modifies this
      ensures Did(OnTask(cfg, old(View()), p, answer), v, posted)
      ensures called == CalledByTask(cfg, p)
    {
      var t := DecodeTask(p);
      if t.None? {
        return Ack, None;
      }
      if |t.value.ctx| > cfg.maxContext {
        return Ack, None;
      }
      if HasUndoBit(t.value.step) {
        called := None;
        var orig := ClearUndoBit(t.value.step);
        if orig < |cfg.steps| {
          if cfg.steps[orig].undoes {
            called := Some(UndoesStep(orig, t.value.inst, t.value.attempt, t.value.ctx));
          }
        }
        return Ack, called;
      }
      if t.value.step >= |cfg.steps| {
        return Ack, None;
      }
      called := Some(RunsStep(t.value.step, t.value.inst, t.value.attempt, t.value.ctx));
      v := RunStep(t.value, answer, posted);
    }

    // One turn of the dispatch loop. `called` is the handler it called, if any,
    // and `answer` what that answered.
    method ProcessOne(subject: Text, p: Text, seqNo: nat, answer: Answer, posted: bool)
      returns (v: Verdict, called: Option<Call>)
      modifies this
      ensures Did(Process(cfg, old(View()), ControlOf(cfg.name, subject), p, seqNo, answer), v, posted)
      ensures called == Called(cfg, old(View()), ControlOf(cfg.name, subject), p)
    {
      called := None;
      var control := ControlOf(cfg.name, subject);
      if control.None? {
        v, called := ProcessTask(p, answer, posted);
      } else {
        match control.value
        case ResumeSubject(inst) => v, called := HandleResume(inst, p, seqNo, answer);
        case TimeoutSubject(inst) => v, called := HandleTimeout(inst, seqNo, answer);
        case CancelSubject(inst) => v := HandleCancel(inst);
      }
    }
  }
}
