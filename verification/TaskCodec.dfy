// What a workflow puts on its streams: message ids, task payloads and park
// payloads. Texts are byte strings, as Go's are.
module TaskCodec {
  import opened Bytes

  type Text = seq<Byte>

  // ---- Decimal numbers ----

  function Dec(n: nat): (s: Text)
    ensures s != []
  {
    if n < 10 then [48 + n] else Dec(n / 10) + [48 + n % 10]
  }

  function Undec(s: Text): int {
    if s == [] then 0
    else
      var digit: int := s[|s| - 1];
      10 * Undec(s[..|s| - 1]) + digit - 48
  }

  predicate Digits(s: Text) {
    forall i :: 0 <= i < |s| ==> 48 <= s[i] <= 57
  }

  lemma {:induction false} DecReads(n: nat)
    ensures Digits(Dec(n)) && Undec(Dec(n)) == n
    decreases n
  {
    if n < 10 {
      assert Dec(n)[..0] == [];
    } else {
      DecReads(n / 10);
      assert Dec(n)[..|Dec(n)| - 1] == Dec(n / 10);
    }
  }

  // ---- Message ids ----

  const COLON: Byte := 58
  const WF: Text := [119, 102]
  const COMP: Text := [99, 111, 109, 112]
  const DLQ: Text := [100, 108, 113]
  const RESUME: Text := [114, 101, 115, 117, 109, 101]
  const TIMEOUT: Text := [116, 105, 109, 101, 111, 117, 116]
  const PARK: Text := [112, 97, 114, 107]
  const CANCEL: Text := [99, 97, 110, 99, 101, 108]
  const REMOVE: Text := [114, 101, 109, 111, 118, 101]

  // What a message is, of which its id is the printed form.
  datatype MsgName =
    | StepTask(inst: Text, step: U16, attempt: U8)
    | Compensate(inst: Text, step: U16)
    | Dead(inst: Text, step: U16)
    | ResumeCall(inst: Text, n: U32)
    | TimeoutCall(inst: Text, step: U16)
    | CancelCall(inst: Text)
    | ParkNote(inst: Text, step: U16)
    | RemoveNote(inst: Text)

  function Tagged(inst: Text, tag: Text, n: nat): Text {
    WF + [COLON] + inst + [COLON] + tag + [COLON] + Dec(n)
  }

  function IdOf(m: MsgName): Text {
    match m
    case StepTask(inst, step, attempt) => Tagged(inst, Dec(step), attempt)
    case Compensate(inst, step) => Tagged(inst, COMP, step)
    case Dead(inst, step) => Tagged(inst, DLQ, step)
    case ResumeCall(inst, n) => Tagged(inst, RESUME, n)
    case TimeoutCall(inst, step) => Tagged(inst, TIMEOUT, step)
    case CancelCall(inst) => WF + [COLON] + inst + [COLON] + CANCEL
    case ParkNote(inst, step) => Tagged(inst, PARK, step)
    case RemoveNote(inst) => WF + [COLON] + inst + [COLON] + REMOVE
  }

  // A text splits at its last colon in one way only.
  lemma LastColon(a: Text, x: Text, b: Text, y: Text)
    requires a + [COLON] + x == b + [COLON] + y && COLON !in x && COLON !in y
    ensures a == b && x == y
  {
    var s := a + [COLON] + x;
    assert s[|a|] == COLON && s[|b|] == COLON;
    assert forall i :: |a| < i < |s| ==> s[i] == x[i - |a| - 1] && s[i] in x;
    assert forall i :: |b| < i < |s| ==> s[i] == y[i - |b| - 1] && s[i] in y;
    assert |a| == |b|;
    assert a == s[..|a|] && b == s[..|a|] && x == s[|a| + 1..] && y == s[|a| + 1..];
  }

  lemma TaggedInjective(i: Text, tag: Text, n: nat, j: Text, tag': Text, n': nat)
    requires Tagged(i, tag, n) == Tagged(j, tag', n') && COLON !in tag && COLON !in tag'
    ensures i == j && tag == tag' && n == n'
  {
    DecReads(n);
    DecReads(n');
    LastColon(WF + [COLON] + i + [COLON] + tag, Dec(n), WF + [COLON] + j + [COLON] + tag', Dec(n'));
    LastColon(WF + [COLON] + i, tag, WF + [COLON] + j, tag');
    assert i == (WF + [COLON] + i)[3..] && j == (WF + [COLON] + j)[3..];
  }

  lemma TaggedIsNotPlain(i: Text, tag: Text, n: nat, j: Text, word: Text)
    requires COLON !in word && !Digits(word)
    ensures Tagged(i, tag, n) != WF + [COLON] + j + [COLON] + word
  {
    DecReads(n);
    if Tagged(i, tag, n) == WF + [COLON] + j + [COLON] + word {
      LastColon(WF + [COLON] + i + [COLON] + tag, Dec(n), WF + [COLON] + j, word);
    }
  }

  function TagOf(m: MsgName): Text {
    match m
    case StepTask(_, step, _) => Dec(step)
    case Compensate(_, _) => COMP
    case Dead(_, _) => DLQ
    case ResumeCall(_, _) => RESUME
    case TimeoutCall(_, _) => TIMEOUT
    case ParkNote(_, _) => PARK
    case CancelCall(_) => CANCEL
    case RemoveNote(_) => REMOVE
  }

  predicate Numbered(m: MsgName) {
    !m.CancelCall? && !m.RemoveNote?
  }

  function NumberOf(m: MsgName): nat
    requires Numbered(m)
  {
    match m
    case StepTask(_, _, attempt) => attempt
    case ResumeCall(_, n) => n
    case Compensate(_, step) => step
    case Dead(_, step) => step
    case TimeoutCall(_, step) => step
    case ParkNote(_, step) => step
  }

  lemma WordsAreNotDigits()
    ensures !Digits(COMP) && !Digits(DLQ) && !Digits(RESUME) && !Digits(TIMEOUT) && !Digits(PARK)
    ensures !Digits(CANCEL) && !Digits(REMOVE)
  {
    assert COMP[0] == 99 && DLQ[0] == 100 && RESUME[0] == 114 && TIMEOUT[0] == 116 && PARK[0] == 112;
    assert CANCEL[0] == 99 && REMOVE[0] == 114;
  }

  lemma TagHasNoColon(m: MsgName)
    ensures COLON !in TagOf(m) && (Digits(TagOf(m)) <==> m.StepTask?)
  {
    WordsAreNotDigits();
    if m.StepTask? {
      DecReads(m.step);
    }
  }

  lemma SameTagSameKind(a: MsgName, b: MsgName)
    requires Numbered(a) && Numbered(b) && TagOf(a) == TagOf(b) && a.inst == b.inst && NumberOf(a) == NumberOf(b)
    ensures a == b
  {
    TagHasNoColon(a);
    TagHasNoColon(b);
    if a.StepTask? {
      DecReads(a.step);
      DecReads(b.step);
    } else {
      assert COMP[0] == 99 && DLQ[0] == 100 && RESUME[0] == 114 && TIMEOUT[0] == 116 && PARK[0] == 112;
    }
  }

  // Two messages share an id only if they are the same message, whatever the
  // instance ids contain, colons included.
  lemma IdsAreDistinct(a: MsgName, b: MsgName)
    requires IdOf(a) == IdOf(b)
    ensures a == b
  {
    TagHasNoColon(a);
    TagHasNoColon(b);
    if Numbered(a) && Numbered(b) {
      TaggedInjective(a.inst, TagOf(a), NumberOf(a), b.inst, TagOf(b), NumberOf(b));
      SameTagSameKind(a, b);
    } else if Numbered(a) {
      TaggedIsNotPlain(a.inst, TagOf(a), NumberOf(a), b.inst, TagOf(b));
    } else if Numbered(b) {
      TaggedIsNotPlain(b.inst, TagOf(b), NumberOf(b), a.inst, TagOf(a));
    } else {
      LastColon(WF + [COLON] + a.inst, TagOf(a), WF + [COLON] + b.inst, TagOf(b));
      assert a.inst == (WF + [COLON] + a.inst)[3..] && b.inst == (WF + [COLON] + b.inst)[3..];
      assert CANCEL[0] == 99 && REMOVE[0] == 114;
    }
  }

  // ---- Subjects ----

  // Where a message was published. The processor acts on the text of it.
  datatype Subject =
    | StepSubject(step: U16)
    | UndoSubject(step: U16)
    | ResumeSubject(inst: Text)
    | TimeoutSubject(inst: Text)
    | CancelSubject(inst: Text)
    | DeadSubject(step: U16)
    | ParkSubject(inst: Text)
    | RemoveSubject(inst: Text)

  const DOT: Byte := 46
  const SPACE: Text := [95, 119, 102, DOT]
  const STEP: Text := [115, 116, 101, 112]
  const UNDO: Text := [99, 111, 109, 112, 101, 110, 115, 97, 116, 101]
  const STATE: Text := [95, 95, 115, 116, 97, 116, 101, DOT]

  function Prefix(name: Text, word: Text): Text {
    SPACE + name + [DOT] + word + [DOT]
  }

  function SubjectText(name: Text, s: Subject): Text {
    match s
    case StepSubject(step) => Prefix(name, STEP) + Dec(step)
    case UndoSubject(step) => Prefix(name, UNDO) + Dec(step)
    case ResumeSubject(inst) => Prefix(name, RESUME) + inst
    case TimeoutSubject(inst) => Prefix(name, TIMEOUT) + inst
    case CancelSubject(inst) => Prefix(name, CANCEL) + inst
    case DeadSubject(step) => Prefix(name, DLQ) + Dec(step)
    case ParkSubject(inst) => Prefix(name, STATE + PARK) + inst
    case RemoveSubject(inst) => Prefix(name, STATE + REMOVE) + inst
  }

  // The prefix tests of the dispatch loop; anything else is taken for a task.
  function ControlOf(name: Text, s: Text): Option<Subject> {
    if Prefix(name, RESUME) <= s then Some(ResumeSubject(s[|Prefix(name, RESUME)|..]))
    else if Prefix(name, TIMEOUT) <= s then Some(TimeoutSubject(s[|Prefix(name, TIMEOUT)|..]))
    else if Prefix(name, CANCEL) <= s then Some(CancelSubject(s[|Prefix(name, CANCEL)|..]))
    else None
  }

  // The prefix tests on the state stream.
  function NoteOf(name: Text, s: Text): (r: Option<Subject>)
    ensures r.Some? ==> r.value.ParkSubject? || r.value.RemoveSubject?
  {
    if Prefix(name, STATE + PARK) <= s then Some(ParkSubject(s[|Prefix(name, STATE + PARK)|..]))
    else if Prefix(name, STATE + REMOVE) <= s then Some(RemoveSubject(s[|Prefix(name, STATE + REMOVE)|..]))
    else None
  }

  lemma NotesAreToldApart(name: Text, s: Subject)
    requires s.ParkSubject? || s.RemoveSubject?
    ensures NoteOf(name, SubjectText(name, s)) == Some(s)
  {
    var t := SubjectText(name, s);
    if s.ParkSubject? {
      assert t[|Prefix(name, STATE + PARK)|..] == s.inst;
    } else {
      assert (STATE + PARK)[8] == 112 && (STATE + REMOVE)[8] == 114;
      PrefixesDiffer(name, STATE + PARK, STATE + REMOVE, s.inst, 8);
      assert t[|Prefix(name, STATE + REMOVE)|..] == s.inst;
    }
  }

  lemma PrefixesDiffer(name: Text, w: Text, v: Text, rest: Text, k: nat)
    requires k < |w| && k < |v| && w[k] != v[k]
    ensures !(Prefix(name, w) <= Prefix(name, v) + rest)
  {
    var at := 5 + |name| + k;
    assert Prefix(name, w)[at] == w[k] && (Prefix(name, v) + rest)[at] == v[k];
  }

  // Every subject is recognised for what it is, for any workflow name and any
  // instance id.
  lemma SubjectsAreToldApart(name: Text, s: Subject)
    ensures ControlOf(name, SubjectText(name, s))
            == if s.ResumeSubject? || s.TimeoutSubject? || s.CancelSubject? then Some(s) else None
  {
    var t := SubjectText(name, s);
    match s
    case ResumeSubject(inst) => assert t[|Prefix(name, RESUME)|..] == inst;
    case TimeoutSubject(inst) =>
      PrefixesDiffer(name, RESUME, TIMEOUT, inst, 0);
      assert t[|Prefix(name, TIMEOUT)|..] == inst;
    case CancelSubject(inst) =>
      PrefixesDiffer(name, RESUME, CANCEL, inst, 0);
      PrefixesDiffer(name, TIMEOUT, CANCEL, inst, 0);
      assert t[|Prefix(name, CANCEL)|..] == inst;
    case StepSubject(step) => NoControl(name, STEP, Dec(step), 0);
    case UndoSubject(step) => NoControl(name, UNDO, Dec(step), 1);
    case DeadSubject(step) => NoControl(name, DLQ, Dec(step), 0);
    case ParkSubject(inst) => NoControl(name, STATE + PARK, inst, 0);
    case RemoveSubject(inst) => NoControl(name, STATE + REMOVE, inst, 0);
  }

  lemma NoControl(name: Text, w: Text, rest: Text, k: nat)
    requires |w| >= 2 && k <= 1 && w[0] != RESUME[0] && w[0] != TIMEOUT[0] && w[k] != CANCEL[k]
    ensures ControlOf(name, Prefix(name, w) + rest) == None
  {
    PrefixesDiffer(name, RESUME, w, rest, 0);
    PrefixesDiffer(name, TIMEOUT, w, rest, 0);
    PrefixesDiffer(name, CANCEL, w, rest, k);
  }

  // ---- Task payloads ----

  datatype Task = Task(inst: Text, step: U16, attempt: U8, ctx: Text)

  // The length field is 16 bits wide: a longer instance id overflows it.
  function EncodeTask(t: Task): Text {
    LE(|t.inst|, 2) + t.inst + LE(t.step, 2) + [t.attempt] + t.ctx
  }

  function DecodeTask(p: Text): Option<Task> {
    if |p| < 5 then None
    else
      var n := U16At(p, 0);
      if |p| < n + 5 then None
      else Some(Task(p[2..2 + n], U16At(p, 2 + n), p[4 + n], p[5 + n..]))
  }

  lemma EncodedTaskParts(t: Task)
    ensures var p := EncodeTask(t); var n := |t.inst|;
            && |p| == n + 5 + |t.ctx| && U16At(p, 0) == n % 0x1_0000
            && p[2..2 + n] == t.inst && U16At(p, 2 + n) == t.step && p[4 + n] == t.attempt && p[5 + n..] == t.ctx
  {
    var p, n := EncodeTask(t), |t.inst|;
    assert p[0..2] == LE(n, 2);
    assert p[2 + n..4 + n] == LE(t.step, 2);
    U16Field(p, 2 + n, t.step);
    FromLEOfLE(n, 2);
    Pow256Values();
  }

  // A task reads back as written exactly when its instance id fits the field.
  lemma TaskReadsBackIff(t: Task)
    ensures DecodeTask(EncodeTask(t)) == Some(t) <==> |t.inst| < 0x1_0000
  {
    EncodedTaskParts(t);
    assert DecodeTask(EncodeTask(t)).Some? ==> |DecodeTask(EncodeTask(t)).value.inst| < 0x1_0000;
  }

  // Whatever payload is accepted is the encoding of the task it was read as.
  lemma DecodedTaskIsEncoded(p: Text)
    requires DecodeTask(p).Some?
    ensures EncodeTask(DecodeTask(p).value) == p
  {
    var t := DecodeTask(p).value;
    var n: nat := U16At(p, 0);
    U16Field(p, 0, n);
    U16Field(p, 2 + n, t.step);
    assert p[2 + n..] == p[2 + n..4 + n] + ([p[4 + n]] + p[5 + n..]);
    assert p == p[0..2] + p[2..2 + n] + p[2 + n..];
  }

  // An id one past the limit is read as the empty id, with the task's own id
  // bytes taken for its step and attempt.
  lemma LongIdReadsAsAnother(t: Task)
    requires |t.inst| == 0x1_0000
    ensures DecodeTask(EncodeTask(t)).Some? && DecodeTask(EncodeTask(t)).value.inst == []
    ensures DecodeTask(EncodeTask(t)).value.attempt == t.inst[2]
  {
    EncodedTaskParts(t);
    var p := EncodeTask(t);
    assert p[4] == p[2..2 + |t.inst|][2];
  }

  // ---- Park payloads ----

  datatype Parked = Parked(step: U16, state: Text, ctx: Text)

  function EncodePark(e: Parked): Text {
    LE(e.step, 2) + LE(|e.state|, 4) + e.state + e.ctx
  }

  function DecodePark(p: Text): Option<Parked> {
    if |p| < 6 then None
    else
      var n := U32At(p, 2);
      if |p| < n + 6 then None else Some(Parked(U16At(p, 0), p[6..6 + n], p[6 + n..]))
  }

  lemma EncodedParkParts(e: Parked)
    ensures var p := EncodePark(e);
            && |p| == 6 + |e.state| + |e.ctx| && U16At(p, 0) == e.step && U32At(p, 2) == |e.state| % 0x1_0000_0000
            && p[6..] == e.state + e.ctx
  {
    var p := EncodePark(e);
    assert p[0..2] == LE(e.step, 2) && p[2..6] == LE(|e.state|, 4);
    U16Field(p, 0, e.step);
    FromLEOfLE(|e.state|, 4);
    Pow256Values();
  }

  lemma ParkReadsBackIff(e: Parked)
    ensures DecodePark(EncodePark(e)) == Some(e) <==> |e.state| < 0x1_0000_0000
    ensures DecodePark(EncodePark(e)).Some? && DecodePark(EncodePark(e)).value.step == e.step
  {
    EncodedParkParts(e);
    var p, n := EncodePark(e), |e.state| % 0x1_0000_0000;
    assert p[6..6 + n] == p[6..][..n] && p[6 + n..] == p[6..][n..];
    if n != |e.state| {
      assert |DecodePark(p).value.state| != |e.state|;
    }
  }

  lemma DecodedParkIsEncoded(p: Text)
    requires DecodePark(p).Some?
    ensures EncodePark(DecodePark(p).value) == p
  {
    var e := DecodePark(p).value;
    var n := U32At(p, 2);
    U16Field(p, 0, e.step);
    U32Field(p, 2, n);
    assert p == p[0..2] + p[2..6] + p[6..6 + n] + p[6 + n..];
  }
}
