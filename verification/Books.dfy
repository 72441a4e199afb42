// What a store has written, and what each of its slots owes to it.
module Books {
  import opened Bytes
  import opened Format
  import opened Replay
  import opened Sorting
  import opened Compaction
  import opened SlotModel

  // ---- Keys ----

  function SlotKey(stream: Name, consumer: Name): Name {
    stream + [0] + consumer
  }

  // Two pairs of names share a key only if a stream name holds a NUL byte.
  lemma KeysAreDistinct(s1: Name, c1: Name, s2: Name, c2: Name)
    requires 0 !in s1 && 0 !in s2 && SlotKey(s1, c1) == SlotKey(s2, c2)
    ensures s1 == s2 && c1 == c2
  {
    var k := SlotKey(s1, c1);
    assert k[|s1|] == 0 && k[|s2|] == 0;
    assert forall i :: 0 <= i < |s1| ==> k[i] == s1[i] && s1[i] in s1;
    assert forall i :: 0 <= i < |s2| ==> k[i] == s2[i] && s2[i] in s2;
    assert k[..|s1|] == s1 && k[..|s2|] == s2;
    assert k[|s1| + 1..] == c1 && k[|s2| + 1..] == c2;
  }

  // A pair has its key to itself exactly when neither name holds a NUL byte.
  lemma KeyIsSharedIff(s: Name, c: Name)
    ensures 0 in s || 0 in c
            <==> exists s2: Name, c2: Name :: (s2 != s || c2 != c) && SlotKey(s2, c2) == SlotKey(s, c)
  {
    var k := SlotKey(s, c);
    if i :| 0 <= i < |s| && s[i] == 0 {
      assert SlotKey(s[..i], s[i + 1..] + [0] + c) == k;
      assert s[..i] != s;
    } else if i :| 0 <= i < |c| && c[i] == 0 {
      assert SlotKey(s + [0] + c[..i], c[i + 1..]) == k;
      assert |s + [0] + c[..i]| > |s|;
    } else {
      forall s2: Name, c2: Name
        ensures SlotKey(s2, c2) == k ==> s2 == s && c2 == c
      {
        OnlyNul(s, c, s2, c2);
      }
    }
  }

  lemma OnlyNul(s: Name, c: Name, s2: Name, c2: Name)
    requires 0 !in s && 0 !in c
    ensures SlotKey(s2, c2) == SlotKey(s, c) ==> s2 == s && c2 == c
  {
    var k, k2 := SlotKey(s, c), SlotKey(s2, c2);
    assert forall i :: 0 <= i < |k| && i != |s| ==> k[i] != 0;
    assert k2[|s2|] == 0;
    assert k[..|s|] == s && k[|s| + 1..] == c && k2[..|s2|] == s2 && k2[|s2| + 1..] == c2;
  }

  // ---- Records of one slot do not touch another ----

  lemma {:induction false} ForeignRecords(v: SlotView, rs: seq<Rec>, id: U32, cutoff: I64)
    requires forall i :: 0 <= i < |rs| ==> rs[i].slot != id
    ensures SlotFrom(v, rs, id, cutoff) == v
  {
    if rs != [] {
      ForeignRecords(v, rs[..|rs| - 1], id, cutoff);
    }
  }

  lemma {:induction false} ExpiresOwn(id: U32, order: seq<Expiry>)
    ensures forall i :: 0 <= i < |Expires(id, order)| ==>
              var r := Expires(id, order)[i]; r.SeqOp? && r.op == Expire && r.slot == id
  {
    if order != [] {
      ExpiresOwn(id, order[..|order| - 1]);
    }
  }

  lemma AppendsOwn(s: Slot, op: SlotOp, id: U32)
    ensures forall i :: 0 <= i < |Appends(s, op, id)| ==>
              var r := Appends(s, op, id)[i];
              r.slot == id && !r.Register? && (r.Tombstone? ==> op.OpDelete?)
  {
    if op.OpSweep? {
      ExpiresOwn(id, op.order);
    }
  }

  lemma AppendsKeepName(s: Slot, op: SlotOp, id: U32, log: seq<Rec>)
    requires !op.OpDelete?
    ensures SlotOf(log + Appends(s, op, id), id, 0).name == SlotOf(log, id, 0).name
  {
    AppendsOwn(s, op, id);
    SlotFromAppend(NO_SLOT, log, Appends(s, op, id), id, 0);
    NameUntouched(SlotOf(log, id, 0), Appends(s, op, id), id);
  }

  lemma {:induction false} NameUntouched(v: SlotView, rs: seq<Rec>, id: U32)
    requires forall i :: 0 <= i < |rs| ==> !rs[i].Register? && !rs[i].Tombstone?
    ensures SlotFrom(v, rs, id, 0).name == v.name
  {
    if rs != [] {
      NameUntouched(v, rs[..|rs| - 1], id);
    }
  }

  lemma AppendsLeaveOthers(s: Slot, op: SlotOp, id: U32, log: seq<Rec>, other: U32)
    requires other != id
    ensures SameView(log, log + Appends(s, op, id), other)
  {
    AppendsOwn(s, op, id);
    forall cutoff: I64
      ensures SlotOf(log + Appends(s, op, id), other, cutoff) == SlotOf(log, other, cutoff)
    {
      SlotFromAppend(NO_SLOT, log, Appends(s, op, id), other, cutoff);
      ForeignRecords(SlotOf(log, other, cutoff), Appends(s, op, id), other, cutoff);
    }
  }

  // The two logs say the same of a slot, with any cutoff.
  ghost predicate SameView(a: seq<Rec>, b: seq<Rec>, id: U32) {
    forall cutoff: I64 :: SlotOf(b, id, cutoff) == SlotOf(a, id, cutoff)
  }

  // No record names a slot from `next` on.
  ghost predicate Unused(log: seq<Rec>, next: U32) {
    forall id: U32 :: id >= next ==> NoTrace(log, id)
  }

  ghost predicate NoTrace(log: seq<Rec>, id: U32) {
    SlotOf(log, id, 0) == NO_SLOT
  }

  function Later(a: int, b: int): int {
    if a < b then b else a
  }

  // ---- The book ----

  // `log` is the list of records in the file. Of slots in `loose` the log may
  // remember more than memory does, since an eviction dropped a live seq or a
  // cutoff an old one; of slots in `unnamed` compaction dropped the Register;
  // a slot's entry in `floors` is the date before which a compaction may have
  // dropped seqs that memory holds, its entry in `limits` the latest cutoff
  // that a reopen may apply without dropping seqs younger than it. `pristine`
  // says that no record names an id not yet given out.
  datatype Book = Book(log: seq<Rec>, closed: bool, loose: set<U32>, unnamed: set<U32>, floors: map<U32, int>,
                       limits: map<U32, int>, pristine: bool)

  function Floor(b: Book, id: U32): int {
    if id in b.floors then b.floors[id] else BEGINNING
  }

  function Limit(b: Book, id: U32): int {
    if id in b.limits then b.limits[id] else NEVER
  }

  ghost predicate SlotOk(id: U32, nm: Names, v: Slot, b: Book) {
    Covered(v) && (b.closed || Logged(id, nm, v, b))
  }

  // What the log has of a slot agrees with its state in memory.
  ghost predicate Logged(id: U32, nm: Names, v: Slot, b: Book) {
    && (forall cutoff: I64 :: HoldsAt(id, v, b, cutoff))
    && (id !in b.loose ==> Exact(v, SlotOf(b.log, id, 0)))
    && (!v.tombed && id !in b.unnamed ==> SlotOf(b.log, id, 0).name == Some(nm))
  }

  ghost predicate HoldsAt(id: U32, v: Slot, b: Book, cutoff: I64) {
    Holds(v, SlotOf(b.log, id, cutoff), Floor(b, id), Limit(b, id), cutoff)
  }

  ghost predicate BookOk(b: Book, next: U32) {
    b.pristine ==> Unused(b.log, next)
  }

  datatype Entry =
    | OfSlot(id: U32, nm: Names, v: Slot, b: Book)
    | OfBook(b: Book, next: U32)

  ghost predicate EntryOk(e: Entry) {
    match e
    case OfSlot(id, nm, v, b) => SlotOk(id, nm, v, b)
    case OfBook(b, next) => BookOk(b, next)
  }

  ghost predicate Means(t: iset<Entry>, e: Entry) {
    e in t <==> EntryOk(e)
  }

  ghost predicate IsAgreement(t: iset<Entry>) {
    forall e :: Means(t, e)
  }

  // SlotOk and BookOk as a set, so that methods carry them from state to state
  // without looking into them.
  ghost function Agreement(): (t: iset<Entry>)
    ensures IsAgreement(t)
  {
    AgreementExists();
    var t :| IsAgreement(t);
    t
  }

  lemma AgreementExists()
    ensures exists t :: IsAgreement(t)
  {
    var t := iset e: Entry | EntryOk(e);
    assert IsAgreement(t);
  }

  ghost predicate Agrees(id: U32, nm: Names, v: Slot, b: Book) {
    OfSlot(id, nm, v, b) in Agreement()
  }

  ghost predicate Sound(b: Book, next: U32) {
    OfBook(b, next) in Agreement()
  }

  lemma AgreesIsOk(id: U32, nm: Names, v: Slot, b: Book)
    ensures Agrees(id, nm, v, b) <==> SlotOk(id, nm, v, b)
  {
    assert Means(Agreement(), OfSlot(id, nm, v, b));
  }

  lemma SoundIsOk(b: Book, next: U32)
    ensures Sound(b, next) <==> BookOk(b, next)
  {
    assert Means(Agreement(), OfBook(b, next));
  }

  // ---- Steps of a slot ----

  // A closed log takes nothing more.
  ghost function Written(b: Book, rs: seq<Rec>): Book {
    if b.closed then b else b.(log := b.log + rs)
  }

  lemma WrittenTwice(b: Book, xs: seq<Rec>, ys: seq<Rec>)
    ensures Written(Written(b, xs), ys) == Written(b, xs + ys)
  {
    assert b.log + xs + ys == b.log + (xs + ys);
  }

  lemma WrittenNothing(b: Book)
    ensures Written(b, []) == b
  {
    assert b.log + [] == b.log;
  }

  ghost function LooseAfter(was: set<U32>, id: U32, v: Slot, op: SlotOp, cap: nat): set<U32> {
    if ExactAfter(v, op, cap, id !in was) then was - {id} else was + {id}
  }

  function FloorsAfter(was: map<U32, int>, id: U32, v: Slot, op: SlotOp): map<U32, int> {
    if Refreshes(v, op) then was - {id} else was
  }

  ghost function LimitsAfter(was: map<U32, int>, id: U32, v: Slot, op: SlotOp): map<U32, int> {
    if !Refreshes(v, op) then was
    else if op.OpSnapshot? && Ahead(v, op.now) then was[id := op.now]
    else was - {id}
  }

  ghost function Noted(b: Book, id: U32, v: Slot, op: SlotOp, cap: nat): Book {
    if b.closed then b
    else b.(loose := LooseAfter(b.loose, id, v, op, cap), floors := FloorsAfter(b.floors, id, v, op),
            limits := LimitsAfter(b.limits, id, v, op))
  }

  // The book after a slot in state `v` has taken a step and written of it.
  ghost function BookAfter(b: Book, id: U32, v: Slot, op: SlotOp, cap: nat): Book {
    Noted(Written(b, Appends(v, op, id)), id, v, op, cap)
  }

  lemma BookAfterFlags(b: Book, id: U32, v: Slot, op: SlotOp, cap: nat)
    requires !b.closed
    ensures var b' := BookAfter(b, id, v, op, cap);
            && b'.log == b.log + Appends(v, op, id) && b'.loose == LooseAfter(b.loose, id, v, op, cap)
            && b'.floors == FloorsAfter(b.floors, id, v, op) && b'.limits == LimitsAfter(b.limits, id, v, op)
            && Floor(b', id) == FloorAfter(v, op, Floor(b, id)) && Limit(b', id) == LimitAfter(v, op, Limit(b, id))
            && b'.unnamed == b.unnamed && b'.closed == b.closed && b'.pristine == b.pristine
  {
  }

  lemma AppendsKeepHeld(id: U32, v: Slot, op: SlotOp, cap: nat, b: Book, cutoff: I64)
    requires HoldsAt(id, v, b, cutoff) && Allowed(v, op) && !b.closed
    ensures HoldsAt(id, Apply(v, op, cap), BookAfter(b, id, v, op, cap), cutoff)
  {
    BookAfterFlags(b, id, v, op, cap);
    SlotFromAppend(NO_SLOT, b.log, Appends(v, op, id), id, cutoff);
    StepStaysHeld(v, SlotOf(b.log, id, cutoff), op, cap, id, Floor(b, id), Limit(b, id), cutoff);
  }

  lemma AppendsKeepExact(id: U32, v: Slot, op: SlotOp, cap: nat, b: Book)
    requires (id !in b.loose ==> Exact(v, SlotOf(b.log, id, 0))) && Allowed(v, op) && !b.closed
    ensures var b' := BookAfter(b, id, v, op, cap);
            id !in b'.loose ==> Exact(Apply(v, op, cap), SlotOf(b'.log, id, 0))
  {
    BookAfterFlags(b, id, v, op, cap);
    SlotFromAppend(NO_SLOT, b.log, Appends(v, op, id), id, 0);
    StepStaysExact(v, SlotOf(b.log, id, 0), op, cap, id, id !in b.loose);
  }

  lemma AppendsKeepNamed(id: U32, nm: Names, v: Slot, op: SlotOp, cap: nat, log: seq<Rec>)
    ensures !op.OpDelete? ==> SlotOf(log + Appends(v, op, id), id, 0).name == SlotOf(log, id, 0).name
    ensures Apply(v, op, cap).tombed <==> v.tombed || op.OpDelete?
  {
    if !op.OpDelete? {
      AppendsKeepName(v, op, id, log);
    }
    if op.OpConfirmTo? {
      DropKeysLive(v, AtMost(v, op.n));
    } else if op.OpSweep? {
      DropKeysLive(v, OlderThan(v, op.cutoff));
    }
  }

  lemma StepKeepsSlot(id: U32, nm: Names, v: Slot, op: SlotOp, cap: nat, b: Book)
    requires Agrees(id, nm, v, b) && Allowed(v, op)
    ensures Agrees(id, nm, Apply(v, op, cap), BookAfter(b, id, v, op, cap))
  {
    AgreesIsOk(id, nm, v, b);
    AgreesIsOk(id, nm, Apply(v, op, cap), BookAfter(b, id, v, op, cap));
    ApplyCovered(v, op, cap);
    if !b.closed {
      forall cutoff: I64
        ensures HoldsAt(id, Apply(v, op, cap), BookAfter(b, id, v, op, cap), cutoff)
      {
        AppendsKeepHeld(id, v, op, cap, b, cutoff);
      }
      AppendsKeepExact(id, v, op, cap, b);
      AppendsKeepNamed(id, nm, v, op, cap, b.log);
      BookAfterFlags(b, id, v, op, cap);
    }
  }

  // Nothing that concerns this slot differs between the books.
  ghost predicate SameFor(id: U32, b: Book, b': Book) {
    && b'.closed == b.closed && SameView(b.log, b'.log, id)
    && (id in b'.loose <==> id in b.loose) && (id in b'.unnamed <==> id in b.unnamed)
    && Floor(b', id) == Floor(b, id) && Limit(b', id) == Limit(b, id)
  }

  lemma SameForAgrees(id: U32, nm: Names, v: Slot, b: Book, b': Book)
    requires Agrees(id, nm, v, b) && SameFor(id, b, b')
    ensures Agrees(id, nm, v, b')
  {
    AgreesIsOk(id, nm, v, b);
    AgreesIsOk(id, nm, v, b');
    if !b.closed {
      forall cutoff: I64
        ensures HoldsAt(id, v, b', cutoff)
      {
        assert HoldsAt(id, v, b, cutoff);
      }
    }
  }

  lemma StepIsSameForOther(id: U32, stepper: U32, w: Slot, op: SlotOp, cap: nat, b: Book)
    requires id != stepper
    ensures SameFor(id, b, BookAfter(b, stepper, w, op, cap))
  {
    var rs := Appends(w, op, stepper);
    AppendsLeaveOthers(w, op, stepper, b.log, id);
    WriteIsSame(id, b, rs);
    NoteIsSame(id, Written(b, rs), stepper, w, op, cap);
  }

  lemma WriteIsSame(id: U32, b: Book, rs: seq<Rec>)
    requires SameView(b.log, b.log + rs, id)
    ensures SameFor(id, b, Written(b, rs))
  {
  }

  lemma NoteIsSame(id: U32, b: Book, stepper: U32, w: Slot, op: SlotOp, cap: nat)
    requires id != stepper
    ensures SameFor(id, b, Noted(b, stepper, w, op, cap))
  {
  }

  lemma StepKeepsOther(id: U32, nm: Names, v: Slot, stepper: U32, w: Slot, op: SlotOp, cap: nat, b: Book)
    requires Agrees(id, nm, v, b) && id != stepper
    ensures Agrees(id, nm, v, BookAfter(b, stepper, w, op, cap))
  {
    StepIsSameForOther(id, stepper, w, op, cap, b);
    SameForAgrees(id, nm, v, b, BookAfter(b, stepper, w, op, cap));
  }

  lemma StepKeepsSound(stepper: U32, w: Slot, op: SlotOp, cap: nat, b: Book, next: U32)
    requires Sound(b, next) && stepper < next
    ensures Sound(BookAfter(b, stepper, w, op, cap), next)
  {
    var b' := BookAfter(b, stepper, w, op, cap);
    SoundIsOk(b, next);
    SoundIsOk(b', next);
    if b'.pristine {
      forall id: U32 | id >= next
        ensures NoTrace(b'.log, id)
      {
        assert NoTrace(b.log, id);
        AppendsLeaveOthers(w, op, stepper, b.log, id);
      }
    }
  }

  // Nothing but the log and the flags of slots has changed.
  ghost predicate SameButLog(b: Book, b': Book) {
    b'.unnamed == b.unnamed && b.log <= b'.log && b'.closed == b.closed && b'.pristine == b.pristine
  }

  // The log has of the slot just what memory has.
  ghost predicate Whole(b: Book, id: U32) {
    id !in b.loose && id !in b.floors
  }

  // Nothing is known less of any slot.
  ghost predicate NoLess(b: Book, b': Book) {
    && SameButLog(b, b') && b'.loose <= b.loose && (b.closed ==> b' == b)
    && forall id: U32 :: FloorKept(b, b', id)
  }

  predicate FloorKept(b: Book, b': Book, id: U32) {
    id in b'.floors ==> id in b.floors && b'.floors[id] == b.floors[id]
  }

  lemma NoLessTwice(a: Book, b: Book, c: Book)
    requires NoLess(a, b) && NoLess(b, c)
    ensures NoLess(a, c)
  {
    forall id: U32
      ensures FloorKept(a, c, id)
    {
      assert FloorKept(a, b, id) && FloorKept(b, c, id);
    }
  }

  // After a snapshot of a slot that is not empty, the log has of it exactly
  // what memory has.
  lemma SnapshotRefreshes(b: Book, id: U32, v: Slot, now: I64, cap: nat)
    ensures var b' := BookAfter(b, id, v, OpSnapshot(now), cap);
            NoLess(b, b') && (!b.closed && v.live != map[] ==> Whole(b', id))
  {
  }

  lemma SweepKeepsFlags(b: Book, id: U32, v: Slot, cutoff: I64, order: seq<Expiry>, cap: nat)
    ensures var b' := BookAfter(b, id, v, OpSweep(cutoff, order), cap);
            && SameButLog(b, b') && b'.loose == b.loose && b'.floors == b.floors && b'.limits == b.limits
            && (b.closed ==> b' == b)
  {
  }

  // Only an eviction makes the log remember more of a slot than memory does.
  lemma GoesLooseIff(b: Book, id: U32, v: Slot, op: SlotOp, cap: nat)
    requires !b.closed && id !in b.loose
    ensures id in BookAfter(b, id, v, op, cap).loose
            <==> op.OpCheck? && !v.tombed && op.n !in v.live && EvictsLive(v, op.n, cap)
  {
    BookAfterFlags(b, id, v, op, cap);
    if op.OpCheck? {
      assert op.n in v.live ==> v.live.Keys + {op.n} == v.live.Keys;
      InsertKeepsIff(v, op.n, op.now, cap);
    }
  }

  // Only a snapshot dated before one of the slot's seqs limits the cutoffs it
  // can be reopened with.
  lemma IsLimitedIff(b: Book, id: U32, v: Slot, op: SlotOp, cap: nat)
    requires !b.closed && id !in b.limits
    ensures id in BookAfter(b, id, v, op, cap).limits <==> op.OpSnapshot? && Ahead(v, op.now)
  {
    if op.OpSnapshot? && Ahead(v, op.now) {
      assert v.live != map[];
    }
  }

  // A slot's steps cost nothing else of what is known.
  lemma StepNeverFades(b: Book, id: U32, v: Slot, op: SlotOp, cap: nat)
    ensures var b' := BookAfter(b, id, v, op, cap);
            && SameButLog(b, b') && b'.loose - {id} == b.loose - {id} && b'.limits - {id} == b.limits - {id}
            && b'.floors == if !b.closed && Refreshes(v, op) then b.floors - {id} else b.floors
  {
    OthersKeepFlags(b, id, v, op, cap);
    if !b.closed {
      BookAfterFlags(b, id, v, op, cap);
    }
  }

  lemma OthersKeepFlags(b: Book, id: U32, v: Slot, op: SlotOp, cap: nat)
    ensures LooseAfter(b.loose, id, v, op, cap) - {id} == b.loose - {id}
    ensures LimitsAfter(b.limits, id, v, op) - {id} == b.limits - {id}
  {
  }

  // ---- Entering a new slot ----

  // A slot entered under an id that records already name inherits their seqs.
  ghost function BookEntered(b: Book, reg: Rec): Book {
    if b.closed then b
    else
      Written(b, [reg]).(
        loose := if SlotOf(b.log, reg.slot, 0).live == map[] then b.loose - {reg.slot} else b.loose + {reg.slot},
        unnamed := b.unnamed - {reg.slot}, floors := b.floors - {reg.slot}, limits := b.limits - {reg.slot})
  }

  lemma EnterKeepsOther(id: U32, nm: Names, v: Slot, reg: Rec, b: Book)
    requires Agrees(id, nm, v, b) && id != reg.slot
    ensures Agrees(id, nm, v, BookEntered(b, reg))
  {
    RegisterIsSame(b.log, reg, id);
    SameForAgrees(id, nm, v, b, BookEntered(b, reg));
  }

  lemma RegisterIsSame(log: seq<Rec>, reg: Rec, id: U32)
    requires id != reg.slot
    ensures SameView(log, log + [reg], id)
  {
    forall cutoff: I64
      ensures SlotOf(log + [reg], id, cutoff) == SlotOf(log, id, cutoff)
    {
      SlotOfSnoc(log, reg, id, cutoff);
    }
  }

  lemma EnteredAgrees(reg: Rec, b: Book)
    requires reg.Register?
    ensures Agrees(reg.slot, Names(reg.stream, reg.consumer), NEW_SLOT, BookEntered(b, reg))
  {
    AgreesIsOk(reg.slot, Names(reg.stream, reg.consumer), NEW_SLOT, BookEntered(b, reg));
    SlotOfSnoc(b.log, reg, reg.slot, 0);
  }

  lemma EnterKeepsSound(b: Book, reg: Rec, next: U32)
    requires Sound(b, next) && reg.slot == next < 0xFFFF_FFFF
    ensures Sound(BookEntered(b, reg), next + 1)
    ensures b.pristine && !b.closed ==> reg.slot !in BookEntered(b, reg).loose
  {
    var b' := BookEntered(b, reg);
    SoundIsOk(b, next);
    SoundIsOk(b', next + 1);
    if b.pristine {
      assert NoTrace(b.log, next);
      forall id: U32 | id >= next + 1
        ensures NoTrace(b'.log, id)
      {
        assert NoTrace(b.log, id);
        SlotOfSnoc(b.log, reg, id, 0);
      }
    }
  }

  lemma ClosedAgrees(id: U32, nm: Names, v: Slot, b: Book)
    requires Agrees(id, nm, v, b)
    ensures Agrees(id, nm, v, b.(closed := true))
  {
    AgreesIsOk(id, nm, v, b);
    AgreesIsOk(id, nm, v, b.(closed := true));
  }

  lemma ClosedSound(b: Book, next: U32)
    requires Sound(b, next)
    ensures Sound(b.(closed := true), next)
  {
    SoundIsOk(b, next);
    SoundIsOk(b.(closed := true), next);
  }

  // ---- Compacting the book ----

  // Read with a later cutoff that is not past it, the compacted log keeps of
  // the slot what was live in `rs`, and its name if anything was, dated `now`.
  ghost predicate SlotCompacted(log: seq<Rec>, rs: seq<Rec>, id: U32, cutoff: I64, now: I64, later: I64) {
    !Expired(AsU64(now), later) ==> SlotOf(log, id, later) == AfterCompaction(SlotOf(rs, id, cutoff), AsU64(now))
  }

  ghost predicate Compacts(log: seq<Rec>, rs: seq<Rec>, cutoff: I64, now: I64) {
    forall id: U32, later: I64 :: SlotCompacted(log, rs, id, cutoff, now, later)
  }

  lemma CompactLogCompacts(rs: seq<Rec>, cutoff: I64, now: I64)
    ensures Compacts(CompactLog(rs, cutoff, AsU64(now)), rs, cutoff, now)
  {
    forall id: U32, later: I64
      ensures SlotCompacted(CompactLog(rs, cutoff, AsU64(now)), rs, id, cutoff, now, later)
    {
      if !Expired(AsU64(now), later) {
        CompactLogMeaning(rs, id, cutoff, AsU64(now), later);
      }
    }
  }

  // How far back the compacted log still has what memory holds of a slot: a
  // cutoff drops what is dated before it. Nothing is promised if the old log
  // could not be read to its end, or if the cutoff was past the slot's limit.
  ghost function FloorCompacted(b: Book, id: U32, cutoff: I64): int {
    if !AllStorable(b.log) then NEVER
    else if cutoff <= 0 then Floor(b, id)
    else if cutoff <= Limit(b, id) then Later(Floor(b, id), cutoff)
    else NEVER
  }

  // The floors of these slots after compaction, the others' unchanged.
  ghost function Raised(b: Book, ids: seq<U32>, cutoff: I64): map<U32, int> {
    if ids == [] then b.floors
    else Raised(b, ids[..|ids| - 1], cutoff)[ids[|ids| - 1] := FloorCompacted(b, ids[|ids| - 1], cutoff)]
  }

  lemma {:induction false} RaisedAt(b: Book, ids: seq<U32>, cutoff: I64, id: U32)
    requires id in ids
    ensures id in Raised(b, ids, cutoff) && Raised(b, ids, cutoff)[id] == FloorCompacted(b, id, cutoff)
  {
    if id != ids[|ids| - 1] {
      RaisedAt(b, ids[..|ids| - 1], cutoff, id);
    }
  }

  // Each of these ids with this limit.
  function LimitedTo(ids: seq<U32>, now: int): (m: map<U32, int>)
    ensures forall id :: id in m <==> id in ids
    ensures forall id :: id in m ==> m[id] == now
  {
    if ids == [] then map[] else LimitedTo(ids[..|ids| - 1], now)[ids[|ids| - 1] := now]
  }

  // The book after compaction into `log`, where `gone` are the slots whose
  // Register is not written again, `ahead` those with a seq dated later than
  // `now`, and `all` the ids given out.
  ghost function BookCompacted(b: Book, log: seq<Rec>, cutoff: I64, now: I64, gone: set<U32>, ahead: set<U32>,
                               all: set<U32>): Book {
    var whole := AllStorable(b.log);
    Book(log, b.closed, if whole then b.loose else b.loose + all, b.unnamed + gone, Raised(b, Asc32(all), cutoff),
         LimitedTo(Asc32(ahead), now), b.pristine && whole)
  }

  lemma {:induction false} NoCutoff(v: SlotView, rs: seq<Rec>, id: U32, cutoff: I64)
    requires cutoff <= 0
    ensures SlotFrom(v, rs, id, cutoff) == SlotFrom(v, rs, id, 0)
  {
    if rs != [] {
      NoCutoff(v, rs[..|rs| - 1], id, cutoff);
    }
  }

  lemma CompactedFlags(b: Book, log: seq<Rec>, cutoff: I64, now: I64, gone: set<U32>, ahead: set<U32>, all: set<U32>,
                       id: U32)
    requires id in all
    ensures var b' := BookCompacted(b, log, cutoff, now, gone, ahead, all);
            && Floor(b', id) == FloorCompacted(b, id, cutoff) && Limit(b', id) == (if id in ahead then now else NEVER)
  {
    assert id in Asc32(all) <==> id in all;
    RaisedAt(b, Asc32(all), cutoff, id);
    assert id in Asc32(ahead) <==> id in ahead;
  }

  // What the compacted log owes memory it has.
  lemma CompactedHolds(v: Slot, b: Book, log: seq<Rec>, id: U32, rs: seq<Rec>, cutoff: I64, now: I64, later: I64)
    requires HoldsAt(id, v, b, cutoff) && HoldsAt(id, v, b, 0) && (AllStorable(b.log) ==> rs == b.log)
    requires SlotCompacted(log, rs, id, cutoff, now, later)
    ensures Holds(v, SlotOf(log, id, later), FloorCompacted(b, id, cutoff), if Ahead(v, now) then now else NEVER, later)
  {
    AfterCompactionKeys(SlotOf(rs, id, cutoff), AsU64(now));
    if cutoff <= 0 {
      NoCutoff(NO_SLOT, rs, id, cutoff);
    }
  }

  lemma CompactedExact(v: Slot, b: Book, log: seq<Rec>, id: U32, rs: seq<Rec>, cutoff: I64, now: I64)
    requires AllStorable(b.log) && rs == b.log && SlotCompacted(log, rs, id, cutoff, now, 0)
    requires Exact(v, SlotOf(b.log, id, 0))
    ensures Exact(v, SlotOf(log, id, 0))
  {
    AfterCompactionKeys(SlotOf(rs, id, cutoff), AsU64(now));
    FilteredIsSubset(rs, id, cutoff);
  }

  // Compaction with any cutoff leaves a slot in agreement with the log.
  lemma CompactKeepsSlot(id: U32, nm: Names, v: Slot, b: Book, rs: seq<Rec>, log: seq<Rec>, cutoff: I64, now: I64,
                         gone: set<U32>, ahead: set<U32>, all: set<U32>)
    requires Agrees(id, nm, v, b) && (AllStorable(b.log) ==> rs == b.log) && Compacts(log, rs, cutoff, now) && id in all
    requires (id !in gone ==> Survives(rs, id, nm, cutoff)) && (id in ahead <==> Ahead(v, now))
    ensures Agrees(id, nm, v, BookCompacted(b, log, cutoff, now, gone, ahead, all))
  {
    var b' := BookCompacted(b, log, cutoff, now, gone, ahead, all);
    AgreesIsOk(id, nm, v, b);
    AgreesIsOk(id, nm, v, b');
    if !b.closed {
      CompactedFlags(b, log, cutoff, now, gone, ahead, all, id);
      assert HoldsAt(id, v, b, cutoff) && HoldsAt(id, v, b, 0);
      forall later: I64
        ensures HoldsAt(id, v, b', later)
      {
        assert SlotCompacted(log, rs, id, cutoff, now, later);
        CompactedHolds(v, b, log, id, rs, cutoff, now, later);
      }
      assert SlotCompacted(log, rs, id, cutoff, now, 0);
      if id !in b'.loose {
        CompactedExact(v, b, log, id, rs, cutoff, now);
      }
    }
  }

  // The slot's Register is written again by a compaction of `rs`.
  ghost predicate Survives(rs: seq<Rec>, id: U32, nm: Names, cutoff: I64) {
    SlotOf(rs, id, cutoff).live != map[] && SlotOf(rs, id, cutoff).name == Some(nm)
  }

  lemma CompactKeepsSound(b: Book, next: U32, rs: seq<Rec>, log: seq<Rec>, cutoff: I64, now: I64, gone: set<U32>,
                          ahead: set<U32>, all: set<U32>)
    requires Sound(b, next) && (AllStorable(b.log) ==> rs == b.log) && Compacts(log, rs, cutoff, now)
    ensures Sound(BookCompacted(b, log, cutoff, now, gone, ahead, all), next)
  {
    SoundIsOk(b, next);
    SoundIsOk(BookCompacted(b, log, cutoff, now, gone, ahead, all), next);
    if b.pristine && AllStorable(b.log) {
      forall id: U32 | id >= next
        ensures NoTrace(log, id)
      {
        assert NoTrace(rs, id);
        FilteredIsSubset(rs, id, cutoff);
        assert SlotOf(rs, id, cutoff).live.Keys == {};
        assert SlotCompacted(log, rs, id, cutoff, now, 0);
      }
    }
  }

  // ---- The size limit of a record ----

  lemma {:induction false} ExpiresStorable(id: U32, order: seq<Expiry>)
    ensures AllStorable(Expires(id, order))
  {
    if order != [] {
      ExpiresStorable(id, order[..|order| - 1]);
    }
  }

  lemma SnapshotStorableIff(v: Slot, id: U32, ts: U64)
    requires v.live != map[]
    ensures Storable(SnapshotRec(v, id, ts)) <==> |v.live| <= MAX_SNAPSHOT_SEQS
  {
    SnapshotLimit(SnapshotRec(v, id, ts));
    assert |v.live.Keys| == |v.live|;
  }

  // A step leaves the log readable to its end, unless it is the snapshot of a
  // slot that is too full for one record.
  lemma AppendsStorableIff(v: Slot, op: SlotOp, id: U32, log: seq<Rec>)
    requires AllStorable(log)
    ensures AllStorable(log + Appends(v, op, id)) <==> (op.OpSnapshot? ==> |v.live| <= MAX_SNAPSHOT_SEQS)
  {
    var rs := Appends(v, op, id);
    assert AllStorable(log + rs) <==> AllStorable(rs) by {
      assert forall i :: 0 <= i < |rs| ==> (log + rs)[|log| + i] == rs[i];
    }
    if op.OpSnapshot? && v.live != map[] {
      SnapshotStorableIff(v, id, AsU64(op.now));
      assert rs == [SnapshotRec(v, id, AsU64(op.now))] && rs[0] == SnapshotRec(v, id, AsU64(op.now));
    } else if op.OpSweep? {
      ExpiresStorable(id, op.order);
    }
  }

  lemma {:induction false} RecordedNamesFit(rs: seq<Rec>, id: U32, cutoff: I64)
    requires AllStorable(rs)
    ensures |NameOr(SlotOf(rs, id, cutoff)).stream| <= MAX_NAME && |NameOr(SlotOf(rs, id, cutoff)).consumer| <= MAX_NAME
  {
    if rs != [] {
      var k := |rs| - 1;
      assert forall i :: 0 <= i < k ==> rs[..k][i] == rs[i];
      RecordedNamesFit(rs[..k], id, cutoff);
      assert Storable(rs[k]);
    }
  }

  lemma CompactSlotStorableIff(id: U32, v: SlotView, now: U64)
    requires |NameOr(v).stream| <= MAX_NAME && |NameOr(v).consumer| <= MAX_NAME
    ensures AllStorable(CompactSlot(id, v, now)) <==> |v.live| <= MAX_SNAPSHOT_SEQS
  {
    if v.live != map[] {
      var part := CompactSlot(id, v, now);
      SnapshotLimit(part[1]);
      assert |v.live.Keys| == |v.live| && Storable(part[0]);
      assert AllStorable(part) <==> Storable(part[1]);
    }
  }

  ghost predicate FitsSnapshot(rs: seq<Rec>, id: U32, cutoff: I64) {
    |SlotOf(rs, id, cutoff).live| <= MAX_SNAPSHOT_SEQS
  }

  lemma {:induction false} CompactIdsStorableIff(rs: seq<Rec>, ids: seq<U32>, cutoff: I64, now: U64)
    requires AllStorable(rs)
    ensures AllStorable(CompactIds(FoldScan(rs, cutoff), ids, now))
            <==> AllFit(rs, ids, cutoff)
  {
    if ids != [] {
      var k := |ids| - 1;
      var acc := FoldScan(rs, cutoff);
      CompactIdsStorableIff(rs, ids[..k], cutoff, now);
      ScanMeaning(rs, ids[k], cutoff);
      RecordedNamesFit(rs, ids[k], cutoff);
      CompactSlotStorableIff(ids[k], ViewOf(acc, ids[k]), now);
      StorableAppend(CompactIds(acc, ids[..k], now), CompactSlot(ids[k], ViewOf(acc, ids[k]), now));
      AllFitSnoc(rs, ids[..k], ids[k], cutoff);
      assert ids == ids[..k] + [ids[k]];
    }
  }

  ghost predicate AllFit(rs: seq<Rec>, ids: seq<U32>, cutoff: I64) {
    forall i :: 0 <= i < |ids| ==> FitsSnapshot(rs, ids[i], cutoff)
  }

  lemma AllFitSnoc(rs: seq<Rec>, ids: seq<U32>, id: U32, cutoff: I64)
    ensures AllFit(rs, ids + [id], cutoff) <==> AllFit(rs, ids, cutoff) && FitsSnapshot(rs, id, cutoff)
  {
    var all := ids + [id];
    assert all[|ids|] == id && forall i :: 0 <= i < |ids| ==> all[i] == ids[i];
  }

  lemma StorableAppend(a: seq<Rec>, b: seq<Rec>)
    ensures AllStorable(a + b) <==> AllStorable(a) && AllStorable(b)
  {
    assert forall i :: 0 <= i < |a| ==> (a + b)[i] == a[i];
    assert forall i :: 0 <= i < |b| ==> (a + b)[|a| + i] == b[i];
  }

  // Compaction leaves a readable log readable exactly if no slot holds more
  // seqs than one snapshot record can.
  lemma CompactionStorableIff(rs: seq<Rec>, cutoff: I64, now: U64)
    requires AllStorable(rs)
    ensures AllStorable(CompactLog(rs, cutoff, now)) <==> forall id: U32 :: FitsSnapshot(rs, id, cutoff)
  {
    var acc := FoldScan(rs, cutoff);
    var ids := Asc32(acc.slots.Keys);
    CompactIdsStorableIff(rs, ids, cutoff, now);
    forall id: U32
      ensures id !in ids ==> FitsSnapshot(rs, id, cutoff)
    {
      ScanMeaning(rs, id, cutoff);
      assert id in ids <==> id in acc.slots.Keys;
    }
    forall id: U32 | id in ids
      ensures exists i :: 0 <= i < |ids| && ids[i] == id
    {
    }
  }
}
