// Opening a log file, and what a crash or a restart leaves of a store.
module Recovery {
  import opened Bytes
  import opened FrameLog
  import opened Format
  import opened Replay
  import opened LogFile
  import opened SlotModel
  import opened Books
  import opened Wal

  // ---- The book of a reopened log ----

  // The slot lost entries to the cutoff when the log was opened.
  ghost predicate LosesOld(recs: seq<Rec>, id: U32, cutoff: I64) {
    SlotOf(recs, id, cutoff).live.Keys != SlotOf(recs, id, 0).live.Keys
  }

  ghost function BookOpened(recs: seq<Rec>, loose: set<U32>, pristine: bool): Book {
    Book(recs, false, loose, {}, map[], map[], pristine)
  }

  // A slot restored from the log agrees with it: what was dropped as expired is
  // all the log may remember beyond memory.
  lemma RestoredAgrees(recs: seq<Rec>, id: U32, cutoff: I64, b: Book)
    requires Recovered(recs, id, cutoff).Some? && b == BookOpened(recs, b.loose, b.pristine)
    requires LosesOld(recs, id, cutoff) ==> id in b.loose
    ensures var (nm, live) := Recovered(recs, id, cutoff).value; Agrees(id, nm, Rebuilt(live), b)
  {
    var (nm, live) := Recovered(recs, id, cutoff).value;
    AgreesIsOk(id, nm, Rebuilt(live), b);
    RecoveredIsMeaning(recs, id, cutoff);
    FilteredIsSubset(recs, id, cutoff);
    AscElems(live.Keys);
    forall later: I64
      ensures HoldsAt(id, Rebuilt(live), b, later)
    {
      StampSurvives(recs, id, cutoff, later);
    }
  }

  lemma OpenedIsSound(recs: seq<Rec>, loose: set<U32>, next: U32)
    ensures Sound(BookOpened(recs, loose, Unused(recs, next)), next) && Sound(BookOpened(recs, loose, false), next)
  {
    SoundIsOk(BookOpened(recs, loose, Unused(recs, next)), next);
    SoundIsOk(BookOpened(recs, loose, false), next);
  }

  // What each slot is recovered as, given as a function so that the loop below
  // need not look into the log.
  type Plan = U32 -> Option<(Names, Slot)>

  ghost predicate Follows(p: Plan, recs: seq<Rec>, cutoff: I64, id: U32) {
    p(id) == match Recovered(recs, id, cutoff)
             case None => None
             case Some((nm, live)) => Some((nm, Rebuilt(live)))
  }

  ghost predicate IsPlan(p: Plan, recs: seq<Rec>, cutoff: I64) {
    forall id :: Follows(p, recs, cutoff, id)
  }

  lemma MakePlan(recs: seq<Rec>, cutoff: I64) returns (p: Plan)
    ensures IsPlan(p, recs, cutoff)
  {
    p := (id: U32) => match Recovered(recs, id, cutoff)
                      case None => None
                      case Some((nm, live)) => Some((nm, Rebuilt(live)));
  }

  // The plan has of a slot what replay gathered, if it was registered.
  ghost predicate PlanHas(p: Plan, acc: Acc, id: U32, b: Book)
    requires id in acc.slots
  {
    if acc.slots[id].registered.None? then p(id) == None
    else
      && id in acc.names && p(id) == Some((acc.names[id], Rebuilt(acc.slots[id].live)))
      && Agrees(id, acc.names[id], Rebuilt(acc.slots[id].live), b)
  }

  lemma PlanOfAcc(p: Plan, recs: seq<Rec>, cutoff: I64, id: U32, acc: Acc, b: Book)
    requires IsPlan(p, recs, cutoff) && acc == FoldReplay(recs, cutoff) && id in acc.slots
    requires b == BookOpened(recs, b.loose, b.pristine) && (LosesOld(recs, id, cutoff) ==> id in b.loose)
    ensures PlanHas(p, acc, id, b)
  {
    assert Follows(p, recs, cutoff, id);
    ReplayMeaning(recs, id, cutoff);
    if acc.slots[id].registered.Some? {
      RestoredAgrees(recs, id, cutoff, b);
    }
  }

  lemma PlanOfReplay(p: Plan, recs: seq<Rec>, cutoff: I64, acc: Acc, b: Book)
    requires IsPlan(p, recs, cutoff) && acc == FoldReplay(recs, cutoff)
    requires b == BookOpened(recs, LooseAtOpen(acc, recs, cutoff), b.pristine)
    ensures forall id :: id in acc.slots ==> PlanHas(p, acc, id, b)
    ensures forall id: U32 :: p(id).Some? ==> id in acc.slots
  {
    forall id | id in acc.slots
      ensures PlanHas(p, acc, id, b)
    {
      PlanOfAcc(p, recs, cutoff, id, acc, b);
    }
    forall id: U32 | p(id).Some?
      ensures id in acc.slots
    {
      assert Follows(p, recs, cutoff, id);
    }
  }

  ghost function LooseAtOpen(acc: Acc, recs: seq<Rec>, cutoff: I64): set<U32> {
    set id | id in acc.slots && LosesOld(recs, id, cutoff)
  }

  // ---- Handles ----

  // The handle stands for exactly what the plan gives its slot.
  ghost predicate Restores(st: SlotState, v: Slot, p: Plan) {
    !v.tombed && p(st.slotID) == Some((Names(st.stream, st.consumer), v)) && st.key == SlotKey(st.stream, st.consumer)
  }

  // The handles and tables of a store under restoration.
  datatype Tables =
    Tables(views: map<SlotState, Slot>, owner: map<U32, SlotState>, byName: map<Name, SlotState>, next: U32)

  // A handle is as planned, and its key is listed, for it or for a later slot.
  ghost predicate Handled(w: WAL, t: Tables, st: SlotState, p: Plan, b: Book) {
    && st.wal == w && st.slotID in t.owner && t.owner[st.slotID] == st
    && st.key in t.byName && t.byName[st.key].slotID >= st.slotID
    && st in t.views && Restores(st, t.views[st], p) && w.HandleOk(st, t.views[st], b)
  }

  ghost predicate KeyOk(t: Tables, k: Name) {
    k in t.byName && t.byName[k] in t.views && !t.views[t.byName[k]].tombed && t.byName[k].key == k
  }

  ghost predicate IdOk(t: Tables, id: U32) {
    id in t.owner && t.owner[id] in t.views && t.owner[id].slotID == id
  }

  // The next id is above every slot, and by no more than it has to be.
  ghost predicate Fits(t: Tables) {
    && (forall st :: st in t.views ==> st.slotID < t.next)
    && (t.next > 0 ==> t.next - 1 in t.owner)
  }

  ghost predicate AllRestored(w: WAL, t: Tables, p: Plan, b: Book) {
    var ok :=
      && (forall st {:trigger Handled(w, t, st, p, b)} :: st in t.views ==> Handled(w, t, st, p, b))
      && (forall k {:trigger KeyOk(t, k)} :: k in t.byName ==> KeyOk(t, k))
      && (forall id {:trigger IdOk(t, id)} :: id in t.owner ==> IdOk(t, id))
      && (0xFFFF_FFFF in t.owner || Fits(t));
    ok
  }

  ghost function Installed(t: Tables, st: SlotState, v: Slot): Tables {
    Tables(t.views[st := v], t.owner[st.slotID := st], t.byName[st.key := st],
           if st.slotID >= t.next then (st.slotID + 1) % 0x1_0000_0000 else t.next)
  }

  lemma InstallKeeps(w: WAL, t: Tables, st: SlotState, v: Slot, p: Plan, b: Book)
    requires AllRestored(w, t, p, b) && (forall o :: o in t.views ==> o.slotID < st.slotID)
    requires st.wal == w && Restores(st, v, p) && w.HandleOk(st, v, b)
    ensures AllRestored(w, Installed(t, st, v), p, b)
  {
    var t' := Installed(t, st, v);
    forall o | o in t'.views
      ensures Handled(w, t', o, p, b)
    {
      assert o != st ==> Handled(w, t, o, p, b);
    }
    forall k | k in t'.byName
      ensures KeyOk(t', k)
    {
      assert k != st.key ==> KeyOk(t, k);
    }
    forall id | id in t'.owner
      ensures IdOk(t', id)
    {
      assert id != st.slotID ==> IdOk(t, id);
    }
    InstallFits(t, st, v);
  }

  lemma InstallFits(t: Tables, st: SlotState, v: Slot)
    requires (forall o :: o in t.views ==> o.slotID < st.slotID) && forall id :: id in t.owner ==> IdOk(t, id)
    requires 0xFFFF_FFFF in t.owner || Fits(t)
    ensures 0xFFFF_FFFF in Installed(t, st, v).owner || Fits(Installed(t, st, v))
  {
    assert t.next > 0 && t.next - 1 in t.owner ==> IdOk(t, t.next - 1);
  }

  ghost function TablesOf(w: WAL): Tables
    reads w
  {
    Tables(w.views, w.owner, w.byName, w.nextID)
  }

  // Every slot installed so far is as planned.
  ghost predicate Restoring(w: WAL, p: Plan, b: Book)
    reads w, w.views.Keys
  {
    && w.book == b && AllRestored(w, TablesOf(w), p, b)
    && forall st :: st in w.views ==> st.View() == w.views[st]
  }

  method MakeSlot(w: WAL, id: U32, nm: Names, live: Live) returns (st: SlotState)
    ensures fresh(st) && st.wal == w && st.slotID == id && Names(st.stream, st.consumer) == nm
    ensures st.key == SlotKey(st.stream, st.consumer)
    ensures st.View() == Rebuilt(live) && !st.View().tombed
  {
    var seqs := SortSeqs(live);
    st := new SlotState.Restored(w, id, nm, live, seqs);
  }

  method RestoreSlot(w: WAL, ghost p: Plan, ghost b: Book, st: SlotState)
    requires Restoring(w, p, b) && (forall o :: o in w.views ==> o.slotID < st.slotID)
    requires st.wal == w && Restores(st, st.View(), p) && w.HandleOk(st, st.View(), b)
    modifies w`byName, w`nextID, w`views, w`owner
    ensures Restoring(w, p, b) && w.owner == old(w.owner)[st.slotID := st] && w.views == old(w.views)[st := st.View()]
  {
    InstallKeeps(w, TablesOf(w), st, st.View(), p, b);
    w.Install(st);
    assert TablesOf(w) == Installed(old(TablesOf(w)), st, st.View());
  }

  method RestoreIfRegistered(w: WAL, ghost p: Plan, ghost b: Book, id: U32, acc: Acc)
    requires Restoring(w, p, b) && (forall o :: o in w.views ==> o.slotID < id)
    requires id in acc.slots && PlanHas(p, acc, id, b)
    modifies w`byName, w`nextID, w`views, w`owner
    ensures Restoring(w, p, b) && (forall o :: o in w.views ==> o.slotID <= id)
    ensures old(w.owner.Keys) <= w.owner.Keys && (p(id).Some? ==> id in w.owner)
    ensures forall o :: o in w.views ==> o in old(w.views) || fresh(o)
  {
    if acc.slots[id].registered.None? {
      return;
    }
    var st := MakeSlot(w, id, acc.names[id], acc.slots[id].live);
    RestoreSlot(w, p, b, st);
  }

  // The slots planned under the first `n` of `ids` are there.
  ghost predicate PlannedAre(p: Plan, ids: seq<U32>, n: nat, owned: set<U32>) {
    var ok := n <= |ids| && forall id :: id in ids[..n] && p(id).Some? ==> id in owned;
    ok
  }

  lemma PlannedGrow(p: Plan, ids: seq<U32>, i: nat, owned: set<U32>, owned': set<U32>)
    requires i < |ids| && PlannedAre(p, ids, i, owned)
    requires owned <= owned' && (p(ids[i]).Some? ==> ids[i] in owned')
    ensures PlannedAre(p, ids, i + 1, owned')
  {
    assert ids[..i + 1] == ids[..i] + [ids[i]];
  }

  lemma PlannedAll(p: Plan, ids: seq<U32>, acc: Acc, owned: set<U32>)
    requires PlannedAre(p, ids, |ids|, owned) && forall id :: id in acc.slots.Keys ==> id in ids
    ensures forall id :: id in acc.slots && p(id).Some? ==> id in owned
  {
    forall id | id in acc.slots && p(id).Some?
      ensures id in owned
    {
      assert id in acc.slots.Keys && ids[..|ids|] == ids;
    }
  }

  // The handles are made in slot id order.
  method RestoreAll(w: WAL, ghost p: Plan, ghost b: Book, acc: Acc)
    requires forall id :: id in acc.slots ==> PlanHas(p, acc, id, b)
    requires w.views == map[] && w.owner == map[] && w.byName == map[] && w.nextID == 0 && w.book == b
    modifies w`byName, w`nextID, w`views, w`owner
    ensures Restoring(w, p, b) && forall id :: id in acc.slots && p(id).Some? ==> id in w.owner
    ensures forall st :: st in w.views ==> fresh(st)
  {
    var ids := SortIds(acc.slots);
    ghost var bound: nat := 0;
    for i := 0 to |ids|
      invariant Restoring(w, p, b)
      invariant (forall o :: o in w.views ==> fresh(o) && o.slotID < bound) && (i < |ids| ==> bound <= ids[i])
      invariant PlannedAre(p, ids, i, w.owner.Keys)
    {
      var id: nat := ids[i];
      bound := id + 1;
      ghost var owned := w.owner.Keys;
      RestoreIfRegistered(w, p, b, ids[i], acc);
      PlannedGrow(p, ids, i, owned, w.owner.Keys);
    }
    PlannedAll(p, ids, acc, w.owner.Keys);
  }

  lemma {:induction false} SlotsAreNamedInLog(recs: seq<Rec>, cutoff: I64, id: U32)
    requires id in FoldReplay(recs, cutoff).slots
    ensures exists i :: 0 <= i < |recs| && recs[i].slot == id
  {
    var k := |recs| - 1;
    if recs[k].slot != id {
      SlotsAreNamedInLog(recs[..k], cutoff, id);
      var i :| 0 <= i < k && recs[..k][i].slot == id;
      assert recs[i].slot == id;
    }
  }

  ghost predicate IdsFit(recs: seq<Rec>) {
    forall i :: 0 <= i < |recs| ==> recs[i].slot < 0xFFFF_FFFF
  }

  // ---- The table of names ----

  // Slot `id` is recovered under a name with this key.
  ghost predicate HasKey(recs: seq<Rec>, cutoff: I64, id: U32, key: Name) {
    var r := Recovered(recs, id, cutoff);
    r.Some? && SlotKey(r.value.0.stream, r.value.0.consumer) == key
  }

  ghost predicate HighestWithKey(recs: seq<Rec>, cutoff: I64, id: U32, key: Name) {
    HasKey(recs, cutoff, id, key) && forall o: U32 :: HasKey(recs, cutoff, o, key) ==> o <= id
  }

  // The handle is that of slot `id`, holding what the slot was recovered with.
  ghost predicate StandsFor(st: SlotState, v: Slot, recs: seq<Rec>, cutoff: I64, id: U32) {
    st.slotID == id && var r := Recovered(recs, id, cutoff);
    r.Some? && r.value.0 == Names(st.stream, st.consumer) && v == Rebuilt(r.value.1)
  }

  // A reopened slot remembers exactly the seqs some record of it added and none
  // after that dropped, each dated by the last record that added it.
  lemma ReopenedDates(st: SlotState, v: Slot, recs: seq<Rec>, cutoff: I64, id: U32, n: U64)
    requires StandsFor(st, v, recs, cutoff, id)
    ensures n in v.live <==> exists i :: LiveSince(recs, id, n, cutoff, i)
    ensures n in v.live ==> exists i :: AddedLast(recs, id, n, cutoff, i) && v.live[n] == AsI64(recs[i].ts)
  {
    RecoveredIsMeaning(recs, id, cutoff);
    LiveIffAddedAndKept(recs, id, n, cutoff);
    if n in v.live {
      var i := DatedByLastAdd(recs, id, n, cutoff);
    }
  }

  // A key finds the highest slot recovered under it, and no other key is listed.
  ghost predicate TableOf(w: WAL, recs: seq<Rec>, cutoff: I64)
    reads w
  {
    && (forall key, id: U32 :: HighestWithKey(recs, cutoff, id, key) ==>
          key in w.byName && w.byName[key] in w.views
          && StandsFor(w.byName[key], w.views[w.byName[key]], recs, cutoff, id))
    && (forall key :: key in w.byName ==> HighestWithKey(recs, cutoff, w.byName[key].slotID, key))
  }

  lemma TableIsOfHighest(w: WAL, p: Plan, b: Book, recs: seq<Rec>, cutoff: I64)
    requires Restoring(w, p, b) && IsPlan(p, recs, cutoff) && forall id: U32 :: p(id).Some? ==> id in w.owner
    ensures TableOf(w, recs, cutoff)
  {
    forall key | key in w.byName
      ensures HighestWithKey(recs, cutoff, w.byName[key].slotID, key)
    {
      ListedIsHighest(w, p, b, recs, cutoff, key);
    }
    forall key, id: U32 | HighestWithKey(recs, cutoff, id, key)
      ensures key in w.byName && w.byName[key] in w.views
      ensures StandsFor(w.byName[key], w.views[w.byName[key]], recs, cutoff, id)
    {
      KeyIsListed(w, p, b, recs, cutoff, key, id);
      ListedIsHighest(w, p, b, recs, cutoff, key);
      StandsForPlanned(w, p, b, recs, cutoff, w.byName[key]);
    }
  }

  lemma KeyIsListed(w: WAL, p: Plan, b: Book, recs: seq<Rec>, cutoff: I64, key: Name, id: U32)
    requires Restoring(w, p, b) && IsPlan(p, recs, cutoff) && forall id: U32 :: p(id).Some? ==> id in w.owner
    requires HasKey(recs, cutoff, id, key)
    ensures key in w.byName && w.byName[key].slotID >= id
  {
    assert Follows(p, recs, cutoff, id);
    var st := w.owner[id];
    assert IdOk(TablesOf(w), id);
    assert Handled(w, TablesOf(w), st, p, b);
  }

  lemma StandsForPlanned(w: WAL, p: Plan, b: Book, recs: seq<Rec>, cutoff: I64, st: SlotState)
    requires Restoring(w, p, b) && IsPlan(p, recs, cutoff) && st in w.views
    ensures StandsFor(st, w.views[st], recs, cutoff, st.slotID) && HasKey(recs, cutoff, st.slotID, st.key)
  {
    assert Follows(p, recs, cutoff, st.slotID);
    assert Handled(w, TablesOf(w), st, p, b);
  }

  lemma ListedIsHighest(w: WAL, p: Plan, b: Book, recs: seq<Rec>, cutoff: I64, key: Name)
    requires Restoring(w, p, b) && IsPlan(p, recs, cutoff) && (forall id: U32 :: p(id).Some? ==> id in w.owner)
    requires key in w.byName
    ensures HighestWithKey(recs, cutoff, w.byName[key].slotID, key) && w.byName[key] in w.views
  {
    assert KeyOk(TablesOf(w), key);
    StandsForPlanned(w, p, b, recs, cutoff, w.byName[key]);
    forall o: U32 | HasKey(recs, cutoff, o, key)
      ensures o <= w.byName[key].slotID
    {
      KeyIsListed(w, p, b, recs, cutoff, key, o);
    }
  }

  // ---- Opening ----

  lemma RestoredIsValid(w: WAL, p: Plan, b: Book)
    requires Restoring(w, p, b) && 0xFFFF_FFFF !in w.owner && w.maxCap > 0 && w.file == FileOf(w.crc, w.book.log)
    requires w.synced <= |w.book.log| && w.closed == b.closed && Sound(b, w.nextID)
    ensures w.Valid()
  {
    assert forall st :: st in w.views ==> Handled(w, TablesOf(w), st, p, b);
    assert forall k :: k in w.byName ==> KeyOk(TablesOf(w), k);
  }

  lemma PristineAgrees(id: U32, nm: Names, v: Slot, b: Book, pristine: bool)
    requires Agrees(id, nm, v, b)
    ensures Agrees(id, nm, v, b.(pristine := pristine))
  {
    SameForAgrees(id, nm, v, b, b.(pristine := pristine));
  }

  lemma PristineKeeps(w: WAL, t: Tables, p: Plan, b: Book, pristine: bool)
    requires AllRestored(w, t, p, b)
    ensures AllRestored(w, t, p, b.(pristine := pristine))
  {
    forall st | st in t.views
      ensures Handled(w, t, st, p, b.(pristine := pristine))
    {
      assert Handled(w, t, st, p, b);
      PristineAgrees(st.slotID, Names(st.stream, st.consumer), t.views[st], b, pristine);
    }
  }

  // The store as it is on opening: every recovered slot and no other has a
  // handle, listed under its key unless a later slot has it.
  ghost predicate Opened(w: WAL, recs: seq<Rec>, cutoff: I64)
    reads w, w.views.Keys
  {
    && w.book == BookOpened(recs, LooseAtOpen(FoldReplay(recs, cutoff), recs, cutoff), w.book.pristine)
    && (forall st :: st in w.views ==> StandsFor(st, w.views[st], recs, cutoff, st.slotID) && st.View() == w.views[st])
    && (forall id: U32 :: Recovered(recs, id, cutoff).Some? ==>
          id in w.owner && w.owner[id] in w.views && w.owner[id].slotID == id)
    && TableOf(w, recs, cutoff)
  }

  lemma RestoredIsOpened(w: WAL, p: Plan, recs: seq<Rec>, cutoff: I64)
    requires Restoring(w, p, w.book) && IsPlan(p, recs, cutoff) && forall id: U32 :: p(id).Some? ==> id in w.owner
    requires w.book == BookOpened(recs, LooseAtOpen(FoldReplay(recs, cutoff), recs, cutoff), w.book.pristine)
    ensures Opened(w, recs, cutoff)
  {
    TableIsOfHighest(w, p, w.book, recs, cutoff);
    forall st | st in w.views
      ensures StandsFor(st, w.views[st], recs, cutoff, st.slotID)
    {
      StandsForPlanned(w, p, w.book, recs, cutoff, st);
    }
    forall id: U32 | Recovered(recs, id, cutoff).Some?
      ensures id in w.owner && w.owner[id] in w.views && w.owner[id].slotID == id
    {
      assert Follows(p, recs, cutoff, id);
      assert IdOk(TablesOf(w), id);
    }
  }

  // The next id to give out is one above the highest recovered.
  ghost predicate NextIsFree(w: WAL, recs: seq<Rec>, cutoff: I64)
    reads w
  {
    && (forall id: U32 :: Recovered(recs, id, cutoff).Some? ==> id < w.nextID)
    && (w.nextID > 0 ==> Recovered(recs, w.nextID - 1, cutoff).Some?)
  }

  lemma FitsIsNext(w: WAL, p: Plan, recs: seq<Rec>, cutoff: I64)
    requires Restoring(w, p, w.book) && IsPlan(p, recs, cutoff) && forall id: U32 :: p(id).Some? ==> id in w.owner
    requires 0xFFFF_FFFF !in w.owner
    ensures NextIsFree(w, recs, cutoff)
  {
    var t := TablesOf(w);
    forall id: U32 | Recovered(recs, id, cutoff).Some?
      ensures id < w.nextID
    {
      assert Follows(p, recs, cutoff, id);
      assert IdOk(t, id);
    }
    if w.nextID > 0 {
      assert IdOk(t, t.next - 1);
      StandsForPlanned(w, p, w.book, recs, cutoff, w.owner[t.next - 1]);
    }
  }

  // Notes whether any record names a slot that has no handle.
  ghost method SetPristine(w: WAL, p: Plan, b: Book, recs: seq<Rec>)
    requires Restoring(w, p, b) && b == BookOpened(recs, b.loose, false)
    modifies w`book
    ensures w.book == BookOpened(recs, b.loose, Unused(recs, w.nextID)) && Restoring(w, p, w.book)
  {
    var pristine := Unused(recs, w.nextID);
    PristineKeeps(w, TablesOf(w), p, b, pristine);
    w.book := b.(pristine := pristine);
  }

  // Beyond that it is valid, if no record names the id whose successor wraps.
  ghost predicate Ready(w: WAL, recs: seq<Rec>, cutoff: I64)
    reads w, w.views.Keys
  {
    var ok :=
      && Opened(w, recs, cutoff)
      && (IdsFit(recs) ==>
            w.Valid() && NextIsFree(w, recs, cutoff) && (w.book.pristine <==> Unused(recs, w.nextID)));
    ok
  }

  // Restores every slot of a replayed log.
  method Restore(w: WAL, acc: Acc, ghost recs: seq<Rec>, cutoff: I64)
    requires acc == FoldReplay(recs, cutoff) && w.book == BookOpened(recs, LooseAtOpen(acc, recs, cutoff), false)
    requires w.views == map[] && w.owner == map[] && w.byName == map[] && w.nextID == 0
    requires w.maxCap > 0 && !w.closed && w.file == FileOf(w.crc, recs) && w.synced <= |recs|
    modifies w`byName, w`nextID, w`views, w`owner, w`book
    ensures Ready(w, recs, cutoff) && forall st :: st in w.views ==> fresh(st)
  {
    ghost var b := w.book;
    ghost var p := MakePlan(recs, cutoff);
    PlanOfReplay(p, recs, cutoff, acc, b);
    RestoreAll(w, p, b, acc);
    SetPristine(w, p, b, recs);
    RestoredIsOpened(w, p, recs, cutoff);
    if 0xFFFF_FFFF in w.owner {
      assert IdOk(TablesOf(w), 0xFFFF_FFFF) && Handled(w, TablesOf(w), w.owner[0xFFFF_FFFF], p, w.book);
      SlotsAreNamedInLog(recs, cutoff, 0xFFFF_FFFF);
    } else {
      OpenedIsSound(recs, b.loose, w.nextID);
      RestoredIsValid(w, p, w.book);
      FitsIsNext(w, p, recs, cutoff);
    }
  }

  // Opens a log file: what can be read of it is replayed, the rest cut off.
  method OpenWAL(crc: Checksum, maxCap: nat, snapshotEveryN: nat, compactAtBytes: nat, file: seq<Byte>, cutoff: I64)
    returns (r: Option<WAL>)
    requires maxCap > 0
    ensures r.None? <==> ReopenLog(crc, file).BadMagic?
    ensures r.Some? ==>
              var w, o := r.value, ReopenLog(crc, file);
              && fresh(w) && (forall st :: st in w.views ==> fresh(st))
              && w.crc == crc && w.maxCap == maxCap && w.snapshotEveryN == snapshotEveryN
              && w.compactAtBytes == compactAtBytes
              && w.file == o.file && !w.closed && w.synced == |o.recs| && w.recsSinceSnap == 0
              && Ready(w, o.recs, cutoff)
  {
    var ok, acc, kept := ReplayFile(crc, file, cutoff);
    if !ok {
      return None;
    }
    ghost var recs := ReopenLog(crc, file).recs;
    FileIsOfRecs(crc, file);
    var w := new WAL.Opened(crc, maxCap, snapshotEveryN, compactAtBytes, kept,
                            BookOpened(recs, LooseAtOpen(acc, recs, cutoff), false));
    Restore(w, acc, recs, cutoff);
    r := Some(w);
  }

  lemma FileIsOfRecs(crc: Checksum, file: seq<Byte>)
    requires ReopenLog(crc, file).Reopened?
    ensures var o := ReopenLog(crc, file);
            && o.file == FileOf(crc, o.recs) && AllStorable(o.recs)
            && ReopenLog(crc, o.file) == o
  {
    LogCodecIsLawful(crc);
    ReopenIsIdempotent(LogCodec(crc), file);
    StorableIsReadable(crc, ReopenLog(crc, file).recs);
  }

  // ---- What survives ----

  // The log, replayed with this cutoff, gives the slot its name, every live seq
  // it owes memory, and nothing that memory did not hold, unless an eviction
  // had dropped a live seq.
  ghost predicate Kept(st: SlotState, v: Slot, b: Book, recs: seq<Rec>, cutoff: I64) {
    var r := Recovered(recs, st.slotID, cutoff);
    r.Some? && r.value.0 == Names(st.stream, st.consumer) && Remembers(r.value.1, v, st.slotID, b, cutoff)
  }

  // Of what the slot held in state `v` this has each seq not older than the
  // cutoff nor than the slot's floor, if the cutoff is not past its limit.
  ghost predicate Remembers(live: Live, v: Slot, id: U32, b: Book, cutoff: I64) {
    && (forall n :: n in v.live && Owed(v.live[n], Floor(b, id), Limit(b, id), cutoff) ==> n in live)
    && (id !in b.loose ==> live.Keys <= v.live.Keys)
  }

  // If the process stops at any moment with the file flushed, the next open
  // gives every slot still in use, under its name, what memory held.
  lemma RestartKeepsMemory(w: WAL, st: SlotState, cutoff: I64)
    requires w.Valid() && !w.closed && AllStorable(w.book.log)
    requires st in w.views && !w.views[st].tombed && st.slotID !in w.book.unnamed
    ensures ReopenLog(w.crc, w.file).Reopened? && ReopenLog(w.crc, w.file).recs == w.book.log
    ensures Kept(st, w.views[st], w.book, w.book.log, cutoff)
  {
    var b, v, id := w.book, w.views[st], st.slotID;
    ReopenIsLog(w.crc, b.log);
    AgreesIsOk(id, Names(st.stream, st.consumer), v, b);
    assert w.HandleOk(st, v, b);
    assert HoldsAt(id, v, b, cutoff);
    RecoveredIsMeaning(b.log, id, cutoff);
    FilteredIsSubset(b.log, id, cutoff);
  }

  // A log is read back in full exactly if each of its records is storable.
  lemma ReadBackIff(crc: Checksum, log: seq<Rec>)
    ensures ReadBack(crc, log) == log <==> AllStorable(log)
  {
    ReopenIsLog(crc, log);
    FileIsOfRecs(crc, FileOf(crc, log));
  }

  // The handle is that of the highest slot recovered under this key, with all
  // that was recovered of it; or a new, empty one if there is none.
  ghost predicate Finds(st: SlotState, recs: seq<Rec>, cutoff: I64, nm: Names)
    reads st
  {
    var key := SlotKey(nm.stream, nm.consumer);
    && (forall id: U32 :: HighestWithKey(recs, cutoff, id, key) ==> StandsFor(st, st.View(), recs, cutoff, id))
    && ((forall id: U32 :: !HighestWithKey(recs, cutoff, id, key)) ==>
          st.View() == NEW_SLOT && Names(st.stream, st.consumer) == nm)
  }

  lemma TableFinds(w: WAL, recs: seq<Rec>, cutoff: I64, nm: Names)
    requires w.Valid() && TableOf(w, recs, cutoff)
    ensures var key := SlotKey(nm.stream, nm.consumer);
            if key in w.byName then w.byName[key] in w.views && Finds(w.byName[key], recs, cutoff, nm)
            else forall id: U32 :: !HighestWithKey(recs, cutoff, id, key)
  {
    var key := SlotKey(nm.stream, nm.consumer);
    assert key in w.byName ==> HighestWithKey(recs, cutoff, w.byName[key].slotID, key);
  }

  method GetReopened(w: WAL, ghost recs: seq<Rec>, cutoff: I64, nm: Names, now: I64) returns (st: Option<SlotState>)
    requires w.Valid() && TableOf(w, recs, cutoff) && |nm.stream| <= MAX_NAME && |nm.consumer| <= MAX_NAME
    modifies w
    ensures w.Valid() && w.closed == old(w.closed)
    ensures st.Some? ==> st.value in w.views && Finds(st.value, recs, cutoff, nm)
    ensures st.None? ==>
              w.nextID == 0xFFFF_FFFF
              && forall id: U32 :: !HighestWithKey(recs, cutoff, id, SlotKey(nm.stream, nm.consumer))
  {
    TableFinds(w, recs, cutoff, nm);
    var err;
    st, err := w.GetSlot(nm.stream, nm.consumer, now);
    assert st.Some? ==> w.views[st.value] == st.value.View();
  }

  // Opening a file and asking for a slot gives what the file has of it.
  method ReopenAndGet(crc: Checksum, maxCap: nat, snapshotEveryN: nat, compactAtBytes: nat, file: seq<Byte>,
                      cutoff: I64,
                      nm: Names, now: I64)
    returns (w: WAL, st: Option<SlotState>)
    requires maxCap > 0 && |nm.stream| <= MAX_NAME && |nm.consumer| <= MAX_NAME
    requires ReopenLog(crc, file).Reopened? && IdsFit(ReopenLog(crc, file).recs)
    ensures fresh(w) && w.Valid()
    ensures st.Some? ==> st.value in w.views && Finds(st.value, ReopenLog(crc, file).recs, cutoff, nm)
    ensures st.None? ==>
              w.nextID == 0xFFFF_FFFF
              && forall id: U32 ::
                   !HighestWithKey(ReopenLog(crc, file).recs, cutoff, id, SlotKey(nm.stream, nm.consumer))
  {
    var r := OpenWAL(crc, maxCap, snapshotEveryN, compactAtBytes, file, cutoff);
    w := r.value;
    st := GetReopened(w, ReopenLog(crc, file).recs, cutoff, nm, now);
  }

  lemma NamesInLogFit(recs: seq<Rec>, id: U32, cutoff: I64)
    requires AllStorable(recs) && Recovered(recs, id, cutoff).Some?
    ensures var nm := Recovered(recs, id, cutoff).value.0; |nm.stream| <= MAX_NAME && |nm.consumer| <= MAX_NAME
  {
    RecoveredIsMeaning(recs, id, cutoff);
    RecordedNamesFit(recs, id, cutoff);
  }

  // A store closed and opened again, with or without a cutoff, gives a slot
  // under the same names and id, with the seqs it held.
  method Restart(w: WAL, st: SlotState, cutoff: I64, now: I64) returns (w': WAL, st': SlotState)
    requires w.Valid() && !w.closed && AllStorable(w.book.log) && IdsFit(w.book.log)
    requires st in w.views && !st.tombed && st.slotID !in w.book.unnamed
    requires forall id: U32 :: HasKey(w.book.log, cutoff, id, st.key) ==> id <= st.slotID
    modifies w`closed, w`synced, w`book
    ensures fresh(w') && w'.Valid() && st' in w'.views
    ensures st'.slotID == st.slotID && st'.stream == st.stream && st'.consumer == st.consumer
    ensures Remembers(st'.live, st.View(), st.slotID, old(w.book), cutoff)
  {
    ghost var recs := w.book.log;
    RestartKeepsMemory(w, st, cutoff);
    NamesInLogFit(recs, st.slotID, cutoff);
    assert w.Owned(st);
    w.Close();
    var found;
    w', found := ReopenAndGet(w.crc, w.maxCap, w.snapshotEveryN, w.compactAtBytes, w.file, cutoff,
                              Names(st.stream, st.consumer), now);
    assert HighestWithKey(recs, cutoff, st.slotID, st.key);
    st' := found.value;
  }

  // A crash that leaves at least what was synced: the records recovered are a
  // prefix of those written that has every synced one.
  lemma CrashKeepsSynced(w: WAL, cut: nat)
    requires w.Valid() && AllStorable(w.book.log)
    requires |FileOf(w.crc, w.book.log[..w.synced])| <= cut <= |w.file|
    ensures var o := ReopenLog(w.crc, w.file[..cut]);
            o.Reopened? && o.recs <= w.book.log && w.synced <= |o.recs|
  {
    var c := LogCodec(w.crc);
    LogCodecIsLawful(w.crc);
    StorableIsReadable(w.crc, w.book.log);
    CutIsPrefix(c, w.book.log, cut);
    if w.synced > 0 {
      CutKeepsWholeFrames(c, w.book.log, cut, w.synced);
    }
  }

  // Of what a slot held at the last sync, in state `v` under book `b`, each seq
  // the log owed it is recovered from any such crash, unless a record of the
  // slot written since drops it.
  lemma CrashKeepsSyncedSeqs(w: WAL, cut: nat, st: SlotState, v: Slot, b: Book, n: U64, cutoff: I64)
    requires w.Valid() && AllStorable(w.book.log)
    requires |FileOf(w.crc, w.book.log[..w.synced])| <= cut <= |w.file|
    requires w.HandleOk(st, v, b) && !b.closed && b.log == w.book.log[..w.synced]
    requires n in v.live && Owed(v.live[n], Floor(b, st.slotID), Limit(b, st.slotID), cutoff)
    ensures var recs := ReopenLog(w.crc, w.file[..cut]).recs;
            || n in SlotOf(recs, st.slotID, cutoff).live
            || exists j :: w.synced <= j < |recs| && Drops(recs[j], st.slotID, n, cutoff)
  {
    CrashKeepsSynced(w, cut);
    var recs, id := ReopenLog(w.crc, w.file[..cut]).recs, st.slotID;
    AgreesIsOk(id, Names(st.stream, st.consumer), v, b);
    assert HoldsAt(id, v, b, cutoff);
    assert recs[..w.synced] == b.log;
    LaterOrDropped(recs, w.synced, id, n, cutoff);
  }

  lemma LaterOrDropped(recs: seq<Rec>, m: nat, id: U32, n: U64, cutoff: I64)
    requires m <= |recs| && n in SlotOf(recs[..m], id, cutoff).live
    ensures n in SlotOf(recs, id, cutoff).live || exists j :: m <= j < |recs| && Drops(recs[j], id, n, cutoff)
  {
    assert recs == recs[..m] + recs[m..];
    SlotFromAppend(NO_SLOT, recs[..m], recs[m..], id, cutoff);
    StaysUnlessDropped(SlotOf(recs[..m], id, cutoff), recs[m..], id, n, cutoff);
    if j :| 0 <= j < |recs| - m && Drops(recs[m..][j], id, n, cutoff) {
      assert Drops(recs[m + j], id, n, cutoff);
    }
  }

  // Whatever bytes follow the synced part, every synced record is recovered.
  lemma TornTailKeepsSynced(w: WAL, tail: seq<Byte>)
    requires w.Valid() && AllStorable(w.book.log)
    ensures var o := ReopenLog(w.crc, FileOf(w.crc, w.book.log[..w.synced]) + tail);
            o.Reopened? && w.book.log[..w.synced] <= o.recs
  {
    LogCodecIsLawful(w.crc);
    StorableIsReadable(w.crc, w.book.log[..w.synced]);
    ReopenOfLog(LogCodec(w.crc), w.book.log[..w.synced], tail);
  }

  // The guarantee needs every record within the 64 MiB payload limit: a larger
  // snapshot hides itself and everything after it.
  lemma OversizedSnapshotHidesRest(crc: Checksum, rs: seq<Rec>, r: Rec, more: seq<Rec>)
    requires AllStorable(rs) && r.Snapshot? && |r.seqs| > MAX_SNAPSHOT_SEQS && PayloadSize(r) < 0x1_0000_0000
    ensures ReopenLog(crc, FileOf(crc, rs + [r] + more)) == Reopened(rs, FileOf(crc, rs))
  {
    var c := LogCodec(crc);
    var tail := c.enc(r) + EncodeAll(c, more);
    assert Writes(c, crc, r) && Reads(c, crc, tail);
    LongFrameIsRefused(crc, r, EncodeAll(c, more));
    UnreadableTail(crc, rs, r, more, tail);
  }

  lemma FileWithTail(c: FrameLog.Codec<Rec>, rs: seq<Rec>, r: Rec, more: seq<Rec>)
    ensures FileBytes(c, rs + [r] + more) == FileBytes(c, rs) + (c.enc(r) + EncodeAll(c, more))
  {
    EncodeAllAppend(c, rs + [r], more);
    EncodeAllAppend(c, rs, [r]);
    EncodeAllOne(c, r);
  }

  lemma UnreadableTail(crc: Checksum, rs: seq<Rec>, r: Rec, more: seq<Rec>, tail: seq<Byte>)
    requires AllStorable(rs) && tail == LogCodec(crc).enc(r) + EncodeAll(LogCodec(crc), more)
    requires LogCodec(crc).parse(tail) == None
    ensures ReopenLog(crc, FileOf(crc, rs + [r] + more)) == Reopened(rs, FileOf(crc, rs))
  {
    var c := LogCodec(crc);
    LogCodecIsLawful(crc);
    StorableIsReadable(crc, rs);
    FileWithTail(c, rs, r, more);
    ReopenOfRefused(c, rs, tail);
  }

  lemma ReopenOfRefused(c: FrameLog.Codec<Rec>, rs: seq<Rec>, tail: seq<Byte>)
    requires Lawful(c) && AllOk(c, rs) && c.parse(tail) == None
    ensures Reopen(c, FileBytes(c, rs) + tail) == Reopened(rs, FileBytes(c, rs))
  {
    ReopenOfLog(c, rs, tail);
    assert ParseAll(c, tail) == ([], 0);
    assert rs + [] == rs && FileBytes(c, rs) + tail[..0] == FileBytes(c, rs);
  }

  lemma LongFrameIsRefused(crc: Checksum, r: Rec, rest: seq<Byte>)
    requires MAX_PAYLOAD < PayloadSize(r) < 0x1_0000_0000
    ensures ParseFrame(crc, FrameOf(crc, r) + rest) == None
  {
    var s := FrameOf(crc, r) + rest;
    assert s[0..4] == LE(|Payload(r)|, 4);
    U32Field(s, 0, |Payload(r)|);
  }
}
