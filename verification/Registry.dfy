// Which subscriptions a delivered message goes to: routes by subscription id,
// each with the slice of all subscriptions sharing its consumer.
module Registry {
  import opened Bytes
  import opened Subjects

  datatype Delivery = Delivery(subID: U32, consumerID: U32, n: U64, subject: Subject)

  class Subscription {
    const id: U32
    const consumerID: U32
    const matcher: Matcher
    const slot: Option<U32>
    var inbox: seq<Delivery>

    constructor (id: U32, consumerID: U32, filter: Subject, slot: Option<U32>)
      ensures this.id == id && this.consumerID == consumerID && this.slot == slot
      ensures matcher == NewMatcher(filter) && inbox == []
    {
      this.id, this.consumerID, this.slot, matcher, inbox := id, consumerID, slot, NewMatcher(filter), [];
    }
  }

  class Route {
    const consumerID: U32
    var fanout: bool
    const idx: nat
    const slot: Option<U32>
    const subs: array<Subscription>

    constructor (consumerID: U32, fanout: bool, idx: nat, slot: Option<U32>, subs: array<Subscription>)
      ensures this.consumerID == consumerID && this.fanout == fanout && this.idx == idx && this.slot == slot
      ensures this.subs == subs
    {
      this.consumerID, this.fanout, this.idx, this.slot, this.subs := consumerID, fanout, idx, slot, subs;
    }
  }

  // ---- The roster: what the registry stands for ----

  // The subscriptions of each consumer in order, its delivery mode, and the
  // consumer each live subscription id belongs to.
  datatype Roster = Roster(live: map<U32, seq<Subscription>>, fan: map<U32, bool>, home: map<U32, U32>)

  const EMPTY := Roster(map[], map[], map[])

  datatype Op = Add(sub: Subscription) | Drop(id: U32) | SetFan(consumer: U32, fanout: bool)

  function Group(r: Roster, c: U32): seq<Subscription> {
    if c in r.live then r.live[c] else []
  }

  function Without(subs: seq<Subscription>, id: U32): seq<Subscription> {
    if subs == [] then []
    else Without(subs[..|subs| - 1], id) + if subs[|subs| - 1].id == id then [] else [subs[|subs| - 1]]
  }

  function Apply(r: Roster, op: Op): Roster {
    match op
    case Add(sub) =>
      var c := sub.consumerID;
      Roster(r.live[c := Group(r, c) + [sub]], r.fan[c := c in r.fan && r.fan[c]], r.home[sub.id := c])
    case Drop(id) =>
      if id !in r.home then r
      else
        var c := r.home[id];
        var kept := Without(Group(r, c), id);
        if kept == [] then Roster(r.live - {c}, r.fan - {c}, r.home - {id})
        else Roster(r.live[c := kept], r.fan, r.home - {id})
    case SetFan(c, fanout) =>
      if c in r.live then r.(fan := r.fan[c := fanout]) else r
  }

  // Subscription ids are distinct among the live ones.
  predicate Allowed(r: Roster, op: Op) {
    op.Add? ==> op.sub.id !in r.home
  }

  ghost predicate GroupFits(r: Roster, c: U32)
    requires c in r.live
  {
    var subs := r.live[c];
    && subs != [] && c in r.fan
    && (forall i :: 0 <= i < |subs| ==> subs[i].consumerID == c && subs[i].id in r.home && r.home[subs[i].id] == c)
    && Distinct(subs)
  }

  predicate Lists(subs: seq<Subscription>, id: U32) {
    exists i :: 0 <= i < |subs| && subs[i].id == id
  }

  ghost predicate RosterOk(r: Roster) {
    && r.fan.Keys == r.live.Keys
    && (forall c :: c in r.live ==> GroupFits(r, c))
    && (forall id :: id in r.home ==> r.home[id] in r.live && Lists(r.live[r.home[id]], id))
  }

  lemma {:induction false} WithoutIs(subs: seq<Subscription>, id: U32)
    ensures var kept := Without(subs, id);
            && (forall i :: 0 <= i < |kept| ==> kept[i] in subs && kept[i].id != id)
            && (forall i :: 0 <= i < |subs| && subs[i].id != id ==> subs[i] in kept)
  {
    if subs != [] {
      var k := |subs| - 1;
      WithoutIs(subs[..k], id);
      assert subs == subs[..k] + [subs[k]];
      var before, kept := Without(subs[..k], id), Without(subs, id);
      forall i | 0 <= i < |kept|
        ensures kept[i] in subs && kept[i].id != id
      {
        if i < |before| {
          assert kept[i] == before[i] && before[i] in subs[..k];
        }
      }
      forall i | 0 <= i < |subs| && subs[i].id != id
        ensures subs[i] in kept
      {
        if i < k {
          assert subs[..k][i] in before;
        }
      }
    }
  }

  predicate Distinct(subs: seq<Subscription>) {
    forall i, j :: 0 <= i < j < |subs| ==> subs[i].id != subs[j].id
  }

  lemma {:induction false} WithoutDistinct(subs: seq<Subscription>, id: U32)
    requires Distinct(subs)
    ensures Distinct(Without(subs, id))
  {
    if subs != [] {
      var k := |subs| - 1;
      WithoutDistinct(subs[..k], id);
      WithoutIs(subs[..k], id);
      var kept := Without(subs[..k], id);
      forall i | 0 <= i < |kept|
        ensures kept[i].id != subs[k].id
      {
        assert kept[i] in subs[..k];
      }
    }
  }

  lemma AddKeeps(r: Roster, sub: Subscription)
    requires RosterOk(r) && sub.id !in r.home
    ensures RosterOk(Apply(r, Add(sub)))
  {
    var r', c := Apply(r, Add(sub)), sub.consumerID;
    forall d | d in r'.live
      ensures GroupFits(r', d)
    {
      assert d in r.live ==> GroupFits(r, d);
    }
    forall id | id in r'.home
      ensures r'.home[id] in r'.live && Lists(r'.live[r'.home[id]], id)
    {
      if id == sub.id {
        assert r'.live[c][|Group(r, c)|].id == id;
      } else {
        var i :| 0 <= i < |r.live[r.home[id]]| && r.live[r.home[id]][i].id == id;
        assert r'.live[r'.home[id]][i].id == id;
      }
    }
  }

  lemma DropKeeps(r: Roster, id: U32)
    requires RosterOk(r) && id in r.home
    ensures RosterOk(Apply(r, Drop(id)))
  {
    var r', c := Apply(r, Drop(id)), r.home[id];
    assert GroupFits(r, c);
    WithoutIs(r.live[c], id);
    WithoutDistinct(r.live[c], id);
    forall d | d in r'.live
      ensures GroupFits(r', d)
    {
      assert GroupFits(r, d);
      var subs := r'.live[d];
      forall i | 0 <= i < |subs|
        ensures subs[i].id != id && subs[i] in r.live[d]
      {
        assert d != c ==> r.home[subs[i].id] == d;
      }
    }
    forall k | k in r'.home
      ensures r'.home[k] in r'.live && Lists(r'.live[r'.home[k]], k)
    {
      var subs := r.live[r.home[k]];
      var i :| 0 <= i < |subs| && subs[i].id == k;
      if r.home[k] == c {
        var kept := Without(subs, id);
        assert subs[i] in kept;
        var j :| 0 <= j < |kept| && kept[j] == subs[i];
        assert kept[j].id == k;
      }
    }
  }

  lemma ApplyKeeps(r: Roster, op: Op)
    requires RosterOk(r) && Allowed(r, op)
    ensures RosterOk(Apply(r, op))
  {
    match op
    case Add(sub) => AddKeeps(r, sub);
    case Drop(id) => if id in r.home { DropKeeps(r, id); }
    case SetFan(c, fanout) =>
      forall d | d in Apply(r, op).live
        ensures GroupFits(Apply(r, op), d)
      {
        assert GroupFits(r, d);
      }
  }

  // ---- Runs ----

  function After(ops: seq<Op>): Roster {
    if ops == [] then EMPTY else Apply(After(ops[..|ops| - 1]), ops[|ops| - 1])
  }

  predicate IdsDistinct(ops: seq<Op>) {
    ops == [] || (IdsDistinct(ops[..|ops| - 1]) && Allowed(After(ops[..|ops| - 1]), ops[|ops| - 1]))
  }

  lemma {:induction false} RunKeepsRoster(ops: seq<Op>)
    requires IdsDistinct(ops)
    ensures RosterOk(After(ops))
  {
    if ops != [] {
      RunKeepsRoster(ops[..|ops| - 1]);
      ApplyKeeps(After(ops[..|ops| - 1]), ops[|ops| - 1]);
    }
  }

  // What was registered for a consumer and not removed since, in order.
  function Survivors(ops: seq<Op>, c: U32): seq<Subscription> {
    if ops == [] then []
    else (if ops[0].Add? && ops[0].sub.consumerID == c && Drop(ops[0].sub.id) !in ops[1..] then [ops[0].sub] else [])
         + Survivors(ops[1..], c)
  }

  lemma {:induction false} WithoutAppend(a: seq<Subscription>, b: seq<Subscription>, id: U32)
    ensures Without(a + b, id) == Without(a, id) + Without(b, id)
  {
    if b == [] {
      assert a + b == a;
    } else {
      var k := |b| - 1;
      WithoutAppend(a, b[..k], id);
      assert (a + b)[..|a + b| - 1] == a + b[..k];
    }
  }

  lemma {:induction false} SurvivorsSnoc(ops: seq<Op>, op: Op, c: U32)
    ensures Survivors(ops + [op], c) ==
            match op
            case Add(sub) => Survivors(ops, c) + if sub.consumerID == c then [sub] else []
            case Drop(id) => Without(Survivors(ops, c), id)
            case SetFan(_, _) => Survivors(ops, c)
    decreases |ops|
  {
    if ops == [] {
      assert ops + [op] == [op] && [op][1..] == [];
    } else {
      var all, head := ops + [op], ops[0];
      assert all[1..] == ops[1..] + [op] && all[0] == head;
      SurvivorsSnoc(ops[1..], op, c);
      if op.Drop? {
        var kept := if head.Add? && head.sub.consumerID == c && Drop(head.sub.id) !in ops[1..] then [head.sub] else [];
        WithoutAppend(kept, Survivors(ops[1..], c), op.id);
        assert kept != [] ==> kept[..0] == [];
      }
    }
  }

  // After any run with distinct ids: a consumer's slice is what was registered
  // for it and not removed since, in registration order.
  lemma {:induction false} GroupIsSurvivors(ops: seq<Op>, c: U32)
    requires IdsDistinct(ops)
    ensures Group(After(ops), c) == Survivors(ops, c)
  {
    if ops != [] {
      var k := |ops| - 1;
      GroupIsSurvivors(ops[..k], c);
      RunKeepsRoster(ops[..k]);
      assert ops == ops[..k] + [ops[k]];
      SurvivorsSnoc(ops[..k], ops[k], c);
      if ops[k].Drop? {
        DropOnGroup(After(ops[..k]), ops[k].id, c);
      }
    }
  }

  lemma DropOnGroup(r: Roster, id: U32, c: U32)
    requires RosterOk(r)
    ensures Group(Apply(r, Drop(id)), c) == Without(Group(r, c), id)
  {
    if !(id in r.home && r.home[id] == c) {
      if c in r.live {
        assert GroupFits(r, c);
        assert forall i :: 0 <= i < |r.live[c]| ==> r.live[c][i].id != id;
      }
      WithoutNone(Group(r, c), id);
    }
  }

  lemma {:induction false} WithoutNone(subs: seq<Subscription>, id: U32)
    requires forall i :: 0 <= i < |subs| ==> subs[i].id != id
    ensures Without(subs, id) == subs
  {
    if subs != [] {
      WithoutNone(subs[..|subs| - 1], id);
      assert subs == subs[..|subs| - 1] + [subs[|subs| - 1]];
    }
  }

  predicate Registered(ops: seq<Op>, id: U32) {
    exists i :: 0 <= i < |ops| && AddedAt(ops, i, id)
  }

  // Added by the i-th operation and not dropped since.
  predicate AddedAt(ops: seq<Op>, i: nat, id: U32)
    requires i < |ops|
  {
    ops[i].Add? && ops[i].sub.id == id && Drop(id) !in ops[i + 1..]
  }

  lemma RegisteredSnoc(ops: seq<Op>, op: Op, id: U32)
    ensures Registered(ops + [op], id) <==> op != Drop(id) && (Registered(ops, id) || (op.Add? && op.sub.id == id))
  {
    var all := ops + [op];
    forall i | 0 <= i < |ops|
      ensures AddedAt(all, i, id) <==> AddedAt(ops, i, id) && op != Drop(id)
    {
      assert all[i + 1..] == ops[i + 1..] + [op];
    }
    assert all[|ops| + 1..] == [];
    if Registered(ops, id) && op != Drop(id) {
      var i :| 0 <= i < |ops| && AddedAt(ops, i, id);
      assert AddedAt(all, i, id);
    }
    if op.Add? && op.sub.id == id {
      assert AddedAt(all, |ops|, id);
    }
  }

  // An id resolves exactly while it is registered: added, and not dropped since.
  lemma {:induction false} ResolvesIffRegistered(ops: seq<Op>, id: U32)
    requires IdsDistinct(ops)
    ensures id in After(ops).home <==> Registered(ops, id)
  {
    if ops != [] {
      var k := |ops| - 1;
      ResolvesIffRegistered(ops[..k], id);
      assert ops == ops[..k] + [ops[k]];
      RegisteredSnoc(ops[..k], ops[k], id);
    }
  }

  // Only SetFan changes the mode of a consumer that stays subscribed; a new one
  // starts in queue mode.
  lemma OnlySetFanChangesMode(r: Roster, op: Op, c: U32)
    requires RosterOk(r) && Allowed(r, op) && c in Apply(r, op).live
    ensures c in Apply(r, op).fan
    ensures Apply(r, op).fan[c] == if op.SetFan? && op.consumer == c then op.fanout else c in r.live && r.fan[c]
  {
    ApplyKeeps(r, op);
  }

  // ---- The registry ----

  function Ids(subs: seq<Subscription>): set<U32> {
    if subs == [] then {} else Ids(subs[..|subs| - 1]) + {subs[|subs| - 1].id}
  }

  lemma {:induction false} IdsAreListed(subs: seq<Subscription>, id: U32)
    ensures id in Ids(subs) <==> Lists(subs, id)
  {
    if subs != [] {
      var k := |subs| - 1;
      IdsAreListed(subs[..k], id);
      if Lists(subs, id) && subs[k].id != id {
        var i :| 0 <= i < |subs| && subs[i].id == id;
        assert subs[..k][i].id == id;
      }
    }
  }

  // A route of `id` as the roster has it: its consumer's slice, its own place
  // in it, and the consumer's mode.
  ghost predicate RouteFits(rt: Route, id: U32, r: Roster, byConsu: map<U32, array<Subscription>>)
    reads rt, rt.subs
  {
    var c := rt.consumerID;
    && id in r.home && r.home[id] == c && c in byConsu && c in r.fan
    && rt.subs == byConsu[c] && rt.idx < rt.subs.Length && rt.subs[rt.idx].id == id
    && rt.slot == rt.subs[rt.idx].slot && rt.fanout == r.fan[c]
  }

  ghost predicate SliceFits(slice: array<Subscription>, c: U32, r: Roster)
    reads slice
  {
    c in r.live && slice[..] == r.live[c]
  }

  // The mode the first sibling's route has, if it has one yet.
  ghost predicate ModeOf(bySub: map<U32, Route>, siblings: seq<Subscription>)
    reads bySub.Values
  {
    siblings != [] && siblings[0].id in bySub && bySub[siblings[0].id].fanout
  }

  ghost predicate Links(r: Roster, bySub: map<U32, Route>, byConsu: map<U32, array<Subscription>>)
    reads bySub.Values, byConsu.Values, set rt | rt in bySub.Values :: rt.subs
  {
    && byConsu.Keys == r.live.Keys && bySub.Keys == r.home.Keys
    && (forall c :: c in byConsu ==> SliceFits(byConsu[c], c, r))
    && (forall id :: id in bySub ==> RouteFits(bySub[id], id, r, byConsu))
  }

  lemma NoSibling(siblings: array<Subscription>, c: U32, r: Roster, id: U32)
    requires SliceFits(siblings, c, r) && GroupFits(r, c) && id in r.home && r.home[id] != c
    ensures id !in Ids(siblings[..])
  {
    IdsAreListed(siblings[..], id);
  }

  ghost predicate Points(bySub: map<U32, Route>, siblings: array<Subscription>, i: nat, c: U32, fanout: bool)
    requires i < siblings.Length
    reads siblings, bySub.Values
  {
    && siblings[i].id in bySub
    && var rt := bySub[siblings[i].id];
       rt.consumerID == c && rt.fanout == fanout && rt.idx == i && rt.slot == siblings[i].slot && rt.subs == siblings
  }

  // Every id at home with a consumer is in its slice.
  ghost predicate HomesFit(r: Roster, c: U32)
    requires c in r.live
  {
    forall id :: id in r.home && r.home[id] == c ==> Lists(r.live[c], id)
  }

  lemma SiblingFits(bySub: map<U32, Route>, siblings: array<Subscription>, c: U32, r: Roster,
                    byConsu: map<U32, array<Subscription>>, id: U32) returns (i: nat)
    requires c in r.live && HomesFit(r, c) && id in r.home && r.home[id] == c && c in byConsu && byConsu[c] == siblings
    requires SliceFits(siblings, c, r) && c in r.fan
    requires forall j :: 0 <= j < siblings.Length ==> Points(bySub, siblings, j, c, r.fan[c])
    ensures i < siblings.Length && siblings[i].id == id && id in bySub && RouteFits(bySub[id], id, r, byConsu)
  {
    assert Lists(r.live[c], id);
    i :| 0 <= i < |r.live[c]| && r.live[c][i].id == id;
    assert Points(bySub, siblings, i, c, r.fan[c]);
  }

  // Everything but the routes of consumer `c` is as roster `r` has it.
  ghost predicate Ready(r: Roster, c: U32, siblings: array<Subscription>, bySub: map<U32, Route>,
                        all: map<U32, array<Subscription>>)
    reads siblings, bySub.Values, all.Values, set rt | rt in bySub.Values :: rt.subs
  {
    && c in r.live && SliceFits(siblings, c, r) && GroupFits(r, c) && HomesFit(r, c) && c in all && all[c] == siblings
    && all.Keys == r.live.Keys && (forall d :: d in all ==> SliceFits(all[d], d, r))
    && KeysReady(bySub.Keys, r, c)
    && r.fan[c] == ModeOf(bySub, siblings[..])
    && (forall id :: id in bySub && r.home[id] != c ==> RouteFits(bySub[id], id, r, all))
  }

  // The consumer's own part of what Ready asks.
  ghost predicate GroupReady(r: Roster, c: U32) {
    && c in r.live && GroupFits(r, c) && HomesFit(r, c)
    && (forall id :: id in r.home && r.home[id] == c ==> id in Ids(r.live[c])) && Ids(r.live[c]) <= r.home.Keys
  }

  lemma GroupIsReady(r: Roster, c: U32)
    requires RosterOk(r) && c in r.live
    ensures GroupReady(r, c)
  {
    forall id: U32
      ensures id in r.home && r.home[id] == c ==> id in Ids(r.live[c])
      ensures id in Ids(r.live[c]) ==> id in r.home
    {
      IdsAreListed(r.live[c], id);
      assert GroupFits(r, c);
    }
  }

  // Outside consumer `c` the two rosters and the two tables of slices agree.
  ghost predicate AgreeOutside(r: Roster, r': Roster, c: U32, byConsu: map<U32, array<Subscription>>,
                         all: map<U32, array<Subscription>>) {
    && (forall d :: d != c ==> (d in r.live <==> d in r'.live) && (d in r.live ==> r.live[d] == r'.live[d]))
    && (forall d :: d != c ==> (d in r.fan <==> d in r'.fan) && (d in r.fan ==> r.fan[d] == r'.fan[d]))
    && (forall d :: d != c ==> (d in byConsu <==> d in all) && (d in byConsu ==> byConsu[d] == all[d]))
  }

  lemma StillFits(rt: Route, id: U32, r: Roster, r': Roster, c: U32, byConsu: map<U32, array<Subscription>>,
                  all: map<U32, array<Subscription>>)
    requires RouteFits(rt, id, r, byConsu) && AgreeOutside(r, r', c, byConsu, all)
    requires r.home[id] != c && id in r'.home && r'.home[id] == r.home[id]
    ensures RouteFits(rt, id, r', all)
  {
  }

  lemma SlicesStillFit(r: Roster, r': Roster, c: U32, byConsu: map<U32, array<Subscription>>,
                       all: map<U32, array<Subscription>>)
    requires forall d :: d in byConsu ==> SliceFits(byConsu[d], d, r)
    requires AgreeOutside(r, r', c, byConsu, all) && (c in all ==> SliceFits(all[c], c, r'))
    ensures forall d :: d in all ==> SliceFits(all[d], d, r')
  {
    forall d | d in all
      ensures SliceFits(all[d], d, r')
    {
      assert d != c ==> SliceFits(byConsu[d], d, r);
    }
  }

  lemma RoutesStillFit(r: Roster, r': Roster, c: U32, bySub: map<U32, Route>, rest: map<U32, Route>,
                       byConsu: map<U32, array<Subscription>>, all: map<U32, array<Subscription>>)
    requires forall id :: id in bySub ==> RouteFits(bySub[id], id, r, byConsu)
    requires AgreeOutside(r, r', c, byConsu, all)
    requires forall id :: id in rest ==>
               id in bySub && rest[id] == bySub[id] && id in r.home && id in r'.home && r'.home[id] == r.home[id]
    ensures forall id :: id in rest && r'.home[id] != c ==> RouteFits(rest[id], id, r', all)
  {
    forall id | id in rest && r'.home[id] != c
      ensures RouteFits(rest[id], id, r', all)
    {
      StillFits(bySub[id], id, r, r', c, byConsu, all);
    }
  }

  // The mode a rebuild takes over is the consumer's.
  lemma FirstMode(r: Roster, c: U32, bySub: map<U32, Route>, byConsu: map<U32, array<Subscription>>, k: nat)
    requires Links(r, bySub, byConsu) && c in r.live && GroupFits(r, c) && k < |r.live[c]|
    ensures var id := r.live[c][k].id;
            id in bySub && c in r.fan && bySub[id].fanout == r.fan[c]
  {
    var id := r.live[c][k].id;
    assert RouteFits(bySub[id], id, r, byConsu);
  }

  lemma AddMode(r: Roster, sub: Subscription, siblings: array<Subscription>, bySub: map<U32, Route>,
                byConsu: map<U32, array<Subscription>>)
    requires Links(r, bySub, byConsu) && sub.id !in r.home && siblings[..] == Group(r, sub.consumerID) + [sub]
    requires r.fan.Keys == r.live.Keys && (sub.consumerID in r.live ==> GroupFits(r, sub.consumerID))
    ensures Apply(r, Add(sub)).fan[sub.consumerID] == ModeOf(bySub, siblings[..])
  {
    if sub.consumerID in r.live {
      FirstMode(r, sub.consumerID, bySub, byConsu, 0);
      assert siblings[..][0] == r.live[sub.consumerID][0];
    } else {
      assert siblings[..][0] == sub;
    }
  }

  lemma AddAgrees(r: Roster, sub: Subscription, siblings: array<Subscription>, byConsu: map<U32, array<Subscription>>)
    ensures AgreeOutside(r, Apply(r, Add(sub)), sub.consumerID, byConsu, byConsu[sub.consumerID := siblings])
  {
  }

  lemma AddIsReady(r: Roster, sub: Subscription, siblings: array<Subscription>, bySub: map<U32, Route>,
                   byConsu: map<U32, array<Subscription>>)
    requires Links(r, bySub, byConsu) && sub.id !in r.home && GroupReady(Apply(r, Add(sub)), sub.consumerID)
    requires siblings[..] == Group(r, sub.consumerID) + [sub]
    requires r.fan.Keys == r.live.Keys && (sub.consumerID in r.live ==> GroupFits(r, sub.consumerID))
    ensures Ready(Apply(r, Add(sub)), sub.consumerID, siblings, bySub, byConsu[sub.consumerID := siblings])
  {
    var r', c := Apply(r, Add(sub)), sub.consumerID;
    var all := byConsu[c := siblings];
    AddAgrees(r, sub, siblings, byConsu);
    SlicesStillFit(r, r', c, byConsu, all);
    RoutesStillFit(r, r', c, bySub, bySub, byConsu, all);
    AddMode(r, sub, siblings, bySub, byConsu);
    AddKeys(r, sub, bySub.Keys);
  }

  // The routes kept, with the consumer's own to come, are all there should be.
  ghost predicate KeysReady(ids: set<U32>, r: Roster, c: U32) {
    c in r.live && ids <= r.home.Keys && ids + Ids(r.live[c]) == r.home.Keys
  }

  lemma AddKeys(r: Roster, sub: Subscription, ids: set<U32>)
    requires ids == r.home.Keys && GroupReady(Apply(r, Add(sub)), sub.consumerID)
    ensures KeysReady(ids, Apply(r, Add(sub)), sub.consumerID)
  {
    var r' := Apply(r, Add(sub));
    assert r'.home.Keys == ids + {sub.id};
    assert sub.id in Ids(r'.live[sub.consumerID]);
  }

  lemma DropKeys(r: Roster, id: U32, bySub: map<U32, Route>)
    requires bySub.Keys == r.home.Keys && id in r.home && r.home[id] in r.live
    requires GroupReady(Apply(r, Drop(id)), r.home[id])
    ensures KeysReady((bySub - {id}).Keys, Apply(r, Drop(id)), r.home[id])
  {
    assert (bySub - {id}).Keys == bySub.Keys - {id};
    assert Apply(r, Drop(id)).home.Keys == r.home.Keys - {id};
  }

  // The routes left are those of subscriptions that stay where they are.
  lemma DropHomes(r: Roster, id: U32, bySub: map<U32, Route>)
    requires bySub.Keys == r.home.Keys && id in r.home
    ensures forall x :: x in bySub - {id} ==>
              x in bySub && (bySub - {id})[x] == bySub[x]
              && x in r.home && x in Apply(r, Drop(id)).home && Apply(r, Drop(id)).home[x] == r.home[x]
  {
  }

  lemma DropIsReady(r: Roster, id: U32, siblings: array<Subscription>, bySub: map<U32, Route>,
                    byConsu: map<U32, array<Subscription>>)
    requires Links(r, bySub, byConsu) && id in r.home && r.home[id] in r.live && GroupFits(r, r.home[id])
    requires siblings[..] == Without(Group(r, r.home[id]), id) != []
    requires GroupReady(Apply(r, Drop(id)), r.home[id])
    ensures Ready(Apply(r, Drop(id)), r.home[id], siblings, bySub - {id}, byConsu[r.home[id] := siblings])
  {
    var r', c := Apply(r, Drop(id)), r.home[id];
    var all := byConsu[c := siblings];
    DropAgrees(r, id, siblings, byConsu);
    SlicesStillFit(r, r', c, byConsu, all);
    DropHomes(r, id, bySub);
    RoutesStillFit(r, r', c, bySub, bySub - {id}, byConsu, all);
    DropMode(r, id, siblings, bySub, byConsu);
    DropKeys(r, id, bySub);
  }

  lemma DropAgrees(r: Roster, id: U32, siblings: array<Subscription>, byConsu: map<U32, array<Subscription>>)
    requires id in r.home && Without(Group(r, r.home[id]), id) != []
    ensures AgreeOutside(r, Apply(r, Drop(id)), r.home[id], byConsu, byConsu[r.home[id] := siblings])
  {
  }

  lemma DropMode(r: Roster, id: U32, siblings: array<Subscription>, bySub: map<U32, Route>,
                 byConsu: map<U32, array<Subscription>>)
    requires Links(r, bySub, byConsu) && id in r.home && r.home[id] in r.live && GroupFits(r, r.home[id])
    requires siblings[..] == Without(Group(r, r.home[id]), id) != []
    ensures r.fan[r.home[id]] == ModeOf(bySub - {id}, siblings[..])
  {
    var c := r.home[id];
    WithoutIs(r.live[c], id);
    var k :| 0 <= k < |r.live[c]| && r.live[c][k] == siblings[..][0];
    FirstMode(r, c, bySub, byConsu, k);
  }

  lemma LastDropLinks(r: Roster, id: U32, bySub: map<U32, Route>, byConsu: map<U32, array<Subscription>>)
    requires Links(r, bySub, byConsu) && id in r.home && r.home[id] in r.live && Without(r.live[r.home[id]], id) == []
    requires forall k :: k in r.home && r.home[k] == r.home[id] ==> k == id
    ensures Links(Apply(r, Drop(id)), bySub - {id}, byConsu - {r.home[id]})
  {
    var r', c := Apply(r, Drop(id)), r.home[id];
    assert AgreeOutside(r, r', c, byConsu, byConsu - {c});
    SlicesStillFit(r, r', c, byConsu, byConsu - {c});
    RoutesStillFit(r, r', c, bySub, bySub - {id}, byConsu, byConsu - {c});
  }

  // What dropping a live id needs to know of the roster.
  ghost predicate DropOk(r: Roster, id: U32)
    requires id in r.home
  {
    var c := r.home[id];
    && c in r.live && GroupFits(r, c)
    && (if Without(r.live[c], id) == [] then forall k :: k in r.home && r.home[k] == c ==> k == id
        else GroupReady(Apply(r, Drop(id)), c))
  }

  lemma DropFacts(r: Roster, id: U32)
    requires RosterOk(r) && id in r.home
    ensures DropOk(r, id) && RosterOk(Apply(r, Drop(id)))
  {
    DropKeeps(r, id);
    var subs := r.live[r.home[id]];
    if Without(subs, id) != [] {
      GroupIsReady(Apply(r, Drop(id)), r.home[id]);
    } else {
      WithoutIs(subs, id);
      forall k | k in r.home && r.home[k] == r.home[id]
        ensures k == id
      {
        assert Lists(subs, k);
        var i :| 0 <= i < |subs| && subs[i].id == k;
      }
    }
  }

  lemma SlicesSame(r: Roster, r': Roster, byConsu: map<U32, array<Subscription>>)
    requires r.live == r'.live && forall d :: d in byConsu ==> SliceFits(byConsu[d], d, r)
    ensures forall d :: d in byConsu ==> SliceFits(byConsu[d], d, r')
  {
    forall d | d in byConsu
      ensures SliceFits(byConsu[d], d, r')
    {
      assert SliceFits(byConsu[d], d, r);
    }
  }

  // The siblings of `c` and their routes name each other.
  ghost predicate Placed(bySub: map<U32, Route>, subs: array<Subscription>, c: U32)
    reads subs
  {
    && (forall a, b :: a in bySub && b in bySub && bySub[a] == bySub[b] ==> a == b)
    && (forall j :: 0 <= j < subs.Length ==>
          subs[j].id in bySub && bySub[subs[j].id].consumerID == c && bySub[subs[j].id].idx == j)
    && (forall id :: id in bySub && bySub[id].consumerID == c ==>
          bySub[id].idx < subs.Length && subs[bySub[id].idx].id == id)
  }

  lemma SiblingsPlaced(r: Roster, c: U32, bySub: map<U32, Route>, byConsu: map<U32, array<Subscription>>)
    requires RosterOk(r) && Links(r, bySub, byConsu) && c in byConsu
    ensures Placed(bySub, byConsu[c], c)
  {
    var subs := byConsu[c];
    assert SliceFits(subs, c, r) && GroupFits(r, c);
    forall id | id in bySub
      ensures RouteFits(bySub[id], id, r, byConsu)
    {
    }
    forall j | 0 <= j < subs.Length
      ensures subs[j].id in bySub && bySub[subs[j].id].consumerID == c && bySub[subs[j].id].idx == j
    {
      assert subs[..][j] == subs[j];
      var rt := bySub[subs[j].id];
      assert RouteFits(rt, subs[j].id, r, byConsu);
      assert subs[..][rt.idx] == subs[rt.idx];
    }
  }

  class Table {
    var bySub: map<U32, Route>
    var byConsu: map<U32, array<Subscription>>
    ghost var roster: Roster

    ghost predicate Valid()
      reads this, bySub.Values, byConsu.Values, set rt | rt in bySub.Values :: rt.subs
    {
      RosterOk(roster) && Linked()
    }

    ghost predicate Linked()
      reads this, bySub.Values, byConsu.Values, set rt | rt in bySub.Values :: rt.subs
    {
      Links(roster, bySub, byConsu)
    }

    twostate predicate RoutesKnown()
      reads this`bySub
    {
      forall id :: id in bySub ==> bySub[id] in old(bySub.Values) || fresh(bySub[id])
    }

    constructor ()
      ensures Valid() && roster == EMPTY && bySub == map[]
    {
      bySub, byConsu, roster := map[], map[], EMPTY;
    }

    // Makes a new route for every sibling of a consumer, on its new slice.
    method Rebuild(c: U32, siblings: array<Subscription>)
      modifies this`bySub
      requires Distinct(siblings[..])
      ensures bySub.Keys == old(bySub.Keys) + Ids(siblings[..])
      ensures forall id :: id in old(bySub) && id !in Ids(siblings[..]) ==> bySub[id] == old(bySub)[id]
      ensures forall i :: 0 <= i < siblings.Length ==>
                Points(bySub, siblings, i, c, ModeOf(old(bySub), siblings[..])) && fresh(bySub[siblings[i].id])
    {
      var fanout := false;
      if siblings.Length > 0 && siblings[0].id in bySub {
        fanout := bySub[siblings[0].id].fanout;
      }
      ghost var was := bySub;
      for i := 0 to siblings.Length
        invariant bySub.Keys == was.Keys + Ids(siblings[..i])
        invariant forall id :: id in was && id !in Ids(siblings[..i]) ==> bySub[id] == was[id]
        invariant forall j :: 0 <= j < i ==> Points(bySub, siblings, j, c, fanout) && fresh(bySub[siblings[j].id])
      {
        assert siblings[..i + 1][..i] == siblings[..i];
        assert forall j :: 0 <= j < i ==> siblings[..][j].id != siblings[..][i].id;
        AddRoute(c, siblings, i, fanout);
      }
      assert siblings[..siblings.Length] == siblings[..];
    }

    method AddRoute(c: U32, siblings: array<Subscription>, i: nat, fanout: bool)
      requires i < siblings.Length
      modifies this`bySub
      ensures siblings[i].id in bySub && bySub == old(bySub)[siblings[i].id := bySub[siblings[i].id]]
      ensures Points(bySub, siblings, i, c, fanout) && fresh(bySub[siblings[i].id])
    {
      var rt := new Route(c, fanout, i, siblings[i].slot, siblings);
      bySub := bySub[siblings[i].id := rt];
    }

    // The routes of a consumer's new slice.
    method PutRoutes(c: U32, siblings: array<Subscription>, ghost r: Roster, ghost all: map<U32, array<Subscription>>)
      requires Ready(r, c, siblings, bySub, all)
      modifies this`bySub
      ensures Links(r, bySub, all) && RoutesKnown()
    {
      ghost var was := bySub;
      Rebuild(c, siblings);
      forall id | id in bySub
        ensures RouteFits(bySub[id], id, r, all) && (bySub[id] in was.Values || fresh(bySub[id]))
      {
        if r.home[id] == c {
          var i := SiblingFits(bySub, siblings, c, r, all, id);
        } else {
          NoSibling(siblings, c, r, id);
        }
      }
    }

    // Makes a new slice the consumer's; `r` is the roster that goes with it.
    method PutSlice(c: U32, siblings: array<Subscription>, ghost r: Roster)
      requires Ready(r, c, siblings, bySub, byConsu[c := siblings])
      modifies this
      ensures Linked() && roster == r && RoutesKnown()
    {
      PutRoutes(c, siblings, r, byConsu[c := siblings]);
      Store(c, siblings, r);
    }

    method Store(c: U32, siblings: array<Subscription>, ghost r: Roster)
      requires Links(r, bySub, byConsu[c := siblings])
      modifies this`byConsu, this`roster
      ensures Linked() && roster == r
    {
      byConsu, roster := byConsu[c := siblings], r;
    }

    // Adds a subscription at the end of a copy of its consumer's slice.
    method Register(sub: Subscription)
      requires Valid() && sub.id !in bySub
      modifies this
      ensures Valid() && roster == Apply(old(roster), Add(sub)) && RoutesKnown()
    {
      var c := sub.consumerID;
      var prev := if c in byConsu then byConsu[c][..] else [];
      var siblings := SliceOf(prev + [sub]);
      AddKeeps(roster, sub);
      GroupIsReady(Apply(roster, Add(sub)), c);
      AddIsReady(roster, sub, siblings, bySub, byConsu);
      PutSlice(c, siblings, Apply(roster, Add(sub)));
    }

    // Drops a subscription; the rest of its consumer's slice is copied.
    method Remove(id: U32)
      requires Valid()
      modifies this
      ensures Valid() && roster == Apply(old(roster), Drop(id)) && RoutesKnown()
    {
      if id !in bySub {
        return;
      }
      var c := bySub[id].consumerID;
      assert RouteFits(bySub[id], id, roster, byConsu);
      DropFacts(roster, id);
      Take(c, id);
    }

    method Take(c: U32, id: U32)
      requires Linked() && id in roster.home && roster.home[id] == c && DropOk(roster, id)
      modifies this
      ensures Linked() && roster == Apply(old(roster), Drop(id)) && RoutesKnown()
    {
      assert SliceFits(byConsu[c], c, roster);
      var kept := KeptOf(byConsu[c], id);
      if |kept| == 0 {
        LastDropLinks(roster, id, bySub, byConsu);
        RemoveLast(c, id);
      } else {
        var slice := SliceOf(kept);
        KeepRest(c, id, slice);
      }
    }

    static method SliceOf(subs: seq<Subscription>) returns (slice: array<Subscription>)
      ensures slice[..] == subs && fresh(slice)
    {
      slice := new Subscription[|subs|](i requires 0 <= i < |subs| => subs[i]);
    }

    method KeepRest(c: U32, id: U32, slice: array<Subscription>)
      requires Linked() && id in roster.home && roster.home[id] == c && c in roster.live && GroupFits(roster, c)
      requires slice[..] == Without(roster.live[c], id) != [] && GroupReady(Apply(roster, Drop(id)), c)
      modifies this
      ensures Linked() && roster == Apply(old(roster), Drop(id)) && RoutesKnown()
    {
      DropIsReady(roster, id, slice, bySub, byConsu);
      Forget(c, id, slice, Apply(roster, Drop(id)));
    }

    method Forget(c: U32, id: U32, slice: array<Subscription>, ghost r: Roster)
      requires Ready(r, c, slice, bySub - {id}, byConsu[c := slice])
      modifies this
      ensures Linked() && roster == r && RoutesKnown()
    {
      bySub := bySub - {id};
      PutSlice(c, slice, r);
    }

    method RemoveLast(c: U32, id: U32)
      requires Links(Apply(roster, Drop(id)), bySub - {id}, byConsu - {c})
      modifies this
      ensures Linked() && roster == Apply(old(roster), Drop(id)) && RoutesKnown()
    {
      bySub, byConsu, roster := bySub - {id}, byConsu - {c}, Apply(roster, Drop(id));
    }

    method KeptOf(siblings: array<Subscription>, id: U32) returns (kept: seq<Subscription>)
      ensures kept == Without(siblings[..], id)
    {
      kept := [];
      for i := 0 to siblings.Length
        invariant kept == Without(siblings[..i], id)
      {
        assert siblings[..i + 1][..i] == siblings[..i];
        if siblings[i].id != id {
          kept := kept + [siblings[i]];
        }
      }
      assert siblings[..siblings.Length] == siblings[..];
    }

    // Flips the delivery mode of every subscription of a consumer.
    method SetFanout(c: U32, fanout: bool)
      requires Valid()
      modifies this`roster, bySub.Values`fanout
      ensures Valid() && roster == Apply(old(roster), SetFan(c, fanout))
    {
      ApplyKeeps(roster, SetFan(c, fanout));
      if c !in byConsu {
        return;
      }
      SiblingsPlaced(roster, c, bySub, byConsu);
      FlipGroup(c, fanout);
    }

    method FlipGroup(c: U32, fanout: bool)
      requires Linked() && c in byConsu && Placed(bySub, byConsu[c], c)
      modifies this`roster, bySub.Values`fanout
      ensures Linked() && roster == Apply(old(roster), SetFan(c, fanout))
    {
      ghost var r := Apply(roster, SetFan(c, fanout));
      SlicesSame(roster, r, byConsu);
      FlipRoutes(c, fanout, r);
      roster := r;
    }

    method FlipRoutes(c: U32, fanout: bool, ghost r: Roster)
      requires c in byConsu && Placed(bySub, byConsu[c], c) && r == Apply(roster, SetFan(c, fanout)) && c in roster.live
      requires forall id :: id in bySub ==> RouteFits(bySub[id], id, roster, byConsu)
      modifies bySub.Values`fanout
      ensures forall id :: id in bySub ==> RouteFits(bySub[id], id, r, byConsu)
    {
      FlipAll(c, byConsu[c], fanout);
      forall id | id in bySub
        ensures RouteFits(bySub[id], id, r, byConsu)
      {
        assert old(RouteFits(bySub[id], id, roster, byConsu));
      }
    }

    method FlipAll(c: U32, subs: array<Subscription>, fanout: bool)
      requires Placed(bySub, subs, c)
      modifies bySub.Values`fanout
      ensures forall id :: id in bySub ==>
                bySub[id].fanout == if bySub[id].consumerID == c then fanout else old(bySub[id].fanout)
    {
      for i := 0 to subs.Length
        invariant forall id :: id in bySub ==>
                    bySub[id].fanout ==
                    if bySub[id].consumerID == c && bySub[id].idx < i then fanout else old(bySub[id].fanout)
      {
        if subs[i].id in bySub {
          bySub[subs[i].id].fanout := fanout;
        }
      }
    }

    // Resolves a delivered id to its route.
    method Lookup(id: U32) returns (rt: Option<Route>)
      requires Valid()
      ensures rt.Some? <==> id in roster.home
      ensures rt.Some? ==> RouteFits(rt.value, id, roster, byConsu) && rt.value.subs[..] == roster.live[roster.home[id]]
      ensures rt.Some? ==> rt.value in bySub.Values
    {
      if id !in bySub {
        return None;
      }
      assert RouteFits(bySub[id], id, roster, byConsu);
      assert SliceFits(byConsu[bySub[id].consumerID], bySub[id].consumerID, roster);
      return Some(bySub[id]);
    }
  }

  // ---- Readers of a route ----

  function RunFrom(r: Roster, ops: seq<Op>): Roster {
    if ops == [] then r else Apply(RunFrom(r, ops[..|ops| - 1]), ops[|ops| - 1])
  }

  predicate AllAllowed(r: Roster, ops: seq<Op>) {
    ops == [] || (AllAllowed(r, ops[..|ops| - 1]) && Allowed(RunFrom(r, ops[..|ops| - 1]), ops[|ops| - 1]))
  }

  method Do(t: Table, op: Op)
    requires t.Valid() && Allowed(t.roster, op)
    modifies t, t.bySub.Values`fanout
    ensures t.Valid() && t.roster == Apply(old(t.roster), op) && t.RoutesKnown()
  {
    match op
    case Add(sub) => t.Register(sub);
    case Drop(id) => t.Remove(id);
    case SetFan(c, fanout) => t.SetFanout(c, fanout);
  }

  // Whatever is registered, removed or flipped, a route some reader was handed
  // before goes on listing what it listed then.
  method DoAll(t: Table, ops: seq<Op>, handed: Route)
    requires t.Valid() && AllAllowed(t.roster, ops)
    modifies t, t.bySub.Values`fanout
    ensures t.Valid() && t.roster == RunFrom(old(t.roster), ops)
    ensures handed.subs[..] == old(handed.subs[..])
  {
    ghost var was := t.roster;
    assert ops[..|ops|] == ops;
    for i := 0 to |ops|
      invariant t.Valid() && t.roster == RunFrom(was, ops[..i])
      invariant forall k :: k in t.bySub ==> t.bySub[k] in old(t.bySub.Values) || fresh(t.bySub[k])
      invariant handed.subs[..] == old(handed.subs[..])
    {
      AllowedAt(was, ops, i);
      assert ops[..i + 1][..i] == ops[..i];
      Do(t, ops[i]);
    }
  }

  lemma {:induction false} AllowedAt(r: Roster, ops: seq<Op>, i: nat)
    requires AllAllowed(r, ops) && i < |ops|
    ensures Allowed(RunFrom(r, ops[..i]), ops[i])
    decreases |ops|
  {
    var k := |ops| - 1;
    if i < k {
      AllowedAt(r, ops[..k], i);
      assert ops[..k][..i] == ops[..i];
    }
  }

  method DeliverOne(sub: Subscription, consumerID: U32, n: U64, subject: Subject)
    modifies sub`inbox
    ensures sub.inbox == old(sub.inbox) + [Delivery(sub.id, consumerID, n, subject)]
  {
    sub.inbox := sub.inbox + [Delivery(sub.id, consumerID, n, subject)];
  }

  // Every sibling whose filter takes the subject is given its own copy exactly
  // once; in queue mode only the one looked up is.
  method FanOut(rt: Route, consumerID: U32, n: U64, subject: Subject)
    requires Distinct(rt.subs[..])
    modifies (set s | s in rt.subs[..])`inbox
    ensures forall i :: 0 <= i < rt.subs.Length ==>
              rt.subs[i].inbox == old(rt.subs[i].inbox)
                + if (if rt.fanout then Takes(rt.subs[i].matcher, subject) else i == rt.idx)
                  then [Delivery(rt.subs[i].id, consumerID, n, subject)] else []
  {
    if !rt.fanout {
      if rt.idx < rt.subs.Length {
        assert rt.subs[rt.idx] in rt.subs[..];
        Siblings(rt.subs);
        DeliverOne(rt.subs[rt.idx], consumerID, n, subject);
      }
      return;
    }
    Siblings(rt.subs);
    for k := 0 to rt.subs.Length
      invariant forall i :: 0 <= i < rt.subs.Length ==>
                  rt.subs[i].inbox == old(rt.subs[i].inbox)
                    + if i < k && Takes(rt.subs[i].matcher, subject)
                      then [Delivery(rt.subs[i].id, consumerID, n, subject)] else []
    {
      var takes := Accepts(rt.subs[k].matcher, subject);
      if takes {
        assert rt.subs[k] in rt.subs[..];
        DeliverOne(rt.subs[k], consumerID, n, subject);
      }
    }
  }

  // Distinct ids, distinct subscriptions.
  lemma Siblings(subs: array<Subscription>)
    requires Distinct(subs[..])
    ensures forall i, j :: 0 <= i < j < subs.Length ==> subs[i] != subs[j]
  {
    assert forall i :: 0 <= i < subs.Length ==> subs[..][i] == subs[i];
  }
}
