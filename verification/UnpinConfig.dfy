/**
 Whether an unpinned item can come back into one VM's config.  The reconcilers' passes and the handlers'
 requests all dump, edit and define the whole document, so a define may carry along any item of an older
 dump, whoever writes it.  Every step of every loop and every request interleaves; the theorem says
 exactly from which states the item can return although nobody asks for it.
*/
module UnpinConfig {
  import opened GoStrings
  import opened Protocol

  /** A loop between passes, or in a pass: the copied pins it has yet to visit, and what it is doing. */
  datatype Pass = Sleeping | Working(todo: set<Item>, job: Phase)

  /** A request in flight: the items it has yet to add or remove, what it will pin, and the dump it holds. */
  datatype Edit = Edit(adds: bool, items: seq<Item>, carry: set<Item>, held: Option<set<Item>>)

  datatype World = World(pins: set<Item>, config: set<Item>, loops: map<Loop, Pass>, edits: map<nat, Edit>)

  datatype Event =
    | Begin(l: Loop)                      // All: a pass copies the loop's pins
    | Visit(l: Loop, x: Item)             // the check of one copied pin
    | TakeDump(l: Loop)
    | DefineDump(l: Loop)
    | AttachOne(l: Loop)
    | Fail(l: Loop)                       // a repair that fails is given up
    | End(l: Loop)
    | Post(id: nat, items: seq<Item>)     // a request to add and pin
    | Fetch(id: nat)                      // a console request keeps the pinned password
    | RequestDump(id: nat)
    | RequestDefine(id: nat)
    | RequestDevice(id: nat)
    | Pin(id: nat)
    | Delete(id: nat, x: Item)            // a request to remove: it unpins first
    | Leave(id: nat)                      // a request that is done or has failed
    | Rewrite(config: set<Item>)          // ZVM

  function Of(s: World, l: Loop): Pass {
    if l in s.loops then s.loops[l] else Sleeping
  }

  function With(s: World, l: Loop, p: Pass): World {
    s.(loops := s.loops[l := p])
  }

  function Own(pins: set<Item>, l: Loop): set<Item> {
    set x | x in pins && Owner(x) == l
  }

  /** What a store drops when it sets or removes the entry of `x`: a console entry goes as a whole. */
  function Entry(x: Item): set<Item> {
    if Owner(x) == VncLoop then {Password, Listen} else {x}
  }

  function Elems(items: seq<Item>): set<Item> {
    set x | x in items
  }

  predicate Busy(s: World, l: Loop) {
    Of(s, l).Working? && !Of(s, l).job.Idle?
  }

  predicate Free(s: World, l: Loop) {
    Of(s, l).Working? && Of(s, l).job.Idle?
  }

  predicate Enabled(e: Event, s: World) {
    match e
    case Begin(l) => Of(s, l).Sleeping?
    case Visit(l, x) => Free(s, l) && x in Of(s, l).todo
    case TakeDump(l) => Busy(s, l) && Of(s, l).job.Decided? && Rewrites(l)
    case DefineDump(l) => Busy(s, l) && Of(s, l).job.Dumped?
    case AttachOne(l) => Busy(s, l) && Of(s, l).job.Decided? && !Rewrites(l)
    case Fail(l) => Busy(s, l)
    case End(l) => Free(s, l) && Of(s, l).todo == {}
    case Post(id, items) => id !in s.edits && items != [] && forall x :: x in items ==> Owner(x) == Owner(items[0])
    case Fetch(id) => id in s.edits && s.edits[id].adds && exists x :: x in s.edits[id].carry && Owner(x) == VncLoop
    case RequestDump(id) =>
      id in s.edits && s.edits[id].items != [] && s.edits[id].held.None? && Rewrites(Owner(s.edits[id].items[0]))
    case RequestDefine(id) => id in s.edits && s.edits[id].items != [] && s.edits[id].held.Some?
    case RequestDevice(id) => id in s.edits && s.edits[id].items != [] && !Rewrites(Owner(s.edits[id].items[0]))
    case Pin(id) => id in s.edits && s.edits[id].adds && s.edits[id].items == []
    case Delete(id, x) => id !in s.edits
    case Leave(id) => id in s.edits
    case Rewrite(_) => true
  }

  function Done(adds: bool, x: Item, config: set<Item>): set<Item> {
    if adds then config + {x} else config - {x}
  }

  function Dropped(carry: set<Item>): set<Item> {
    if exists x :: x in carry && Owner(x) == VncLoop then {Password, Listen} else {}
  }

  function Apply(e: Event, s: World): World
    requires Enabled(e, s)
  {
    match e
    case Begin(l) => With(s, l, Working(Own(s.pins, l), Idle))
    case Visit(l, x) =>
      With(s, l, Working(Of(s, l).todo - {x}, if x in s.config then Idle else Decided(x)))
    case TakeDump(l) => With(s, l, Of(s, l).(job := Dumped(Of(s, l).job.item, s.config)))
    case DefineDump(l) =>
      With(s, l, Of(s, l).(job := Idle)).(config := Of(s, l).job.snap + {Of(s, l).job.item})
    case AttachOne(l) => With(s, l, Of(s, l).(job := Idle)).(config := s.config + {Of(s, l).job.item})
    case Fail(l) => With(s, l, Of(s, l).(job := Idle))
    case End(l) => With(s, l, Sleeping)
    case Post(id, items) => s.(edits := s.edits[id := Edit(true, items, Elems(items), None)])
    case Fetch(id) =>
      var r := s.edits[id];
      s.(edits := s.edits[id := r.(carry := r.carry + s.pins * {Password})])
    case RequestDump(id) => s.(edits := s.edits[id := s.edits[id].(held := Some(s.config))])
    case RequestDefine(id) =>
      var r := s.edits[id];
      s.(config := Done(r.adds, r.items[0], r.held.value),
         edits := s.edits[id := r.(items := r.items[1..], held := None)])
    case RequestDevice(id) =>
      var r := s.edits[id];
      s.(config := Done(r.adds, r.items[0], s.config), edits := s.edits[id := r.(items := r.items[1..], held := None)])
    case Pin(id) =>
      var r := s.edits[id];
      s.(pins := s.pins - Dropped(r.carry) + r.carry, edits := s.edits - {id})
    case Delete(id, x) => s.(pins := s.pins - Entry(x), edits := s.edits[id := Edit(false, [x], {}, None)])
    case Leave(id) => s.(edits := s.edits - {id})
    case Rewrite(c) => s.(config := c)
  }

  /** A new request for the item, or ZVM writing it. */
  predicate Asks(e: Event, x: Item) {
    (e.Post? && x in e.items) || (e.Rewrite? && x in e.config)
  }

  // ---------- states ----------

  predicate PassValid(l: Loop, p: Pass) {
    p.Working? ==>
      && (forall x :: x in p.todo ==> Owner(x) == l)
      && (!p.job.Idle? ==> Owner(p.job.item) == l)
      && (p.job.Dumped? ==> Rewrites(l))
  }

  predicate EditValid(r: Edit) {
    && (r.held.Some? ==> r.items != [])
    && (r.adds ==> Elems(r.items) <= r.carry)
  }

  predicate Valid(s: World) {
    && (forall l :: l in s.loops ==> PassValid(l, s.loops[l]))
    && (forall id :: id in s.edits ==> EditValid(s.edits[id]))
  }

  lemma ValidStays(e: Event, s: World)
    requires Valid(s) && Enabled(e, s)
    ensures Valid(Apply(e, s))
  {
  }

  // ---------- an item that is gone ----------

  /** The pass neither has the item to visit nor holds it. */
  predicate PassFree(x: Item, p: Pass) {
    p.Working? ==>
      && x !in p.todo
      && (!p.job.Idle? ==> p.job.item != x)
      && (p.job.Dumped? ==> x !in p.job.snap)
  }

  /** The request will neither add nor pin the item, and no dump it holds carries it along. */
  predicate EditFree(x: Item, r: Edit) {
    && (r.adds ==> x !in r.items && x !in r.carry)
    && (r.held.Some? && r.items != [] ==> x !in Done(r.adds, r.items[0], r.held.value))
  }

  /** Unpinned, in no config, in no dump in flight and no working pass's copy, and not being added. */
  predicate Gone(x: Item, s: World) {
    && x !in s.pins && x !in s.config
    && (forall l :: l in s.loops ==> PassFree(x, s.loops[l]))
    && (forall id :: id in s.edits ==> EditFree(x, s.edits[id]))
  }

  /** Such an item stays gone, whatever the loops and the requests do, until somebody asks for it. */
  lemma GoneStays(e: Event, s: World, x: Item)
    requires Gone(x, s) && Enabled(e, s) && !Asks(e, x)
    ensures Gone(x, Apply(e, s))
  {
    var t := Apply(e, s);
    forall l | l in t.loops ensures PassFree(x, t.loops[l]) {
      if l in s.loops { assert PassFree(x, s.loops[l]); }
    }
    forall id | id in t.edits ensures EditFree(x, t.edits[id]) {
      if id in s.edits { assert EditFree(x, s.edits[id]); }
    }
    if e.Pin? { assert EditFree(x, s.edits[e.id]); }
    if e.RequestDefine? || e.RequestDevice? { assert EditFree(x, s.edits[e.id]); }
    if e.DefineDump? || e.AttachOne? { assert PassFree(x, s.loops[e.l]); }
  }

  // ---------- runs ----------

  predicate Runs(es: seq<Event>, s: World)
    decreases |es|
  {
    es == [] || (Enabled(es[0], s) && Runs(es[1..], Apply(es[0], s)))
  }

  function After(es: seq<Event>, s: World): World
    requires Runs(es, s)
    decreases |es|
  {
    if es == [] then s else After(es[1..], Apply(es[0], s))
  }

  /** A run in which nobody asks for the item. */
  predicate Quiet(es: seq<Event>, s: World, x: Item) {
    Runs(es, s) && forall i :: 0 <= i < |es| ==> !Asks(es[i], x)
  }

  /** No pass and no request in flight; any pins and any config. */
  predicate Initial(s: World) {
    s.loops == map[] && s.edits == map[]
  }

  /** Every reachable state is valid. */
  lemma {:induction false} RunValid(es: seq<Event>, s: World)
    requires Valid(s) && Runs(es, s)
    ensures Valid(After(es, s))
    decreases |es|
  {
    hide Valid, Enabled, Apply;
    if es != [] {
      ValidStays(es[0], s);
      RunValid(es[1..], Apply(es[0], s));
    }
  }

  /** Some run brings the item into the config although nobody asks for it. */
  ghost predicate CanReturn(x: Item, s: World) {
    exists es :: Quiet(es, s, x) && x in After(es, s).config
  }

  lemma {:induction false} GoneForGood(es: seq<Event>, s: World, x: Item)
    requires Gone(x, s) && Quiet(es, s, x)
    ensures Gone(x, After(es, s))
    decreases |es|
  {
    hide Gone, Enabled, Apply, Asks;
    if es != [] {
      GoneStays(es[0], s, x);
      assert forall i :: 0 <= i < |es[1..]| ==> es[1..][i] == es[i + 1];
      GoneForGood(es[1..], Apply(es[0], s), x);
    }
  }

  lemma Here(x: Item, s: World)
    requires x in s.config
    ensures CanReturn(x, s)
  {
    assert Quiet([], s, x) && After([], s) == s;
  }

  lemma Then(e: Event, s: World, x: Item)
    requires Enabled(e, s) && !Asks(e, x) && CanReturn(x, Apply(e, s))
    ensures CanReturn(x, s)
  {
    hide Enabled, Apply, Asks;
    var es :| Quiet(es, Apply(e, s), x) && x in After(es, Apply(e, s)).config;
    var all := [e] + es;
    assert all[0] == e && all[1..] == es;
    assert Quiet(all, s, x) && After(all, s) == After(es, Apply(e, s));
  }

  /** A loop that holds the item, or a dump with it. */
  lemma JobReturns(x: Item, s: World, l: Loop)
    requires Busy(s, l)
    requires Of(s, l).job.item == x || (Of(s, l).job.Dumped? && x in Of(s, l).job.snap)
    ensures CanReturn(x, s)
  {
    hide CanReturn;
    var job := Of(s, l).job;
    if job.Dumped? {
      Here(x, Apply(DefineDump(l), s));
      Then(DefineDump(l), s, x);
    } else if Rewrites(l) {
      var m := Apply(TakeDump(l), s);
      Here(x, Apply(DefineDump(l), m));
      Then(DefineDump(l), m, x);
      Then(TakeDump(l), s, x);
    } else {
      Here(x, Apply(AttachOne(l), s));
      Then(AttachOne(l), s, x);
    }
  }

  function JobWeight(p: Pass): nat {
    match p
    case Sleeping => 0
    case Working(_, Idle) => 0
    case Working(_, Decided(_)) => 2
    case Working(_, Dumped(_, _)) => 1
  }

  /** The next step of a busy loop. */
  function Next(s: World, l: Loop): Event
    requires Busy(s, l)
  {
    if Of(s, l).job.Dumped? then DefineDump(l) else if Rewrites(l) then TakeDump(l) else AttachOne(l)
  }

  lemma NextStep(s: World, l: Loop, x: Item)
    requires Busy(s, l)
    ensures Enabled(Next(s, l), s) && !Asks(Next(s, l), x)
    ensures var m := Apply(Next(s, l), s);
      && Of(m, l).Working? && Of(m, l).todo == Of(s, l).todo && m.pins == s.pins && m.edits == s.edits
      && JobWeight(Of(m, l)) < JobWeight(Of(s, l))
  {
  }

  /** A pass that copied the item and has yet to visit it. */
  lemma {:induction false} TodoReturns(x: Item, s: World, l: Loop)
    requires Of(s, l).Working? && x in Of(s, l).todo
    ensures CanReturn(x, s)
    decreases JobWeight(Of(s, l))
  {
    hide CanReturn;
    if Of(s, l).job.Idle? {
      if x in s.config {
        Here(x, s);
      } else {
        JobReturns(x, Apply(Visit(l, x), s), l);
        Then(Visit(l, x), s, x);
      }
    } else {
      NextStep(s, l, x);
      TodoReturns(x, Apply(Next(s, l), s), l);
      Then(Next(s, l), s, x);
    }
  }

  function Left(p: Pass): nat {
    if p.Working? then |p.todo| + 1 else 0
  }

  /** A pinned item: the pass in progress ends, and the next one copies it. */
  lemma {:induction false} PinReturns(x: Item, s: World)
    requires x in s.pins
    ensures CanReturn(x, s)
    decreases Left(Of(s, Owner(x))), JobWeight(Of(s, Owner(x)))
  {
    hide CanReturn;
    var l := Owner(x);
    if Of(s, l).Sleeping? {
      TodoReturns(x, Apply(Begin(l), s), l);
      Then(Begin(l), s, x);
    } else if Busy(s, l) {
      NextStep(s, l, x);
      PinReturns(x, Apply(Next(s, l), s));
      Then(Next(s, l), s, x);
    } else if Of(s, l).todo == {} {
      PinReturns(x, Apply(End(l), s));
      Then(End(l), s, x);
    } else {
      var y :| y in Of(s, l).todo;
      VisitShrinks(s, l, y);
      PinReturns(x, Apply(Visit(l, y), s));
      Then(Visit(l, y), s, x);
    }
  }

  lemma VisitShrinks(s: World, l: Loop, y: Item)
    requires Free(s, l) && y in Of(s, l).todo
    ensures Left(Of(Apply(Visit(l, y), s), l)) < Left(Of(s, l))
  {
  }

  /** A request that holds a dump whose define has the item. */
  lemma HeldReturns(x: Item, s: World, id: nat)
    requires id in s.edits && s.edits[id].items != [] && s.edits[id].held.Some?
    requires var r := s.edits[id]; x in Done(r.adds, r.items[0], r.held.value)
    ensures CanReturn(x, s)
  {
    hide CanReturn;
    Here(x, Apply(RequestDefine(id), s));
    Then(RequestDefine(id), s, x);
  }

  function HeldWeight(r: Edit): nat {
    if r.held.None? then 1 else 0
  }

  /** A request to add: it writes its items one by one and then pins what it carries. */
  lemma {:induction false} AddReturns(x: Item, s: World, id: nat)
    requires id in s.edits && s.edits[id].adds && EditValid(s.edits[id]) && x in s.edits[id].carry
    ensures CanReturn(x, s)
    decreases |s.edits[id].items|, HeldWeight(s.edits[id])
  {
    hide CanReturn;
    var r := s.edits[id];
    if r.items == [] {
      PinReturns(x, Apply(Pin(id), s));
      Then(Pin(id), s, x);
    } else {
      var e := if r.held.Some? then RequestDefine(id)
               else if Rewrites(Owner(r.items[0])) then RequestDump(id)
               else RequestDevice(id);
      assert Elems(r.items[1..]) <= Elems(r.items);
      AddReturns(x, Apply(e, s), id);
      Then(e, s, x);
    }
  }

  /** Exactly: an item comes back without being asked for, in some interleaving, from every state in which
      it is still pinned, written, copied, dumped or carried by a request, and from no other. */
  lemma CanReturnIff(x: Item, s: World)
    requires Valid(s)
    ensures CanReturn(x, s) <==> !Gone(x, s)
  {
    if Gone(x, s) {
      forall es | Quiet(es, s, x) ensures x !in After(es, s).config { GoneForGood(es, s, x); }
    } else {
      hide CanReturn;
      if x in s.config { Here(x, s); }
      else if x in s.pins { PinReturns(x, s); }
      else if l :| l in s.loops && !PassFree(x, s.loops[l]) {
        if x in s.loops[l].todo { TodoReturns(x, s, l); } else { JobReturns(x, s, l); }
      } else {
        var id :| id in s.edits && !EditFree(x, s.edits[id]);
        assert EditValid(s.edits[id]);
        if s.edits[id].adds && (x in s.edits[id].items || x in s.edits[id].carry) {
          assert x in s.edits[id].items ==> x in Elems(s.edits[id].items);
          AddReturns(x, s, id);
        } else {
          HeldReturns(x, s, id);
        }
      }
    }
  }

  /** So it is in every state that a run of the loops, the requests and ZVM reaches, whatever was asked for
      on the way. */
  lemma ReachedCanReturnIff(es: seq<Event>, s: World, x: Item)
    requires Initial(s) && Runs(es, s)
    ensures CanReturn(x, After(es, s)) <==> !Gone(x, After(es, s))
  {
    hide CanReturn, Gone, Runs, After;
    RunValid(es, s);
    CanReturnIff(x, After(es, s));
  }

  // ---------- a pass that began after the unpin ----------

  /** The item of any other store is unpinned and removed while a console pass that began after the unpin
      repairs the password: it dumps before the removal and defines after it. */
  function LaterPass(x: Item): seq<Event> {
    [Delete(0, x), Begin(VncLoop), Visit(VncLoop, Password), TakeDump(VncLoop)]
    + Removal(x) + [Leave(0), DefineDump(VncLoop)]
  }

  /** One step of a quiet run. */
  predicate Goes(e: Event, s: World, t: World, x: Item) {
    Enabled(e, s) && !Asks(e, x) && Apply(e, s) == t
  }

  lemma Cons(e: Event, es: seq<Event>, s: World, t: World, x: Item)
    requires Goes(e, s, t, x) && Quiet(es, t, x)
    ensures Quiet([e] + es, s, x) && After([e] + es, s) == After(es, t)
  {
    hide Enabled, Apply, Asks;
    assert ([e] + es)[0] == e && ([e] + es)[1..] == es;
  }

  function Start(x: Item): World {
    World({x, Password}, {x}, map[], map[])
  }

  /** The unpin, and the pass up to its dump. */
  function Dumping(x: Item): World {
    World({Password}, {x}, map[VncLoop := Working({}, Dumped(Password, {x}))], map[0 := Edit(false, [x], {}, None)])
  }

  /** The removal is done. */
  function Removed(x: Item): World {
    World({Password}, {}, map[VncLoop := Working({}, Dumped(Password, {x}))], map[0 := Edit(false, [], {}, None)])
  }

  lemma ToDump(x: Item, es: seq<Event>)
    requires Owner(x) != VncLoop && Quiet(es, Dumping(x), x)
    ensures var all := [Delete(0, x), Begin(VncLoop), Visit(VncLoop, Password), TakeDump(VncLoop)] + es;
      Quiet(all, Start(x), x) && After(all, Start(x)) == After(es, Dumping(x))
  {
    hide Goes, Dumping, Start, Quiet, After;
    FirstSteps(x);
    LastSteps(x);
    var a := [TakeDump(VncLoop)] + es;
    var b := [Visit(VncLoop, Password)] + a;
    var c := [Begin(VncLoop)] + b;
    Cons(TakeDump(VncLoop), es, Visited(x), Dumping(x), x);
    Cons(Visit(VncLoop, Password), a, Begun(x), Visited(x), x);
    Cons(Begin(VncLoop), b, Unpinned(x), Begun(x), x);
    Cons(Delete(0, x), c, Start(x), Unpinned(x), x);
    assert [Delete(0, x)] + c == [Delete(0, x), Begin(VncLoop), Visit(VncLoop, Password), TakeDump(VncLoop)] + es;
  }

  function Unpinned(x: Item): World {
    World({Password}, {x}, map[], map[0 := Edit(false, [x], {}, None)])
  }

  function Begun(x: Item): World {
    Unpinned(x).(loops := map[VncLoop := Working({Password}, Idle)])
  }

  function Visited(x: Item): World {
    Unpinned(x).(loops := map[VncLoop := Working({}, Decided(Password))])
  }

  lemma FirstSteps(x: Item)
    requires Owner(x) != VncLoop
    ensures Goes(Delete(0, x), Start(x), Unpinned(x), x) && Goes(Begin(VncLoop), Unpinned(x), Begun(x), x)
  {
    assert {x, Password} - {x} == {Password};
    assert Own({Password}, VncLoop) == {Password};
  }

  lemma LastSteps(x: Item)
    requires Owner(x) != VncLoop
    ensures Goes(Visit(VncLoop, Password), Begun(x), Visited(x), x)
    ensures Goes(TakeDump(VncLoop), Visited(x), Dumping(x), x)
  {
    assert Password !in {x} && {Password} - {Password} == {};
  }

  function Removal(x: Item): seq<Event> {
    if Rewrites(Owner(x)) then [RequestDump(0), RequestDefine(0)] else [RequestDevice(0)]
  }

  lemma ToRemoved(x: Item, es: seq<Event>)
    requires Owner(x) != VncLoop && Quiet(es, Removed(x), x)
    ensures Quiet(Removal(x) + es, Dumping(x), x) && After(Removal(x) + es, Dumping(x)) == After(es, Removed(x))
  {
    hide Goes, Dumping, Removed, Quiet, After;
    if Rewrites(Owner(x)) {
      RemovalSteps(x);
      Cons(RequestDefine(0), es, InHand(x), Removed(x), x);
      Cons(RequestDump(0), [RequestDefine(0)] + es, Dumping(x), InHand(x), x);
      assert [RequestDump(0)] + ([RequestDefine(0)] + es) == [RequestDump(0), RequestDefine(0)] + es;
    } else {
      DetachStep(x);
      Cons(RequestDevice(0), es, Dumping(x), Removed(x), x);
    }
  }

  function InHand(x: Item): World {
    Dumping(x).(edits := map[0 := Edit(false, [x], {}, Some({x}))])
  }

  lemma RemovalSteps(x: Item)
    requires Rewrites(Owner(x))
    ensures Goes(RequestDump(0), Dumping(x), InHand(x), x) && Goes(RequestDefine(0), InHand(x), Removed(x), x)
  {
    assert [x][1..] == [] && {x} - {x} == {};
  }

  lemma DetachStep(x: Item)
    requires !Rewrites(Owner(x))
    ensures Goes(RequestDevice(0), Dumping(x), Removed(x), x)
  {
    assert [x][1..] == [] && {x} - {x} == {};
  }

  lemma ToBack(x: Item)
    ensures var es := [Leave(0), DefineDump(VncLoop)];
      Quiet(es, Removed(x), x)
      && After(es, Removed(x)) == World({Password}, {x, Password}, map[VncLoop := Working({}, Idle)], map[])
  {
    var s6 := Removed(x).(edits := map[]);
    var s7 := World({Password}, {x, Password}, map[VncLoop := Working({}, Idle)], map[]);
    assert Goes(Leave(0), Removed(x), s6, x);
    assert {x} + {Password} == {x, Password};
    assert Goes(DefineDump(VncLoop), s6, s7, x);
    assert Quiet([], s7, x);
    Cons(DefineDump(VncLoop), [], s6, s7, x);
    assert [DefineDump(VncLoop)] + [] == [DefineDump(VncLoop)];
    Cons(Leave(0), [DefineDump(VncLoop)], Removed(x), s6, x);
    assert [Leave(0)] + [DefineDump(VncLoop)] == [Leave(0), DefineDump(VncLoop)];
  }

  /** A pass that began after the unpin brings the item back for good: afterwards it is not pinned, no request
      is in flight, and it is in the config. */
  lemma LaterPassReturns(x: Item)
    requires Owner(x) != VncLoop
    ensures Quiet(LaterPass(x), Start(x), x)
    ensures var t := After(LaterPass(x), Start(x)); x !in t.pins && x in t.config && t.edits == map[]
  {
    var es := [Leave(0), DefineDump(VncLoop)];
    hide Quiet, After;
    ToBack(x);
    ToRemoved(x, es);
    ToDump(x, Removal(x) + es);
    var front := [Delete(0, x), Begin(VncLoop), Visit(VncLoop, Password), TakeDump(VncLoop)];
    assert LaterPass(x) == front + (Removal(x) + es);
    assert x != Password;
  }
}
