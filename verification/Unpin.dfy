/**
 Unpinning against reconciler passes, for all four stores.  Each loop copies its store once per pass
 (All) and then works through the copy, while the handlers pin and unpin under their own lock; every
 step interleaves with every other.  The log is the whole history.

 This is about what a pass sets out to repair.  What the define of an older dump carries along besides is
 in UnpinConfig.
*/
module Unpin {
  import opened Protocol

  /** One pinned item of one VM. */
  datatype Target = Target(vm: string, item: Item)

  /** A repair carries the log position at which its pass copied the store. */
  datatype Event =
    | Pinned(x: Target)
    | Unpinned(x: Target)
    | Began(loop: Loop)
    | Repaired(x: Target, began: nat)

  /** A loop between passes, or in a pass over the targets it copied. */
  datatype Pass = Sleeping | Working(copied: set<Target>, began: nat)

  datatype History = History(pins: set<Target>, passes: map<Loop, Pass>, log: seq<Event>)

  predicate Start(s: History) {
    s.log == [] && s.pins == {} && forall l :: l in s.passes ==> s.passes[l].Sleeping?
  }

  // ---------- steps ----------

  predicate DoPin(s: History, t: History, x: Target) {
    t == s.(pins := s.pins + {x}, log := s.log + [Pinned(x)])
  }

  predicate DoUnpin(s: History, t: History, x: Target) {
    t == s.(pins := s.pins - {x}, log := s.log + [Unpinned(x)])
  }

  function Own(pins: set<Target>, l: Loop): set<Target> {
    set x | x in pins && Owner(x.item) == l
  }

  /** All: the loop copies its own pins. */
  predicate DoBegin(s: History, t: History, l: Loop) {
    && (l in s.passes ==> s.passes[l].Sleeping?)
    && t == s.(passes := s.passes[l := Working(Own(s.pins, l), |s.log|)], log := s.log + [Began(l)])
  }

  /** A repair of any copied target; whether the domain needed it does not matter here. */
  predicate DoRepair(s: History, t: History, x: Target) {
    && Owner(x.item) in s.passes && s.passes[Owner(x.item)].Working? && x in s.passes[Owner(x.item)].copied
    && t == s.(log := s.log + [Repaired(x, s.passes[Owner(x.item)].began)])
  }

  predicate DoEnd(s: History, t: History, l: Loop) {
    t == s.(passes := s.passes[l := Sleeping])
  }

  ghost predicate Step(s: History, t: History) {
    || (exists x :: DoPin(s, t, x)) || (exists x :: DoUnpin(s, t, x)) || (exists x :: DoRepair(s, t, x))
    || (exists l :: DoBegin(s, t, l)) || (exists l :: DoEnd(s, t, l))
  }

  ghost predicate IsRun(run: seq<History>) {
    0 < |run| && Start(run[0]) && forall i :: 0 <= i < |run| - 1 ==> Step(run[i], run[i + 1])
  }

  // ---------- the history ----------

  function Change(pins: set<Target>, e: Event): set<Target> {
    match e
    case Pinned(x) => pins + {x}
    case Unpinned(x) => pins - {x}
    case _ => pins
  }

  /** The pins after a history. */
  function PinsAfter(log: seq<Event>): set<Target> {
    if log == [] then {} else Change(PinsAfter(log[..|log| - 1]), log[|log| - 1])
  }

  lemma {:induction false} StaysUnpinned(log: seq<Event>, u: nat, b: nat, x: Target)
    requires u < b <= |log| && log[u] == Unpinned(x) && forall j :: u < j < b ==> log[j] != Pinned(x)
    ensures x !in PinsAfter(log[..b])
    decreases b
  {
    assert log[..b][..b - 1] == log[..b - 1];
    if u + 1 < b { StaysUnpinned(log, u, b - 1, x); }
  }

  /** A recorded pass start: its position in the log, and the pins it copied. */
  predicate Copied(log: seq<Event>, x: Target, began: nat) {
    began < |log| && log[began] == Began(Owner(x.item)) && x in PinsAfter(log[..began])
  }

  ghost predicate PassesOk(s: History) {
    forall l, x :: l in s.passes && s.passes[l].Working? && x in s.passes[l].copied ==>
      Owner(x.item) == l && Copied(s.log, x, s.passes[l].began)
  }

  predicate RepairOk(log: seq<Event>, k: nat) {
    k < |log| && log[k].Repaired? ==> log[k].began < k && Copied(log, log[k].x, log[k].began)
  }

  ghost predicate Inv(s: History) {
    && s.pins == PinsAfter(s.log) && PassesOk(s)
    && forall k: nat :: k < |s.log| ==> RepairOk(s.log, k)
  }

  lemma CopiedGrows(log: seq<Event>, e: Event, x: Target, began: nat)
    requires Copied(log, x, began)
    ensures Copied(log + [e], x, began)
  {
    assert (log + [e])[..began] == log[..began];
  }

  lemma GrowAll(log: seq<Event>, e: Event)
    ensures forall x, began: nat :: Copied(log, x, began) ==> Copied(log + [e], x, began)
    ensures PinsAfter((log + [e])[..|log|]) == PinsAfter(log)
  {
    forall x, began: nat | Copied(log, x, began) ensures Copied(log + [e], x, began) { CopiedGrows(log, e, x, began); }
    assert (log + [e])[..|log|] == log;
  }

  lemma InvStep(s: History, t: History)
    requires Inv(s) && Step(s, t)
    ensures Inv(t)
  {
    hide Copied, PinsAfter;
    if |t.log| == |s.log| {
      SlotFreed(s, t);
    } else {
      var e := t.log[|s.log|];
      Appended(s.log, e);
      RepairsStay(s, e);
      assert t.log == s.log + [e];
      match e
      case Pinned(x) => PassesStay(s, t, e);
      case Unpinned(x) => PassesStay(s, t, e);
      case Repaired(x, began) => PassesStay(s, t, e); InvRepair(s, t, x);
      case Began(l) => InvBegin(s, t, l);
    }
  }

  lemma SlotFreed(s: History, t: History)
    requires Inv(s) && Step(s, t) && |t.log| == |s.log|
    ensures Inv(t)
  {
    hide Copied, PinsAfter, RepairOk;
    var l :| DoEnd(s, t, l);
    forall m, x | m in t.passes && t.passes[m].Working? && x in t.passes[m].copied
      ensures Owner(x.item) == m && Copied(t.log, x, t.passes[m].began)
    {
      assert m != l && x in s.passes[m].copied;
    }
  }

  lemma RepairsStay(s: History, e: Event)
    requires Inv(s)
    ensures forall k: nat :: k < |s.log| ==> RepairOk(s.log + [e], k)
  {
    hide Copied;
    GrowAll(s.log, e);
    forall k: nat | k < |s.log| ensures RepairOk(s.log + [e], k) {
      assert RepairOk(s.log, k) && (s.log + [e])[k] == s.log[k];
    }
  }

  lemma PassesStay(s: History, t: History, e: Event)
    requires Inv(s) && t.passes == s.passes && t.log == s.log + [e]
    ensures PassesOk(t)
  {
    hide Copied;
    GrowAll(s.log, e);
    forall l, x | l in t.passes && t.passes[l].Working? && x in t.passes[l].copied
      ensures Owner(x.item) == l && Copied(t.log, x, t.passes[l].began)
    {
      assert x in s.passes[l].copied;
    }
  }

  lemma InvRepair(s: History, t: History, x: Target)
    requires Inv(s) && DoRepair(s, t, x)
    ensures RepairOk(t.log, |s.log|)
  {
    hide Copied;
    var began := s.passes[Owner(x.item)].began;
    assert x in s.passes[Owner(x.item)].copied;
    CopiedBelow(s.log, x, began);
    CopiedGrows(s.log, Repaired(x, began), x, began);
  }

  lemma InvBegin(s: History, t: History, l: Loop)
    requires Inv(s) && DoBegin(s, t, l)
    ensures PassesOk(t)
  {
    hide Copied, PinsAfter;
    GrowAll(s.log, Began(l));
    forall m, x | m in t.passes && t.passes[m].Working? && x in t.passes[m].copied
      ensures Owner(x.item) == m && Copied(t.log, x, t.passes[m].began)
    {
      if m == l { Begins(s.log, x); } else { assert x in s.passes[m].copied; }
    }
  }

  lemma Appended(log: seq<Event>, e: Event)
    ensures PinsAfter(log + [e]) == Change(PinsAfter(log), e)
  {
    assert (log + [e])[..|log|] == log;
  }

  lemma CopiedBelow(log: seq<Event>, x: Target, began: nat)
    requires Copied(log, x, began)
    ensures began < |log|
  {
  }

  lemma Begins(log: seq<Event>, x: Target)
    requires x in PinsAfter(log)
    ensures Copied(log + [Began(Owner(x.item))], x, |log|)
  {
    assert (log + [Began(Owner(x.item))])[..|log|] == log;
  }

  lemma {:induction false} InvRun(run: seq<History>)
    requires IsRun(run)
    ensures Inv(run[|run| - 1])
    decreases |run|
  {
    hide Inv, Step;
    if |run| == 1 {
      InvStart(run[0]);
    } else {
      var front := run[..|run| - 1];
      forall i | 0 <= i < |front| - 1 ensures Step(front[i], front[i + 1]) { assert Step(run[i], run[i + 1]); }
      InvRun(front);
      assert Step(run[|run| - 2], run[|run| - 2 + 1]);
      InvStep(run[|run| - 2], run[|run| - 1]);
    }
  }

  lemma InvStart(s: History)
    requires Start(s)
    ensures Inv(s)
  {
  }

  /** In every run, a reconciler repairs only what was pinned when its pass copied the store.  So after
      an unpin no pass repairs the item on that VM until it is pinned again, except a pass whose copy is
      older than the unpin. */
  lemma UnpinHolds(run: seq<History>, u: nat, k: nat)
    requires IsRun(run) && u < k < |run[|run| - 1].log|
    requires var log := run[|run| - 1].log; log[u].Unpinned? && log[k].Repaired? && log[k].x == log[u].x
    ensures var log, x := run[|run| - 1].log, run[|run| - 1].log[u].x; var began := log[k].began;
      && began < k && log[began] == Began(Owner(x.item)) && x in PinsAfter(log[..began])
      && (began < u || exists p :: u < p < began && log[p] == Pinned(x))
  {
    hide PinsAfter;
    InvRun(run);
    var log := run[|run| - 1].log;
    assert RepairOk(log, k);
    var x, began := log[u].x, log[k].began;
    if began >= u && forall p :: u < p < began ==> log[p] != Pinned(x) {
      assert began != u;
      StaysUnpinned(log, u, began, x);
      assert false;
    }
  }

  /** The exception happens: a pass that copied the store before the unpin still repairs the item. */
  lemma OlderPassStillRepairs(x: Target) returns (run: seq<History>)
    ensures IsRun(run) && x !in run[|run| - 1].pins
    ensures run[|run| - 1].log == [Pinned(x), Began(Owner(x.item)), Unpinned(x), Repaired(x, 1)]
  {
    var l := Owner(x.item);
    var s0 := History({}, map[], []);
    var s1 := History({x}, map[], [Pinned(x)]);
    var s2 := History({x}, map[l := Working({x}, 1)], [Pinned(x), Began(l)]);
    var s3 := History({}, map[l := Working({x}, 1)], [Pinned(x), Began(l), Unpinned(x)]);
    var s4 := s3.(log := [Pinned(x), Began(l), Unpinned(x), Repaired(x, 1)]);
    assert DoPin(s0, s1, x);
    assert Own({x}, l) == {x};
    assert DoBegin(s1, s2, l);
    assert DoUnpin(s2, s3, x);
    assert DoRepair(s3, s4, x);
    run := [s0, s1, s2, s3, s4];
  }
}
