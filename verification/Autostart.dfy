/** internal/autostart/store.go: the autostart entries and one boot orchestration. */
module Autostart {
  import opened GoStrings

  datatype Entry = Entry(name: string, enabled: bool, order: Int, delayS: Int, watchdog: bool)

  /** Ascending by Order; entries of equal Order stay in any order. */
  predicate Ordered(es: seq<Entry>) {
    forall i, j :: 0 <= i < j < |es| ==> es[i].order <= es[j].order
  }

  predicate Keyed(data: map<string, Entry>) {
    forall n :: n in data ==> data[n].name == n
  }

  /** `es` lists every entry of `data` once. */
  predicate IsListing(es: seq<Entry>, data: map<string, Entry>) {
    && (forall i :: 0 <= i < |es| ==> es[i].name in data && data[es[i].name] == es[i])
    && (forall i, j :: 0 <= i < j < |es| ==> es[i].name != es[j].name)
    && (forall n :: n in data ==> data[n] in es)
  }

  /** What a start attempt leaves behind. */
  datatype Start = Start(name: string, order: Int)

  /** The domains as virsh reports them; domains missing here make State fail.  libvirt answers once
      ListDomains has been asked `slow` times. */
  class Controller {
    var states: map<string, string>
    var asked: nat
    const slow: nat
    const broken: set<string>
    ghost var starts: seq<Start>

    constructor (states: map<string, string>, slow: nat, broken: set<string>)
      ensures this.states == states && this.slow == slow && this.broken == broken && asked == 0 && starts == []
    {
      this.states := states;
      this.slow := slow;
      this.broken := broken;
      asked := 0;
      starts := [];
    }

    method ListDomains() returns (ok: bool)
      modifies this`asked
      ensures ok == (old(asked) >= slow) && asked == old(asked) + 1
    {
      ok := asked >= slow;
      asked := asked + 1;
    }

    method State(name: string) returns (state: Option<string>)
      ensures state == if name in states then Some(states[name]) else None
    {
      state := if name in states then Some(states[name]) else None;
    }

    /** A start is attempted; a broken domain stays as it is. */
    method StartVm(e: Entry) returns (ok: bool)
      modifies this`states, this`starts
      ensures starts == old(starts) + [Start(e.name, e.order)]
      ensures ok == (e.name in old(states) && e.name !in broken)
      ensures states == if ok then old(states)[e.name := "running"] else old(states)
    {
      starts := starts + [Start(e.name, e.order)];
      ok := e.name in states && e.name !in broken;
      if ok { states := states[e.name := "running"]; }
    }
  }

  /** The entries one orchestration starts: enabled, known to virsh and not running. */
  predicate ToStart(e: Entry, states: map<string, string>) {
    e.enabled && e.name in states && states[e.name] != "running"
  }

  function StartsOf(es: seq<Entry>, states: map<string, string>): seq<Start> {
    if es == [] then [] else
    var e := es[|es| - 1];
    StartsOf(es[..|es| - 1], states) + (if ToStart(e, states) then [Start(e.name, e.order)] else [])
  }

  class Store {
    var data: map<string, Entry>

    constructor ()
      ensures data == map[]
    {
      data := map[];
    }

    /** Set: names are required, negative delays become 0. */
    method Set(e: Entry) returns (r: Option<Entry>)
      requires Keyed(data)
      modifies this
      ensures Keyed(data) && r.None? == (e.name == "")
      ensures r.None? ==> data == old(data)
      ensures r.Some? ==>
          r.value == e.(delayS := if e.delayS < 0 then 0 else e.delayS) && data == old(data)[e.name := r.value]
    {
      if e.name == "" { return None; }
      var stored := e;
      if stored.delayS < 0 { stored := stored.(delayS := 0); }
      data := data[e.name := stored];
      r := Some(stored);
    }

    /** All: the entries, sorted by Order. */
    method All() returns (es: seq<Entry>)
      requires Keyed(data)
      ensures IsListing(es, data) && Ordered(es)
    {
      es := [];
      var left := data.Keys;
      while left != {}
        invariant left <= data.Keys && Ordered(es)
        invariant forall i :: 0 <= i < |es| ==> es[i].name in data && es[i].name !in left && data[es[i].name] == es[i]
        invariant forall i, j :: 0 <= i < j < |es| ==> es[i].name != es[j].name
        invariant forall n :: n in data && n !in left ==> data[n] in es
        decreases left
      {
        var n :| n in left;
        left := left - {n};
        assert data[n].name == n;
        InsertKeeps(es, data[n]);
        es := InsertByOrder(es, data[n]);
        assert forall i :: 0 <= i < |es| ==> es[i] in es;
      }
    }

    /** The body of the orchestration's loop; a return is the loop's `continue`. */
    method StartEntry(vc: Controller, e: Entry)
      modifies vc`states, vc`starts
      ensures vc.starts == old(vc.starts) + (if ToStart(e, old(vc.states)) then [Start(e.name, e.order)] else [])
      ensures vc.states.Keys == old(vc.states).Keys
      ensures forall n :: n in vc.states && n != e.name ==> vc.states[n] == old(vc.states)[n]
      ensures e.name in vc.states ==>
          vc.states[e.name]
          == if e.enabled && e.name !in vc.broken then "running" else old(vc.states)[e.name]
    {
      if !e.enabled { return; }
      var state := vc.State(e.name);
      if state.None? { return; }
      if state.value == "running" { return; }
      var ok := vc.StartVm(e);
    }

    /** One orchestration: a marker already written stops it before the first start, and so does libvirt
        staying silent for twelve polls.  Otherwise a start of each enabled VM that virsh reports as anything but
        running is attempted, in Order and once, and of no other; afterwards every enabled VM that can be started
        is running, and the others are as they were. */
    method Run(vc: Controller, marker: bool) returns (written: bool, ghost es: seq<Entry>)
      requires Keyed(data)
      modifies vc
      ensures IsListing(es, data) && Ordered(es)
      ensures written <==> !marker && old(vc.asked) + 12 > vc.slow
      ensures !written ==> vc.starts == old(vc.starts) && vc.states == old(vc.states)
      ensures written ==> vc.starts == old(vc.starts) + StartsOf(es, old(vc.states))
      ensures vc.states.Keys == old(vc.states).Keys
      ensures written ==> forall n :: n in vc.states ==>
          vc.states[n] == if n in data && data[n].enabled && n !in vc.broken then "running" else old(vc.states)[n]
    {
      var all := All();
      es := all;
      if marker { return false, all; }
      var ready := false;
      for i := 0 to MAX_TRIES
        invariant !ready && vc.asked == old(vc.asked) + i && (i > 0 ==> vc.asked <= vc.slow)
        invariant vc.starts == old(vc.starts) && vc.states == old(vc.states)
      {
        var ok := vc.ListDomains();
        if ok {
          ready := true;
          break;
        }
      }
      if !ready { return false, all; }
      Begin(all, data, vc.broken, old(vc.states));
      hide Later, StartedUpTo, StartsOf, ToStart, IsListing, Ordered, Unique;
      for i := 0 to |all|
        invariant vc.starts == old(vc.starts) + StartsOf(all[..i], old(vc.states))
        invariant vc.states.Keys == old(vc.states).Keys
        invariant Later(all, i, old(vc.states), vc.states)
        invariant StartedUpTo(all, i, vc.broken, old(vc.states), vc.states)
      {
        ghost var before := vc.states;
        StartEntry(vc, all[i]);
        OneMore(all, i, vc.broken, old(vc.states), before, vc.states);
      }
      assert all[..|all|] == all;
      StartedAll(all, data, vc.broken, old(vc.states), vc.states);
      written := true;
    }
  }

  const MAX_TRIES := 12

  /** The states of the entries still to come are those the orchestration began with. */
  predicate Later(es: seq<Entry>, i: nat, was: map<string, string>, now: map<string, string>) {
    now.Keys == was.Keys && forall j :: i <= j < |es| && es[j].name in now ==> now[es[j].name] == was[es[j].name]
  }

  /** An entry whose VM the orchestration brings up: enabled, and virsh can start it. */
  predicate Brought(e: Entry, broken: set<string>) {
    e.enabled && e.name !in broken
  }

  /** The VMs after the first `i` entries. */
  ghost predicate StartedUpTo(es: seq<Entry>, i: nat, broken: set<string>, was: map<string, string>,
      now: map<string, string>)
  {
    now.Keys == was.Keys && i <= |es| &&
    forall n :: n in now ==>
      now[n] == if exists j :: 0 <= j < i && es[j].name == n && Brought(es[j], broken) then "running" else was[n]
  }

  lemma Begin(es: seq<Entry>, data: map<string, Entry>, broken: set<string>, was: map<string, string>)
    requires IsListing(es, data)
    ensures Unique(es) && Later(es, 0, was, was) && StartedUpTo(es, 0, broken, was, was) && StartsOf(es[..0], was) == []
  {
  }

  /** What one round of the loop adds. */
  lemma OneMore(es: seq<Entry>, i: nat, broken: set<string>, was: map<string, string>,
      before: map<string, string>, now: map<string, string>)
    requires i < |es| && Unique(es) && Later(es, i, was, before) && StartedUpTo(es, i, broken, was, before)
    requires now.Keys == before.Keys && forall n :: n in now && n != es[i].name ==> now[n] == before[n]
    requires es[i].name in now ==>
        now[es[i].name] == if es[i].enabled && es[i].name !in broken then "running" else before[es[i].name]
    ensures Later(es, i + 1, was, now) && StartedUpTo(es, i + 1, broken, was, now)
    ensures StartsOf(es[..i + 1], was)
            == StartsOf(es[..i], was) + (if ToStart(es[i], before) then [Start(es[i].name, es[i].order)] else [])
  {
    SameStart(es, i, was, before);
    StartsMore(es, i, was);
    hide StartsOf, ToStart, Later, StartedUpTo, Unique;
    LaterStays(es, i, was, before, now);
    StartedOneMore(es, i, broken, was, before, now);
  }

  lemma StartedOneMore(es: seq<Entry>, i: nat, broken: set<string>, was: map<string, string>,
      before: map<string, string>, now: map<string, string>)
    requires i < |es| && StartedUpTo(es, i, broken, was, before) && now.Keys == before.Keys && Unique(es)
    requires forall n :: n in now && n != es[i].name ==> now[n] == before[n]
    requires es[i].name in now ==>
        now[es[i].name] == if es[i].enabled && es[i].name !in broken then "running" else before[es[i].name]
    ensures StartedUpTo(es, i + 1, broken, was, now)
  {
    forall n | n in now
      ensures now[n] == if exists j :: 0 <= j < i + 1 && es[j].name == n && Brought(es[j], broken) then "running"
                        else was[n]
    {
      if j :| 0 <= j < i + 1 && es[j].name == n && Brought(es[j], broken) {
        if j == i { assert es[i].name == n; }
      }
    }
  }

  lemma StartedAll(es: seq<Entry>, data: map<string, Entry>, broken: set<string>, was: map<string, string>,
      now: map<string, string>)
    requires Keyed(data) && IsListing(es, data) && StartedUpTo(es, |es|, broken, was, now)
    ensures forall n :: n in now ==>
        now[n] == if n in data && data[n].enabled && n !in broken then "running" else was[n]
  {
    forall n | n in now
      ensures (exists j :: 0 <= j < |es| && es[j].name == n && Brought(es[j], broken))
              <==> n in data && data[n].enabled && n !in broken
    {
      if n in data {
        var j :| 0 <= j < |es| && es[j] == data[n];
        assert es[j].name in data;
      }
    }
  }

  lemma StartsMore(es: seq<Entry>, i: nat, states: map<string, string>)
    requires i < |es|
    ensures StartsOf(es[..i + 1], states)
            == StartsOf(es[..i], states) + (if ToStart(es[i], states) then [Start(es[i].name, es[i].order)] else [])
  {
    hide ToStart;
    assert es[..i + 1][..i] == es[..i];
  }

  lemma SameStart(es: seq<Entry>, i: nat, was: map<string, string>, now: map<string, string>)
    requires i < |es| && Later(es, i, was, now)
    ensures ToStart(es[i], now) <==> ToStart(es[i], was)
  {
  }

  lemma LaterStays(es: seq<Entry>, i: nat, was: map<string, string>, before: map<string, string>,
      now: map<string, string>)
    requires i < |es| && Unique(es) && Later(es, i, was, before) && now.Keys == before.Keys
    requires forall n :: n in now && n != es[i].name ==> now[n] == before[n]
    ensures Later(es, i + 1, was, now)
  {
    forall j | i + 1 <= j < |es| && es[j].name in now ensures now[es[j].name] == was[es[j].name] {
      assert es[j].name != es[i].name;
    }
  }

  /** One step of sort.Slice. */
  function InsertByOrder(es: seq<Entry>, e: Entry): (r: seq<Entry>)
    ensures |r| == |es| + 1 && forall x :: x in r <==> x == e || x in es
  {
    if es == [] || e.order < es[0].order then [e] + es
    else
      assert es == [es[0]] + es[1..];
      [es[0]] + InsertByOrder(es[1..], e)
  }

  predicate Unique(es: seq<Entry>) {
    forall i, j :: 0 <= i < j < |es| ==> es[i].name != es[j].name
  }

  lemma {:induction false} InsertKeeps(es: seq<Entry>, e: Entry)
    requires Ordered(es)
    ensures Ordered(InsertByOrder(es, e))
    ensures Unique(es) && (forall i :: 0 <= i < |es| ==> es[i].name != e.name) ==> Unique(InsertByOrder(es, e))
  {
    if es != [] && e.order >= es[0].order {
      var rest := es[1..];
      InsertKeeps(rest, e);
      var t := InsertByOrder(rest, e);
      forall j | 0 <= j < |t| ensures t[j] == e || t[j] in rest { assert t[j] in t; }
      ConsOrdered(es[0], t);
      if Unique(es) && forall i :: 0 <= i < |es| ==> es[i].name != e.name { ConsUnique(es[0], t); }
    }
  }

  lemma ConsOrdered(x: Entry, t: seq<Entry>)
    requires Ordered(t) && forall j :: 0 <= j < |t| ==> x.order <= t[j].order
    ensures Ordered([x] + t)
  {
  }

  lemma ConsUnique(x: Entry, t: seq<Entry>)
    requires Unique(t) && forall j :: 0 <= j < |t| ==> x.name != t[j].name
    ensures Unique([x] + t)
  {
  }

  // ---------- what one orchestration starts ----------

  predicate StartedFor(x: Start, es: seq<Entry>, states: map<string, string>) {
    exists e :: e in es && ToStart(e, states) && x == Start(e.name, e.order)
  }

  /** The starts are exactly those of the entries to start, in ascending Order, each once. */
  lemma {:induction false} StartsInOrder(es: seq<Entry>, states: map<string, string>)
    requires Ordered(es) && Unique(es)
    ensures var s := StartsOf(es, states);
      && (forall i, j :: 0 <= i < j < |s| ==> s[i].order <= s[j].order && s[i].name != s[j].name)
      && (forall x :: x in s ==>
            exists e :: e in es && x == Start(e.name, e.order) && e.enabled && e.name in states
                        && states[e.name] != "running")
      && (forall e :: e in es && e.enabled && e.name in states && states[e.name] != "running" ==>
                Start(e.name, e.order) in s)
  {
    StartsSpelled(es, states);
    hide ToStart, StartedFor, StartsOf;
    StartsAre(es, states);
    NoStarts(states);
    if es != [] {
      var n := |es| - 1;
      var s := StartsOf(es[..n], states);
      assert es[..|es|] == es;
      StartsMore(es, n, states);
      StartsInOrder(es[..n], states);
      StartsAre(es[..n], states);
      forall i | 0 <= i < |s| ensures s[i].order <= es[n].order && s[i].name != es[n].name {
        assert s[i] in s;
        BeforeLast(s[i], es, states);
      }
    }
  }

  lemma StartsSpelled(es: seq<Entry>, states: map<string, string>)
    ensures forall e :: ToStart(e, states) <==> e.enabled && e.name in states && states[e.name] != "running"
    ensures forall x :: StartedFor(x, es, states) ==>
              exists e :: e in es && x == Start(e.name, e.order) && e.enabled && e.name in states
                          && states[e.name] != "running"
  {
  }

  lemma BeforeLast(x: Start, es: seq<Entry>, states: map<string, string>)
    requires Ordered(es) && Unique(es) && es != [] && StartedFor(x, es[..|es| - 1], states)
    ensures x.order <= es[|es| - 1].order && x.name != es[|es| - 1].name
  {
    hide ToStart;
    var n := |es| - 1;
    var e :| e in es[..n] && ToStart(e, states) && x == Start(e.name, e.order);
    var k :| 0 <= k < n && es[..n][k] == e;
    assert es[k] == e;
  }

  lemma {:induction false} StartsAre(es: seq<Entry>, states: map<string, string>)
    ensures var s := StartsOf(es, states);
      && (forall x :: x in s ==> StartedFor(x, es, states))
      && (forall e :: e in es && ToStart(e, states) ==> Start(e.name, e.order) in s)
  {
    hide ToStart, StartsOf;
    if es != [] {
      var n := |es| - 1;
      var front, s := es[..n], StartsOf(es[..n], states);
      assert es[..|es|] == es && es == front + [es[n]];
      StartsMore(es, n, states);
      StartsAre(front, states);
      forall x | x in s ensures StartedFor(x, es, states) {
        assert StartedFor(x, front, states);
        var e :| e in front && ToStart(e, states) && x == Start(e.name, e.order);
        assert e in es;
      }
      if ToStart(es[n], states) { assert es[n] in es && StartedFor(Start(es[n].name, es[n].order), es, states); }
    } else {
      NoStarts(states);
    }
  }

  lemma NoStarts(states: map<string, string>)
    ensures StartsOf([], states) == []
  {
  }
}
