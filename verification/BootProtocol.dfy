/**
 The boot orchestration, the watchdog and daemon restarts within one boot, interleaved in any way.
 The run marker lives on tmpfs: it appears once, and a boot starts without it.
*/
module BootProtocol {
  import opened GoStrings
  import opened Autostart

  /** Where the current daemon's Run stands. */
  datatype RunPhase =
    | Fresh                                // not yet at the marker test
    | Waiting(tries: nat)                  // polling for libvirt
    | Looping(es: seq<Entry>, next: nat)   // at an entry of one All()
    | Starting(es: seq<Entry>, next: nat, state: string)   // its state was read, its start is next
    | Ended

  /** Where the watchdog loop stands: between ticks, or walking the entries of one All(). */
  datatype WatchPhase =
    | Dormant
    | Walking(es: seq<Entry>, next: nat, from: nat)
    | Restarting(es: seq<Entry>, next: nat, from: nat, state: string)

  /** `life` counts daemon starts; `from` is the log position at which a tick began. */
  datatype Event =
    | RunStart(life: nat, entry: Entry, state: string)
    | RunSkip(life: nat, entry: Entry, seen: Option<string>)
    | WatchStart(life: nat, entry: Entry, state: string)
    | WatchSkip(life: nat, entry: Entry, seen: Option<string>)
    | WatchEnd(life: nat, es: seq<Entry>, from: nat)
    | LoopEnd(life: nat, es: seq<Entry>)
    | Marker(life: nat)

  datatype Boot = Boot(
    life: nat, run: RunPhase, watch: WatchPhase, marker: bool,
    data: map<string, Entry>, states: map<string, string>, log: seq<Event>)

  predicate Start0(s: Boot) {
    s.life == 0 && s.run.Fresh? && s.watch.Dormant? && !s.marker && s.log == [] && Keyed(s.data)
  }

  // ---------- steps ----------

  /** The daemon is restarted: both loops die, the marker and the VMs stay. */
  predicate Restart(s: Boot, t: Boot) {
    t == s.(life := s.life + 1, run := Fresh, watch := Dormant)
  }

  predicate RunTest(s: Boot, t: Boot) {
    s.run.Fresh? && t == s.(run := if s.marker then Ended else Waiting(0))
  }

  /** ListDomains failed once more; after the last try Run gives up without a marker. */
  predicate RunPoll(s: Boot, t: Boot) {
    s.run.Waiting? && t == s.(run := if s.run.tries + 1 < MAX_TRIES then Waiting(s.run.tries + 1) else Ended)
  }

  predicate RunReady(s: Boot, t: Boot) {
    s.run.Waiting? && t.run.Looping? && t.run.next == 0 && IsListing(t.run.es, s.data) && Ordered(t.run.es)
    && t == s.(run := t.run)
  }

  function StateOf(name: string, states: map<string, string>): Option<string> {
    if name in states then Some(states[name]) else None
  }

  /** The tests of one iteration: the entry is skipped, or its state is in hand and it will be started. */
  predicate RunCheck(s: Boot, t: Boot) {
    s.run.Looping? && s.run.next < |s.run.es| &&
    var e := s.run.es[s.run.next];
    t == if ToStart(e, s.states) then s.(run := Starting(s.run.es, s.run.next, s.states[e.name]))
         else s.(run := Looping(s.run.es, s.run.next + 1),
                 log := s.log + [RunSkip(s.life, e, StateOf(e.name, s.states))])
  }

  /** A start of `e` was attempted; its outcome is open. */
  predicate Attempted(e: Entry, was: map<string, string>, now: map<string, string>) {
    now == was || (e.name in was && now == was[e.name := "running"])
  }

  /** The start attempt, whatever became of the domain since its state was read. */
  predicate RunEntry(s: Boot, t: Boot) {
    s.run.Starting? && s.run.next < |s.run.es| &&
    var e := s.run.es[s.run.next];
    && t == s.(run := Looping(s.run.es, s.run.next + 1), states := t.states,
               log := s.log + [RunStart(s.life, e, s.run.state)])
    && Attempted(e, s.states, t.states)
  }

  /** The loop is over; writing the marker is the next step and may fail. */
  predicate RunLoopEnd(s: Boot, t: Boot) {
    s.run.Looping? && s.run.next == |s.run.es| &&
    (|| t == s.(run := Ended, marker := true, log := s.log + [LoopEnd(s.life, s.run.es), Marker(s.life)])
     || t == s.(run := Ended, log := s.log + [LoopEnd(s.life, s.run.es)]))
  }

  predicate WatchTick(s: Boot, t: Boot) {
    && s.watch.Dormant? && s.marker && t.watch.Walking? && t.watch.next == 0 && t.watch.from == |s.log|
    && IsListing(t.watch.es, s.data)
    && t == s.(watch := t.watch)
  }

  predicate WatchCheck(s: Boot, t: Boot) {
    s.watch.Walking? && s.watch.next < |s.watch.es| &&
    var e := s.watch.es[s.watch.next];
    var down := e.watchdog && e.name in s.states && (s.states[e.name] == "shut off" || s.states[e.name] == "crashed");
    t == if down then s.(watch := Restarting(s.watch.es, s.watch.next, s.watch.from, s.states[e.name]))
         else s.(watch := Walking(s.watch.es, s.watch.next + 1, s.watch.from),
                 log := s.log + [WatchSkip(s.life, e, StateOf(e.name, s.states))])
  }

  predicate WatchEntry(s: Boot, t: Boot) {
    s.watch.Restarting? && s.watch.next < |s.watch.es| &&
    var e := s.watch.es[s.watch.next];
    && t == s.(watch := Walking(s.watch.es, s.watch.next + 1, s.watch.from), states := t.states,
               log := s.log + [WatchStart(s.life, e, s.watch.state)])
    && Attempted(e, s.states, t.states)
  }

  predicate WatchDone(s: Boot, t: Boot) {
    s.watch.Walking? && s.watch.next == |s.watch.es|
    && t == s.(watch := Dormant, log := s.log + [WatchEnd(s.life, s.watch.es, s.watch.from)])
  }

  /** Users and VMs: any entry edited, any domain in any state. */
  predicate Outside(s: Boot, t: Boot) {
    Keyed(t.data) && t == s.(data := t.data, states := t.states)
  }

  predicate Step(s: Boot, t: Boot) {
    Restart(s, t) || RunTest(s, t) || RunPoll(s, t) || RunReady(s, t) || RunCheck(s, t) || RunEntry(s, t)
    || RunLoopEnd(s, t) || WatchTick(s, t) || WatchCheck(s, t) || WatchEntry(s, t) || WatchDone(s, t) || Outside(s, t)
  }

  ghost predicate IsRun(run: seq<Boot>) {
    0 < |run| && Start0(run[0]) && forall i :: 0 <= i < |run| - 1 ==> Step(run[i], run[i + 1])
  }

  // ---------- the invariant ----------

  predicate StartOk(e: Event) {
    && (e.RunStart? ==> e.entry.enabled && e.state != "running")
    && (e.WatchStart? ==> e.entry.watchdog && (e.state == "shut off" || e.state == "crashed"))
    && (e.RunSkip? ==> !e.entry.enabled || e.seen.None? || e.seen.value == "running")
    && (e.WatchSkip? ==> !e.entry.watchdog || e.seen.None?
                         || (e.seen.value != "shut off" && e.seen.value != "crashed"))
  }

  /** Of two starts by one Run, the earlier has the smaller or equal Order, and another VM. */
  predicate InOrder(a: Event, b: Event) {
    a.RunStart? && b.RunStart? && a.life == b.life ==> a.entry.order <= b.entry.order && a.entry.name != b.entry.name
  }

  /** Once the marker is written, no Run starts anything; before it, no watchdog does. */
  predicate AfterMarker(a: Event, b: Event) {
    (a.Marker? ==> !b.RunStart? && !b.LoopEnd?) && (b.Marker? ==> !a.WatchStart?)
  }

  predicate Lived(e: Event, life: nat) {
    e.life <= life
  }

  predicate Inv(s: Boot) {
    && Keyed(s.data)
    && (forall i :: 0 <= i < |s.log| ==> StartOk(s.log[i]) && Lived(s.log[i], s.life))
    && (forall i, j :: 0 <= i < j < |s.log| ==> InOrder(s.log[i], s.log[j]) && AfterMarker(s.log[i], s.log[j]))
    && (s.marker <==> exists i :: 0 <= i < |s.log| && s.log[i].Marker?)
    && (!s.marker ==> s.watch.Dormant? && forall i :: 0 <= i < |s.log| ==> !s.log[i].WatchStart?)
    && (s.marker ==> s.run.Fresh? || s.run.Ended?)
    && (s.run.Starting? ==> s.run.next < |s.run.es| && s.run.es[s.run.next].enabled && s.run.state != "running")
    && (s.watch.Restarting? ==>
          && s.watch.next < |s.watch.es| && s.watch.es[s.watch.next].watchdog
          && (s.watch.state == "shut off" || s.watch.state == "crashed"))
    && (s.run.Looping? || s.run.Starting? ==>
          && s.run.next <= |s.run.es| && Ordered(s.run.es) && Unique(s.run.es)
          && forall i :: 0 <= i < |s.log| && s.log[i].RunStart? && s.log[i].life == s.life ==>
               exists k :: 0 <= k < s.run.next && s.run.es[k] == s.log[i].entry)
    && (s.run.Fresh? || s.run.Waiting? ==>
          forall i :: 0 <= i < |s.log| ==> !(s.log[i].RunStart? && s.log[i].life == s.life))
  }

  lemma InvStep(s: Boot, t: Boot)
    requires Inv(s) && Step(s, t)
    ensures Inv(t)
  {
    if RunEntry(s, t) { InvRunEntry(s, t); }
    else if RunLoopEnd(s, t) { InvLoopEnd(s, t); }
    else if WatchEntry(s, t) { InvWatchEntry(s, t); }
    else { InvOther(s, t); }
  }

  lemma InvOther(s: Boot, t: Boot)
    requires Inv(s) && (Restart(s, t) || RunTest(s, t) || RunPoll(s, t) || RunReady(s, t)
             || RunCheck(s, t) || WatchTick(s, t) || WatchCheck(s, t) || WatchDone(s, t) || Outside(s, t))
    ensures Inv(t)
  {
    if Restart(s, t) { InvRestart(s, t); }
    else if t.log != s.log { InvQuiet(s, t); }
    else { hide StartOk, InOrder, AfterMarker; }
  }

  predicate IsQuiet(x: Event) {
    x.RunSkip? || x.WatchSkip? || x.WatchEnd?
  }

  lemma QuietFits(a: Event, x: Event)
    requires IsQuiet(x)
    ensures InOrder(a, x) && AfterMarker(a, x)
  {
  }

  /** What a check, or the end of a tick, leaves as it was. */
  lemma QuietShape(s: Boot, t: Boot)
    requires Inv(s) && (RunCheck(s, t) || WatchCheck(s, t) || WatchDone(s, t)) && t.log != s.log
    ensures |t.log| == |s.log| + 1 && t.log[..|s.log|] == s.log
    ensures var x := t.log[|s.log|]; IsQuiet(x) && StartOk(x) && x.life == s.life
    ensures t.marker == s.marker && t.data == s.data && t.life == s.life
    ensures t.run == s.run
            || (s.run.Looping? && s.run.next < |s.run.es| && t.run == Looping(s.run.es, s.run.next + 1))
    ensures t.watch == s.watch || (!s.watch.Dormant? && !t.watch.Restarting?)
  {
    hide Inv, IsListing, Ordered, Keyed;
  }

  /** What a check notes down breaks no order. */
  lemma PairsMore(log: seq<Event>, x: Event)
    requires IsQuiet(x)
    requires forall i, j :: 0 <= i < j < |log| ==> InOrder(log[i], log[j]) && AfterMarker(log[i], log[j])
    ensures var l := log + [x];
      forall i, j :: 0 <= i < j < |l| ==> InOrder(l[i], l[j]) && AfterMarker(l[i], l[j])
  {
    forall a ensures InOrder(a, x) && AfterMarker(a, x) { QuietFits(a, x); }
    hide InOrder, AfterMarker;
  }

  lemma OnesMore(log: seq<Event>, x: Event, life: nat)
    requires IsQuiet(x) && StartOk(x) && x.life == life
    requires forall i :: 0 <= i < |log| ==> StartOk(log[i]) && Lived(log[i], life)
    ensures var l := log + [x];
      && (forall i :: 0 <= i < |l| ==> StartOk(l[i]) && Lived(l[i], life))
      && ((exists i :: 0 <= i < |l| && l[i].Marker?) <==> exists i :: 0 <= i < |log| && log[i].Marker?)
      && (forall i :: 0 <= i < |l| && (l[i].RunStart? || l[i].WatchStart?) ==> i < |log| && l[i] == log[i])
  {
    hide StartOk;
    if i :| 0 <= i < |log| && log[i].Marker? { assert (log + [x])[i].Marker?; }
  }

  lemma InvQuiet(s: Boot, t: Boot)
    requires Inv(s) && (RunCheck(s, t) || WatchCheck(s, t) || WatchDone(s, t)) && t.log != s.log
    ensures Inv(t)
  {
    QuietShape(s, t);
    var x := t.log[|s.log|];
    assert t.log == s.log + [x];
    hide RunCheck, WatchCheck, WatchDone, Keyed, Ordered, Unique, StartOk, InOrder, AfterMarker, Lived, IsQuiet;
    PairsMore(s.log, x);
    OnesMore(s.log, x, s.life);
  }

  lemma InvRestart(s: Boot, t: Boot)
    requires Inv(s) && Restart(s, t)
    ensures Inv(t)
  {
    hide StartOk, InOrder, AfterMarker;
    forall i | 0 <= i < |t.log| ensures Lived(t.log[i], t.life) { assert Lived(s.log[i], s.life); }
  }

  lemma InvRunEntry(s: Boot, t: Boot)
    requires Inv(s) && RunEntry(s, t)
    ensures Inv(t)
  {
    var n, es := s.run.next, s.run.es;
    forall i | 0 <= i < |s.log| && s.log[i].RunStart? && s.log[i].life == s.life
      ensures s.log[i].entry.order <= es[n].order && s.log[i].entry.name != es[n].name
    {
      var k :| 0 <= k < n && es[k] == s.log[i].entry;
    }
    forall i | 0 <= i < |t.log| && t.log[i].RunStart? && t.log[i].life == t.life
      ensures exists k :: 0 <= k < n + 1 && es[k] == t.log[i].entry
    {
      if i < |s.log| {
        assert t.log[i] == s.log[i];
        var k :| 0 <= k < n && es[k] == s.log[i].entry;
      } else {
        assert es[n] == t.log[i].entry;
      }
    }
  }

  lemma InvLoopEnd(s: Boot, t: Boot)
    requires Inv(s) && RunLoopEnd(s, t)
    ensures Inv(t)
  {
    if t.marker { assert t.log[|t.log| - 1].Marker?; }
  }

  lemma InvWatchEntry(s: Boot, t: Boot)
    requires Inv(s) && WatchEntry(s, t)
    ensures Inv(t)
  {
    if s.marker {
      var i :| 0 <= i < |s.log| && s.log[i].Marker?;
      assert t.log[i].Marker?;
    }
  }

  // ---------- every entry is dealt with ----------

  /** One Run came to the entry before log position `hi`. */
  predicate RunMet(log: seq<Event>, life: nat, e: Entry, hi: nat) {
    exists i :: 0 <= i < hi && i < |log| && (log[i].RunStart? || log[i].RunSkip?) && log[i].life == life
                && log[i].entry == e
  }

  predicate WatchMet(log: seq<Event>, life: nat, e: Entry, lo: nat, hi: nat) {
    exists i :: lo <= i < hi && i < |log| && (log[i].WatchStart? || log[i].WatchSkip?) && log[i].life == life
                && log[i].entry == e
  }

  predicate RunSoFar(s: Boot) {
    s.run.Looping? || s.run.Starting? ==>
      s.run.next <= |s.run.es| && forall k :: 0 <= k < s.run.next ==> RunMet(s.log, s.life, s.run.es[k], |s.log|)
  }

  predicate WatchSoFar(s: Boot) {
    s.watch.Walking? || s.watch.Restarting? ==>
      s.watch.next <= |s.watch.es| && s.watch.from <= |s.log|
      && forall k :: 0 <= k < s.watch.next ==> WatchMet(s.log, s.life, s.watch.es[k], s.watch.from, |s.log|)
  }

  predicate EndOk(log: seq<Event>, j: nat)
    requires j < |log|
  {
    && (log[j].LoopEnd? ==> forall k :: 0 <= k < |log[j].es| ==> RunMet(log, log[j].life, log[j].es[k], j))
    && (log[j].WatchEnd? ==>
          forall k :: 0 <= k < |log[j].es| ==> WatchMet(log, log[j].life, log[j].es[k], log[j].from, j))
  }

  predicate Complete(s: Boot) {
    RunSoFar(s) && WatchSoFar(s) && forall j :: 0 <= j < |s.log| ==> EndOk(s.log, j)
  }

  lemma RunMetMore(log: seq<Event>, more: seq<Event>, life: nat, e: Entry, hi: nat, hi2: nat)
    requires RunMet(log, life, e, hi) && hi <= |log| && hi <= hi2
    ensures RunMet(log + more, life, e, hi2)
  {
    var i :| 0 <= i < hi && i < |log| && (log[i].RunStart? || log[i].RunSkip?) && log[i].life == life
             && log[i].entry == e;
    assert (log + more)[i] == log[i];
  }

  lemma WatchMetMore(log: seq<Event>, more: seq<Event>, life: nat, e: Entry, lo: nat, hi: nat, hi2: nat)
    requires WatchMet(log, life, e, lo, hi) && hi <= |log| && hi <= hi2
    ensures WatchMet(log + more, life, e, lo, hi2)
  {
    var i :| lo <= i < hi && i < |log| && (log[i].WatchStart? || log[i].WatchSkip?) && log[i].life == life
             && log[i].entry == e;
    assert (log + more)[i] == log[i];
  }

  lemma EndsStay(log: seq<Event>, more: seq<Event>, j: nat)
    requires j < |log| && EndOk(log, j)
    ensures EndOk(log + more, j)
  {
    hide RunMet, WatchMet;
    var e := log[j];
    assert (log + more)[j] == e;
    if e.LoopEnd? {
      forall k | 0 <= k < |e.es| ensures RunMet(log + more, e.life, e.es[k], j) {
        RunMetMore(log, more, e.life, e.es[k], j, j);
      }
    }
    if e.WatchEnd? {
      forall k | 0 <= k < |e.es| ensures WatchMet(log + more, e.life, e.es[k], e.from, j) {
        WatchMetMore(log, more, e.life, e.es[k], e.from, j, j);
      }
    }
  }

  /** A step only ever adds to the log. */
  lemma LogMore(s: Boot, t: Boot) returns (more: seq<Event>)
    requires Step(s, t)
    ensures t.log == s.log + more && |more| <= 2
    ensures |more| == 2 ==> more[0] == LoopEnd(s.life, s.run.es) && more[1].Marker? && RunLoopEnd(s, t)
  {
    hide IsListing, Ordered, Keyed, ToStart, Attempted, StateOf;
    if t.log == s.log {
      more := [];
      assert s.log + [] == s.log;
    } else {
      more := t.log[|s.log|..];
      assert t.log == s.log + more;
    }
  }

  lemma OldEnds(s: Boot, t: Boot)
    requires Complete(s) && Step(s, t)
    ensures forall j :: 0 <= j < |s.log| ==> j < |t.log| && EndOk(t.log, j)
  {
    var more := LogMore(s, t);
    hide Step, EndOk, RunSoFar, WatchSoFar;
    forall j | 0 <= j < |s.log| ensures j < |t.log| && EndOk(t.log, j) { EndsStay(s.log, more, j); }
  }

  lemma NewEnds(s: Boot, t: Boot, j: nat)
    requires RunSoFar(s) && WatchSoFar(s) && Step(s, t) && |s.log| <= j < |t.log|
    ensures EndOk(t.log, j)
  {
    hide RunMet, WatchMet, Step;
    if RunLoopEnd(s, t) {
      assert t.log == s.log + t.log[|s.log|..];
      forall k | 0 <= k < |s.run.es| ensures RunMet(t.log, s.life, s.run.es[k], |s.log|) {
        RunMetMore(s.log, t.log[|s.log|..], s.life, s.run.es[k], |s.log|, |s.log|);
      }
    } else if WatchDone(s, t) {
      assert t.log == s.log + t.log[|s.log|..];
      forall k | 0 <= k < |s.watch.es| ensures WatchMet(t.log, s.life, s.watch.es[k], s.watch.from, |s.log|) {
        WatchMetMore(s.log, t.log[|s.log|..], s.life, s.watch.es[k], s.watch.from, |s.log|, |s.log|);
      }
    } else {
      NoNewEnd(s, t, j);
    }
  }

  lemma NoNewEnd(s: Boot, t: Boot, j: nat)
    requires Step(s, t) && !RunLoopEnd(s, t) && !WatchDone(s, t) && |s.log| <= j < |t.log|
    ensures !t.log[j].LoopEnd? && !t.log[j].WatchEnd?
  {
    hide IsListing, Ordered, Keyed, ToStart, Attempted, StateOf;
  }

  /** How a step moves Run through its list. */
  lemma RunMoves(s: Boot, t: Boot)
    requires Step(s, t) && (t.run.Looping? || t.run.Starting?) && t.run.next != 0
    ensures s.run.Looping? || s.run.Starting?
    ensures t.life == s.life && t.run.es == s.run.es
    ensures t.run.next == s.run.next
            || (&& t.run.next == s.run.next + 1 && s.run.next < |s.run.es| && |t.log| == |s.log| + 1
                && var x := t.log[|s.log|];
                   (x.RunStart? || x.RunSkip?) && x.life == s.life && x.entry == s.run.es[s.run.next])
  {
    hide IsListing, Ordered, Keyed, ToStart, Attempted, StateOf;
  }

  lemma RunGoesOn(s: Boot, t: Boot)
    requires RunSoFar(s) && Step(s, t)
    ensures RunSoFar(t)
  {
    var more := LogMore(s, t);
    hide RunMet, Step;
    if (t.run.Looping? || t.run.Starting?) && t.run.next != 0 {
      RunMoves(s, t);
      forall k | 0 <= k < t.run.next ensures RunMet(t.log, t.life, t.run.es[k], |t.log|) {
        if k < s.run.next {
          RunMetMore(s.log, more, s.life, s.run.es[k], |s.log|, |t.log|);
        } else {
          MetHere(t.log, t.life, t.run.es[k]);
        }
      }
    }
  }

  lemma MetHere(log: seq<Event>, life: nat, e: Entry)
    requires log != [] && var x := log[|log| - 1]; (x.RunStart? || x.RunSkip?) && x.life == life && x.entry == e
    ensures RunMet(log, life, e, |log|)
  {
  }

  /** How a step moves the watchdog through its list. */
  lemma WatchMoves(s: Boot, t: Boot)
    requires Step(s, t) && (t.watch.Walking? || t.watch.Restarting?) && t.watch.next != 0
    ensures s.watch.Walking? || s.watch.Restarting?
    ensures t.life == s.life && t.watch.es == s.watch.es && t.watch.from == s.watch.from
    ensures t.watch.next == s.watch.next
            || (&& t.watch.next == s.watch.next + 1 && s.watch.next < |s.watch.es| && |t.log| == |s.log| + 1
                && var x := t.log[|s.log|];
                   (x.WatchStart? || x.WatchSkip?) && x.life == s.life && x.entry == s.watch.es[s.watch.next])
  {
    hide IsListing, Ordered, Keyed, ToStart, Attempted, StateOf;
  }

  lemma WatchBegins(s: Boot, t: Boot)
    requires WatchSoFar(s) && Step(s, t) && (t.watch.Walking? || t.watch.Restarting?) && t.watch.next == 0
    ensures t.watch.from <= |t.log|
  {
    hide IsListing, Ordered, Keyed, ToStart, Attempted, StateOf, WatchMet;
  }

  lemma WatchGoesOn(s: Boot, t: Boot)
    requires WatchSoFar(s) && Step(s, t)
    ensures WatchSoFar(t)
  {
    var more := LogMore(s, t);
    if (t.watch.Walking? || t.watch.Restarting?) && t.watch.next == 0 { WatchBegins(s, t); }
    hide WatchMet, Step;
    if (t.watch.Walking? || t.watch.Restarting?) && t.watch.next != 0 {
      WatchMoves(s, t);
      forall k | 0 <= k < t.watch.next ensures WatchMet(t.log, t.life, t.watch.es[k], t.watch.from, |t.log|) {
        if k < s.watch.next {
          WatchMetMore(s.log, more, s.life, s.watch.es[k], s.watch.from, |s.log|, |t.log|);
        } else {
          WatchHere(t.log, t.life, t.watch.es[k], t.watch.from);
        }
      }
    }
  }

  lemma WatchHere(log: seq<Event>, life: nat, e: Entry, lo: nat)
    requires lo < |log| && var x := log[|log| - 1]; (x.WatchStart? || x.WatchSkip?) && x.life == life && x.entry == e
    ensures WatchMet(log, life, e, lo, |log|)
  {
  }

  lemma CompleteStep(s: Boot, t: Boot)
    requires Complete(s) && Step(s, t)
    ensures Complete(t)
  {
    OldEnds(s, t);
    RunGoesOn(s, t);
    WatchGoesOn(s, t);
    hide Step, EndOk, RunSoFar, WatchSoFar;
    forall j | 0 <= j < |t.log| ensures EndOk(t.log, j) { if j >= |s.log| { NewEnds(s, t, j); } }
  }

  lemma {:induction false} CompleteRun(run: seq<Boot>)
    requires IsRun(run)
    ensures Complete(run[|run| - 1])
    decreases |run|
  {
    hide Step, EndOk;
    if |run| > 1 {
      CompleteRun(run[..|run| - 1]);
      assert Step(run[|run| - 2], run[|run| - 2 + 1]);
      hide Complete;
      CompleteStep(run[|run| - 2], run[|run| - 1]);
    }
  }

  /** Every orchestration that ended, and every tick of the watchdog, dealt with each of its entries: it started
      the VM, or read it as one to leave alone.  An enabled VM is left alone only when it was running or unknown
      to virsh, a watched one only when it was neither shut off nor crashed. */
  lemma BootIsComplete(run: seq<Boot>, j: nat, k: nat)
    requires IsRun(run) && j < |run[|run| - 1].log|
    ensures var log := run[|run| - 1].log; var end := log[j];
      && (end.LoopEnd? && k < |end.es| && end.es[k].enabled ==>
            exists i :: 0 <= i < j && log[i].life == end.life
              && (|| log[i] == RunSkip(end.life, end.es[k], None)
                  || log[i] == RunSkip(end.life, end.es[k], Some("running"))
                  || (log[i].RunStart? && log[i].entry == end.es[k])))
      && (end.WatchEnd? && k < |end.es| && end.es[k].watchdog ==>
            exists i :: end.from <= i < j && log[i].life == end.life
              && (|| (log[i].WatchSkip? && log[i].entry == end.es[k]
                      && log[i].seen != Some("shut off") && log[i].seen != Some("crashed"))
                  || (log[i].WatchStart? && log[i].entry == end.es[k])))
  {
    InvRun(run);
    CompleteRun(run);
    var log := run[|run| - 1].log;
    assert forall i :: 0 <= i < |log| ==> StartOk(log[i]);
    assert EndOk(log, j);
    hide *;
    LoopMeans(log, j, k);
    TickMeans(log, j, k);
  }

  lemma LoopMeans(log: seq<Event>, j: nat, k: nat)
    requires j < |log| && EndOk(log, j) && forall i :: 0 <= i < |log| ==> StartOk(log[i])
    ensures var end := log[j]; end.LoopEnd? && k < |end.es| && end.es[k].enabled ==>
      exists i :: 0 <= i < j && log[i].life == end.life
        && (|| log[i] == RunSkip(end.life, end.es[k], None)
            || log[i] == RunSkip(end.life, end.es[k], Some("running"))
            || (log[i].RunStart? && log[i].entry == end.es[k]))
  {
    var end := log[j];
    if end.LoopEnd? && k < |end.es| {
      hide StartOk;
      assert RunMet(log, end.life, end.es[k], j);
      var i :| 0 <= i < j && i < |log| && (log[i].RunStart? || log[i].RunSkip?) && log[i].life == end.life
               && log[i].entry == end.es[k];
      SkipMeans(log[i]);
    }
  }

  lemma SkipMeans(e: Event)
    requires StartOk(e)
    ensures e.RunSkip? && e.entry.enabled ==> e.seen == None || e.seen == Some("running")
    ensures e.WatchSkip? && e.entry.watchdog ==> e.seen != Some("shut off") && e.seen != Some("crashed")
  {
  }

  lemma TickMeans(log: seq<Event>, j: nat, k: nat)
    requires j < |log| && EndOk(log, j) && forall i :: 0 <= i < |log| ==> StartOk(log[i])
    ensures var end := log[j]; end.WatchEnd? && k < |end.es| && end.es[k].watchdog ==>
      exists i :: end.from <= i < j && log[i].life == end.life
        && (|| (log[i].WatchSkip? && log[i].entry == end.es[k]
                && log[i].seen != Some("shut off") && log[i].seen != Some("crashed"))
            || (log[i].WatchStart? && log[i].entry == end.es[k]))
  {
    var end := log[j];
    if end.WatchEnd? && k < |end.es| {
      hide StartOk;
      assert WatchMet(log, end.life, end.es[k], end.from, j);
      var i :| end.from <= i < j && i < |log| && (log[i].WatchStart? || log[i].WatchSkip?)
               && log[i].life == end.life && log[i].entry == end.es[k];
      SkipMeans(log[i]);
    }
  }

  // ---------- every boot ----------

  lemma {:induction false} InvRun(run: seq<Boot>)
    requires IsRun(run)
    ensures Inv(run[|run| - 1])
    decreases |run|
  {
    hide Inv, Step;
    if |run| == 1 {
      InvStart(run[0]);
    } else {
      InvRun(run[..|run| - 1]);
      assert Step(run[|run| - 2], run[|run| - 2 + 1]);
      InvStep(run[|run| - 2], run[|run| - 1]);
    }
  }

  lemma InvStart(s: Boot)
    requires Start0(s)
    ensures Inv(s)
  {
  }

  /** In every boot, whatever the restarts, ticks and outside changes: the starts of one Run ascend in
      Order, are of enabled VMs read as not running, each at most once; the watchdog starts only VMs it read
      as down, and nothing before an orchestration loop ended; and once a marker is written no Run starts anything. */
  lemma BootIsOrderly(run: seq<Boot>, i: nat, j: nat)
    requires IsRun(run) && j < |run[|run| - 1].log|
    ensures var log := run[|run| - 1].log;
      && (log[j].RunStart? ==> log[j].entry.enabled && log[j].state != "running")
      && (i < j && log[i].RunStart? && log[j].RunStart? && log[i].life == log[j].life ==>
            log[i].entry.order <= log[j].entry.order && log[i].entry.name != log[j].entry.name)
      && (log[j].WatchStart? ==> log[j].entry.watchdog && (log[j].state == "shut off" || log[j].state == "crashed"))
      && (log[j].WatchStart? ==> exists k :: 0 <= k < j && log[k].Marker?)
      && (i < j && log[i].Marker? ==> !log[j].RunStart?)
  {
    hide Step;
    InvRun(run);
    var s := run[|run| - 1];
    assert StartOk(s.log[j]);
    if i < j { assert InOrder(s.log[i], s.log[j]) && AfterMarker(s.log[i], s.log[j]); }
    if s.log[j].WatchStart? {
      var k :| 0 <= k < |s.log| && s.log[k].Marker?;
      assert j < k ==> AfterMarker(s.log[j], s.log[k]);
    }
  }
}
