/**
 Whether a console without a password can be put on all interfaces, step by step: a request makes its
 defines one after the other, each define writes the edited dump it holds, and requests, passes and ZVM
 interleave at every step.  VncHandler has requests and passes that run alone.
*/
module Exposure {
  import opened GoStrings
  import opened VncXml
  import opened VncLaws
  import opened Password
  import opened Client
  import opened VncStore
  import opened VncPass
  import opened VncHandler
  import ConsoleTrap

  datatype Change = SetPassword(pw: string) | SetAddress(listen: string, port: Int)

  /** A request or the round of a pass for one entry, on one VM: the changes it has yet to define, the dump it
      holds for the first of them, and the entry whose address it has yet to check. */
  datatype Job = Job(todo: seq<Change>, held: Option<string>, entry: Option<Entry>)

  datatype Defined = Defined(change: Change, text: string)

  /** The config of one VM, the jobs in flight, and every define so far. */
  datatype State = State(config: string, jobs: map<nat, Job>, log: seq<Defined>)

  datatype Event =
    | Ask(id: nat, pw: string, listen: string, port: Int)   // POST, with the password it will use
    | Clear(id: nat)                                        // DELETE
    | Visit(id: nat, e: Entry)                              // a pass comes to an entry
    | CheckAddress(id: nat)
    | Dump(id: nat)
    | Define(id: nat)
    | Leave(id: nat)                                        // done, or an error
    | Overwrite(text: string)                               // ZVM

  function Edited(c: Change, text: string): Result<string> {
    match c
    case SetPassword(pw) => SetPasswordXML(text, pw)
    case SetAddress(listen, port) => SetListenXML(text, listen, port)
  }

  predicate ChangeOk(c: Change) {
    match c
    case SetPassword(pw) => pw == "" || (ValidPassword(pw) && !LooksLikeAttr(pw))
    case SetAddress(listen, port) => listen == LOCAL || listen == ALL
  }

  /** The defines a POST makes. */
  function Asked(pw: string, listen: string, port: Int): seq<Change> {
    (if pw == "" then [] else [SetPassword(pw)]) + (if listen == "" then [] else [SetAddress(listen, port)])
  }

  ghost predicate Enabled(ev: Event, s: State) {
    match ev
    case Ask(id, pw, listen, port) =>
      && id !in s.jobs && (listen == "" || listen == LOCAL || listen == ALL) && (port == 0 || 5900 <= port <= 65535)
      && if pw == "" then listen == LOCAL else ValidPassword(pw) && !LooksLikeAttr(pw)
    case Clear(id) => id !in s.jobs
    case Visit(id, e) => id !in s.jobs && EntryOk(e) && !LooksLikeAttr(e.password)
    case CheckAddress(id) => id in s.jobs && s.jobs[id].todo == [] && s.jobs[id].entry.Some?
    case Dump(id) => id in s.jobs && s.jobs[id].todo != [] && s.jobs[id].held.None?
    case Define(id) =>
      id in s.jobs && s.jobs[id].todo != [] && s.jobs[id].held.Some?
      && Edited(s.jobs[id].todo[0], s.jobs[id].held.value).Ok?
    case Leave(id) => id in s.jobs
    case Overwrite(text) => Console(text)
  }

  function With(s: State, id: nat, j: Job): State {
    s.(jobs := s.jobs[id := j])
  }

  ghost function Apply(ev: Event, s: State): State
    requires Enabled(ev, s)
  {
    match ev
    case Ask(id, pw, listen, port) => With(s, id, Job(Asked(pw, listen, port), None, None))
    case Clear(id) => With(s, id, Job([SetPassword("")], None, None))
    case Visit(id, e) =>
      With(s, id, Job(if e.password == "" || Protected(s.config) then [] else [SetPassword(e.password)], None, Some(e)))
    case CheckAddress(id) =>
      var e := s.jobs[id].entry.value;
      With(s, id, Job(if e.listen == "" || ListenInPlace(e, s.config) then [] else [SetAddress(e.listen, e.port)],
                      None, None))
    case Dump(id) => With(s, id, s.jobs[id].(held := Some(s.config)))
    case Define(id) =>
      var j := s.jobs[id];
      var text := Edited(j.todo[0], j.held.value).value;
      State(text, s.jobs[id := j.(todo := j.todo[1..], held := None)], s.log + [Defined(j.todo[0], text)])
    case Leave(id) => s.(jobs := s.jobs - {id})
    case Overwrite(text) => s.(config := text)
  }

  // ---------- states ----------

  ghost predicate JobOk(j: Job) {
    && (forall i :: 0 <= i < |j.todo| ==> ChangeOk(j.todo[i]))
    && (j.held.Some? ==> j.todo != [] && Console(j.held.value))
    && (j.entry.Some? ==> EntryOk(j.entry.value))
  }

  ghost predicate Valid(s: State) {
    Console(s.config) && forall id :: id in s.jobs ==> JobOk(s.jobs[id])
  }

  /** One change of one dump: an address leaves the password as it was. */
  lemma ChangeDoes(c: Change, text: string)
    requires ChangeOk(c) && Console(text)
    ensures Edited(c, text).Ok? <==> GraphicsInfo(text).found
    ensures Edited(c, text).Ok? ==>
              var t := Edited(c, text).value;
              && CleanConsole(t) && GraphicsInfo(t).found
              && GraphicsInfo(t).hasPassword
                 == (if c.SetPassword? then c.pw != "" else GraphicsInfo(text).hasPassword)
  {
    hide CleanConsole, ValidPassword, LooksLikeAttr, CleanPassword;
    if OpenTag(text).NoSpan? {
    } else if c.SetPassword? {
      Loop();
      NotEmpty(c.pw);
      hide GraphicsInfo, SetPasswordXML;
      PasswordEdit(text, c.pw);
    } else {
      Addresses();
      hide GraphicsInfo, SetListenXML;
      ListenEdit(text, c.listen, c.port);
    }
  }

  lemma ValidStays(ev: Event, s: State)
    requires Valid(s) && Enabled(ev, s)
    ensures Valid(Apply(ev, s))
  {
    hide GraphicsInfo, ListenInPlace, Edited, CleanConsole, ValidPassword, LooksLikeAttr, OpenTag, Protected;
    if ev.Define? {
      var j := s.jobs[ev.id];
      assert JobOk(j);
      ChangeDoes(j.todo[0], j.held.value);
    }
  }

  // ---------- what keeps every console covered ----------

  /** The job clears no password, and the define of the dump it holds leaves none bare. */
  predicate JobCovered(j: Job) {
    if j.held.None? then Clears(j.todo) < 0
    else
      !GraphicsInfo(j.held.value).found ||
      (j.todo != [] && Clears(j.todo) < 0 && (j.todo[0].SetPassword? || GraphicsInfo(j.held.value).hasPassword))
  }

  /** The first change that clears the password, or -1. */
  function Clears(todo: seq<Change>): (i: int)
    ensures -1 <= i < |todo|
    ensures i >= 0 ==> todo[i] == SetPassword("")
    ensures i < 0 ==> forall k :: 0 <= k < |todo| ==> todo[k] != SetPassword("")
  {
    if todo == [] then -1
    else if todo[0] == SetPassword("") then 0
    else
      var i := Clears(todo[1..]);
      if i < 0 then -1 else i + 1
  }

  /** The config has a password or no console, and so it is after every define under way. */
  predicate Covered(s: State) {
    Protected(s.config) && forall id :: id in s.jobs ==> JobCovered(s.jobs[id])
  }

  /** A DELETE, or ZVM writing a console without a password. */
  predicate Uncovers(ev: Event) {
    ev.Clear? || (ev.Overwrite? && !Protected(ev.text))
  }

  /** The define of a console without a password for all interfaces. */
  predicate Open(d: Defined) {
    d.change.SetAddress? && d.change.listen == ALL && !GraphicsInfo(d.text).hasPassword
  }

  /** A job about to define its dump, on a console. */
  predicate Ready(s: State, id: nat) {
    id in s.jobs && s.jobs[id].todo != [] && s.jobs[id].held.Some? && GraphicsInfo(s.jobs[id].held.value).found
  }

  lemma ReadyIff(s: State, id: nat)
    requires Valid(s)
    ensures Enabled(Define(id), s) <==> Ready(s, id)
  {
    hide GraphicsInfo, Edited, Console;
    if id in s.jobs && s.jobs[id].todo != [] && s.jobs[id].held.Some? {
      assert JobOk(s.jobs[id]);
      ChangeDoes(s.jobs[id].todo[0], s.jobs[id].held.value);
    }
  }

  /** What the define logs. */
  function Written(s: State, id: nat): Defined
    requires Ready(s, id)
  {
    var j := s.jobs[id];
    Defined(j.todo[0], match Edited(j.todo[0], j.held.value) case Ok(t) => t case NoDevice => "")
  }

  /** Exactly: a define for all interfaces is open if and only if the dump it edits has no password. */
  lemma OpenIff(s: State, id: nat)
    requires Valid(s) && Ready(s, id)
    ensures Enabled(Define(id), s) && Apply(Define(id), s).log == s.log + [Written(s, id)]
    ensures Open(Written(s, id)) <==>
            s.jobs[id].todo[0].SetAddress? && s.jobs[id].todo[0].listen == ALL
            && !GraphicsInfo(s.jobs[id].held.value).hasPassword
  {
    hide GraphicsInfo, Edited, Console;
    var j := s.jobs[id];
    assert JobOk(j);
    ChangeDoes(j.todo[0], j.held.value);
  }

  lemma DefineCovered(s: State, id: nat)
    requires Valid(s) && Ready(s, id) && Enabled(Define(id), s) && Covered(s)
    ensures Covered(Apply(Define(id), s)) && !Open(Written(s, id))
  {
    hide GraphicsInfo, Edited, Console;
    var j := s.jobs[id];
    assert JobOk(j) && JobCovered(j);
    ChangeDoes(j.todo[0], j.held.value);
  }

  /** Every step keeps all consoles covered, but for one that uncovers. */
  lemma CoveredStays(ev: Event, s: State)
    requires Valid(s) && Covered(s) && Enabled(ev, s) && !Uncovers(ev)
    ensures Covered(Apply(ev, s))
    ensures forall i :: |s.log| <= i < |Apply(ev, s).log| ==> !Open(Apply(ev, s).log[i])
  {
    hide GraphicsInfo, Edited, Console, ListenInPlace;
    if ev.Define? {
      ReadyIff(s, ev.id);
      OpenIff(s, ev.id);
      DefineCovered(s, ev.id);
    }
  }

  // ---------- runs ----------

  ghost predicate Runs(es: seq<Event>, s: State)
    decreases |es|
  {
    es == [] || (Enabled(es[0], s) && Runs(es[1..], Apply(es[0], s)))
  }

  ghost function After(es: seq<Event>, s: State): State
    requires Runs(es, s)
    decreases |es|
  {
    if es == [] then s else After(es[1..], Apply(es[0], s))
  }

  /** A run in which nobody takes a password away. */
  ghost predicate Quiet(es: seq<Event>, s: State) {
    Runs(es, s) && forall i :: 0 <= i < |es| ==> !Uncovers(es[i])
  }

  /** A define of the run is open. */
  ghost predicate Opens(es: seq<Event>, s: State)
    requires Runs(es, s)
  {
    exists i :: |s.log| <= i < |After(es, s).log| && Open(After(es, s).log[i])
  }

  ghost predicate CanOpen(s: State) {
    exists es :: Quiet(es, s) && Opens(es, s)
  }

  lemma {:induction false} RunKeeps(es: seq<Event>, s: State)
    requires Valid(s) && Runs(es, s)
    ensures Valid(After(es, s)) && s.log <= After(es, s).log
    decreases |es|
  {
    hide Valid, Enabled;
    if es != [] {
      ValidStays(es[0], s);
      RunKeeps(es[1..], Apply(es[0], s));
    }
  }

  /** From a state in which everything is covered, requests, passes and protected rewrites in any interleaving
      make no open define. */
  lemma {:induction false} CoveredForGood(es: seq<Event>, s: State)
    requires Valid(s) && Covered(s) && Quiet(es, s)
    ensures Covered(After(es, s)) && !Opens(es, s)
    decreases |es|
  {
    hide Valid, Covered, Enabled, Apply, Uncovers, Open;
    if es != [] {
      var m := Apply(es[0], s);
      CoveredStays(es[0], s);
      ValidStays(es[0], s);
      assert forall i :: 0 <= i < |es[1..]| ==> es[1..][i] == es[i + 1];
      CoveredForGood(es[1..], m);
      RunKeeps(es[1..], m);
      var t := After(es, s);
      assert t == After(es[1..], m);
      forall i | |s.log| <= i < |t.log| ensures !Open(t.log[i]) {
        if i < |m.log| { assert t.log[i] == m.log[i]; }
      }
    }
  }

  // ---------- the runs that do open a console ----------

  lemma Then(ev: Event, s: State)
    requires Enabled(ev, s) && !Uncovers(ev) && CanOpen(Apply(ev, s)) && |s.log| <= |Apply(ev, s).log|
    ensures CanOpen(s)
  {
    hide Enabled, Apply, Uncovers, Open;
    var m := Apply(ev, s);
    var es :| Quiet(es, m) && Opens(es, m);
    var all := [ev] + es;
    assert all[0] == ev && all[1..] == es;
    assert Runs(all, s) && After(all, s) == After(es, m);
    var i :| |m.log| <= i < |After(es, m).log| && Open(After(es, m).log[i]);
    assert Opens(all, s);
  }

  predicate Bare(text: string) { GraphicsInfo(text).found && !GraphicsInfo(text).hasPassword }

  lemma OpenRun(ev: Event, s: State, d: Defined)
    requires Enabled(ev, s) && !Uncovers(ev) && Apply(ev, s).log == s.log + [d] && Open(d)
    ensures CanOpen(s)
  {
    var es := [ev];
    hide Enabled, Apply, Open, Uncovers;
    assert es[0] == ev && es[1..] == [] && Runs([], Apply(ev, s));
    assert Quiet(es, s) && After(es, s) == Apply(ev, s);
    assert After(es, s).log[|s.log|] == d;
  }

  lemma OpenNow(s: State, id: nat)
    requires Valid(s) && Ready(s, id) && Open(Written(s, id))
    ensures CanOpen(s)
  {
    OpenIff(s, id);
    hide *;
    NoUncover(id);
    OpenRun(Define(id), s, Written(s, id));
  }

  lemma NoUncover(id: nat)
    ensures !Uncovers(Define(id))
  {
  }

  lemma CanChange(s: State, id: nat)
    requires Valid(s) && Ready(s, id)
    ensures Enabled(Define(id), s) && Valid(Apply(Define(id), s))
    ensures Apply(Define(id), s).config == Written(s, id).text
    ensures GraphicsInfo(Written(s, id).text).found
    ensures GraphicsInfo(Written(s, id).text).hasPassword
            == var c := s.jobs[id].todo[0];
               if c.SetPassword? then c.pw != "" else GraphicsInfo(s.jobs[id].held.value).hasPassword
  {
    hide GraphicsInfo, Edited, Console;
    ReadyIff(s, id);
    assert JobOk(s.jobs[id]);
    ChangeDoes(s.jobs[id].todo[0], s.jobs[id].held.value);
    ValidStays(Define(id), s);
  }

  /** A job about to open the console to all interfaces, on a bare config. */
  lemma LastStep(s: State, b: nat)
    requires Valid(s) && Bare(s.config) && b in s.jobs && s.jobs[b] == Job([SetAddress(ALL, 0)], None, None)
    ensures CanOpen(s)
  {
    hide GraphicsInfo, Edited, Console, CanOpen, JobOk;
    var t := Apply(Dump(b), s);
    ValidStays(Dump(b), s);
    OpenIff(t, b);
    OpenNow(t, b);
    Then(Dump(b), s);
  }

  /** Another job defines an older, bare dump in between. */
  lemma StaleStep(s: State, a: nat, b: nat)
    requires Valid(s) && a != b && a in s.jobs && b in s.jobs && s.jobs[b] == Job([SetAddress(ALL, 0)], None, None)
    requires s.jobs[a].todo == [SetAddress(LOCAL, 0)] && s.jobs[a].held.Some? && Bare(s.jobs[a].held.value)
    ensures CanOpen(s)
  {
    hide GraphicsInfo, Edited, Console, CanOpen, JobOk, Valid;
    CanChange(s, a);
    LastStep(Apply(Define(a), s), b);
    Then(Define(a), s);
  }

  const SAFE := "x"

  lemma SafeOk()
    ensures ValidPassword(SAFE) && !LooksLikeAttr(SAFE)
  {
    assert |" listen="| == 8 && |" port="| == 6;
  }

  lemma ProtectStep(s: State, a: nat, b: nat)
    requires Valid(s) && a != b && a in s.jobs && b in s.jobs && GraphicsInfo(s.config).found
    requires s.jobs[b] == Job([SetPassword(SAFE), SetAddress(ALL, 0)], None, None)
    requires s.jobs[a].todo == [SetAddress(LOCAL, 0)] && s.jobs[a].held.Some? && Bare(s.jobs[a].held.value)
    ensures CanOpen(s)
  {
    hide GraphicsInfo, Edited, Console, CanOpen, JobOk;
    var t := Apply(Dump(b), s);
    ValidStays(Dump(b), s);
    CanChange(t, b);
    assert [SetPassword(SAFE), SetAddress(ALL, 0)][1..] == [SetAddress(ALL, 0)];
    hide Valid;
    StaleStep(Apply(Define(b), t), a, b);
    Then(Define(b), t);
    Then(Dump(b), s);
  }

  /** Two requests, one of them for the console to stay local. */
  lemma AskSteps(s: State, a: nat, b: nat)
    requires Valid(s) && Bare(s.config) && a !in s.jobs && b !in s.jobs && a != b
    ensures CanOpen(s)
  {
    hide GraphicsInfo, Edited, Console, CanOpen, JobOk, ValidPassword, LooksLikeAttr;
    SafeOk();
    Addresses();
    assert SAFE != "" && ALL != "";
    var e1, e2, e3 := Ask(a, "", LOCAL, 0), Dump(a), Ask(b, SAFE, ALL, 0);
    var s1 := Apply(e1, s);
    ValidStays(e1, s);
    assert s1.jobs[a].todo == [SetAddress(LOCAL, 0)];
    var s2 := Apply(e2, s1);
    ValidStays(e2, s1);
    var s3 := Apply(e3, s2);
    ValidStays(e3, s2);
    assert s3.jobs[b] == Job([SetPassword(SAFE), SetAddress(ALL, 0)], None, None);
    hide Valid;
    ProtectStep(s3, a, b);
    Then(e3, s2);
    Then(e2, s1);
    Then(e1, s);
  }

  lemma {:induction false} FreshId(ids: set<nat>) returns (n: nat)
    ensures forall id :: id in ids ==> id < n
  {
    if ids == {} { return 0; }
    var id :| id in ids;
    var m := FreshId(ids - {id});
    n := if m <= id then id + 1 else m;
    assert forall k :: k in ids ==> k == id || k in ids - {id};
  }

  lemma BareOpens(s: State)
    requires Valid(s) && Bare(s.config)
    ensures CanOpen(s)
  {
    hide CanOpen, Valid, Bare;
    var n := FreshId(s.jobs.Keys);
    AskSteps(s, n, n + 1);
  }

  /** A job that holds a dump whose define leaves a bare console. */
  lemma HeldOpens(s: State, id: nat)
    requires Valid(s) && id in s.jobs && s.jobs[id].todo != [] && s.jobs[id].held.Some?
    requires GraphicsInfo(s.jobs[id].held.value).found
    requires var c := s.jobs[id].todo[0];
      c == SetPassword("") || (c.SetAddress? && !GraphicsInfo(s.jobs[id].held.value).hasPassword)
    ensures CanOpen(s)
  {
    hide GraphicsInfo, Edited, Console, CanOpen, JobOk, Valid;
    CanChange(s, id);
    BareOpens(Apply(Define(id), s));
    Then(Define(id), s);
  }

  function HeldWeight(j: Job): nat {
    if j.held.None? then 1 else 0
  }

  /** A job that will clear the password, with a console to do it on. */
  lemma {:induction false} ClearOpens(s: State, id: nat)
    requires Valid(s) && id in s.jobs && Clears(s.jobs[id].todo) >= 0 && GraphicsInfo(s.config).found
    requires s.jobs[id].held.Some? ==> GraphicsInfo(s.jobs[id].held.value).found
    ensures CanOpen(s)
    decreases Clears(s.jobs[id].todo), HeldWeight(s.jobs[id])
  {
    hide GraphicsInfo, Edited, Console, CanOpen, JobOk;
    var j := s.jobs[id];
    if j.held.None? {
      ValidStays(Dump(id), s);
      hide Valid;
      ClearOpens(Apply(Dump(id), s), id);
      Then(Dump(id), s);
    } else if j.todo[0] == SetPassword("") {
      HeldOpens(s, id);
    } else {
      CanChange(s, id);
      hide Valid;
      ClearOpens(Apply(Define(id), s), id);
      Then(Define(id), s);
    }
  }

  /** A protected console that ZVM may write. */
  lemma SomeConsole() returns (text: string)
    ensures CleanConsole(text) && GraphicsInfo(text).found && GraphicsInfo(text).hasPassword
  {
    hide GraphicsInfo, CleanConsole, SetPasswordXML, CleanPassword, ValidPassword, LooksLikeAttr;
    ConsoleTrap.Console0Valid();
    SafeOk();
    NotEmpty(SAFE);
    PasswordEdit(ConsoleTrap.Console0().Text(), SAFE);
    text := SetPasswordXML(ConsoleTrap.Console0().Text(), SAFE).value;
  }

  lemma PendingOpens(s: State, id: nat)
    requires Valid(s) && id in s.jobs && Clears(s.jobs[id].todo) >= 0
    requires s.jobs[id].held.Some? ==> GraphicsInfo(s.jobs[id].held.value).found
    ensures CanOpen(s)
  {
    hide GraphicsInfo, CleanConsole, CanOpen, JobOk;
    var text := SomeConsole();
    ValidStays(Overwrite(text), s);
    ClearOpens(Apply(Overwrite(text), s), id);
    Then(Overwrite(text), s);
  }

  /** Exactly: from a valid state, some interleaving of requests, passes and protected rewrites puts a console
      without a password on all interfaces if and only if the config is bare, a job holds a dump whose define
      leaves one, or a job has yet to clear a password. */
  lemma CanOpenIff(s: State)
    requires Valid(s)
    ensures CanOpen(s) <==> !Covered(s)
  {
    if Covered(s) {
      forall es | Quiet(es, s) ensures !Opens(es, s) { CoveredForGood(es, s); }
    } else {
      hide GraphicsInfo, CanOpen, Console;
      if !Protected(s.config) {
        BareOpens(s);
      } else {
        var id :| id in s.jobs && !JobCovered(s.jobs[id]);
        assert JobOk(s.jobs[id]);
        if Clears(s.jobs[id].todo) >= 0 { PendingOpens(s, id); } else { HeldOpens(s, id); }
      }
    }
  }

  // ---------- the smallest such run ----------

  /** One accepted request for all interfaces alone with ZVM, which writes the console again without a password
      between the two defines. */
  function OverwriteBetween(pw: string, port: Int, bare: string): seq<Event> {
    [Ask(0, pw, ALL, port), Dump(0), Define(0), Overwrite(bare), Dump(0), Define(0)]
  }

  lemma OneStep(ev: Event, es: seq<Event>, s: State)
    requires Enabled(ev, s) && Runs(es, Apply(ev, s))
    ensures Runs([ev] + es, s) && After([ev] + es, s) == After(es, Apply(ev, s))
  {
    hide Enabled, Apply;
    assert ([ev] + es)[0] == ev && ([ev] + es)[1..] == es;
  }

  /** The second half: the address is defined on the console that ZVM wrote. */
  lemma SecondHalf(s: State, port: Int, bare: string)
    requires Valid(s) && s.jobs == map[0 := Job([SetAddress(ALL, port)], None, None)]
    requires CleanConsole(bare) && Bare(bare)
    ensures var es := [Overwrite(bare), Dump(0), Define(0)];
      Runs(es, s) && exists d :: Open(d) && After(es, s).log == s.log + [d]
  {
    hide GraphicsInfo, Edited, CleanConsole, Open, JobOk;
    var s1 := Apply(Overwrite(bare), s);
    ValidStays(Overwrite(bare), s);
    var s2 := Apply(Dump(0), s1);
    ValidStays(Dump(0), s1);
    hide Valid;
    CanChange(s2, 0);
    OpenIff(s2, 0);
    OneStep(Define(0), [], s2);
    OneStep(Dump(0), [Define(0)], s1);
    OneStep(Overwrite(bare), [Dump(0), Define(0)], s);
    assert [Define(0)] + [] == [Define(0)] && [Dump(0)] + [Define(0)] == [Dump(0), Define(0)];
    assert [Overwrite(bare)] + [Dump(0), Define(0)] == [Overwrite(bare), Dump(0), Define(0)];
  }

  /** On any clean console, for any accepted password that sets no trap. */
  lemma OverwriteOpens(text: string, pw: string, port: Int, bare: string)
    requires CleanConsole(text) && GraphicsInfo(text).found && CleanConsole(bare) && Bare(bare)
    requires ValidPassword(pw) && !LooksLikeAttr(pw) && (port == 0 || 5900 <= port <= 65535)
    ensures var s, es := State(text, map[], []), OverwriteBetween(pw, port, bare);
      Runs(es, s) && exists c, d :: Open(d) && After(es, s).log == [c, d]
  {
    hide GraphicsInfo, Edited, CleanConsole, Open, JobOk, ValidPassword, LooksLikeAttr;
    Addresses();
    NotEmpty(pw);
    assert ALL != "";
    var s := State(text, map[], []);
    var s1 := Apply(Ask(0, pw, ALL, port), s);
    ValidStays(Ask(0, pw, ALL, port), s);
    assert s1.jobs[0] == Job([SetPassword(pw), SetAddress(ALL, port)], None, None);
    var s2 := Apply(Dump(0), s1);
    ValidStays(Dump(0), s1);
    CanChange(s2, 0);
    var s3 := Apply(Define(0), s2);
    assert [SetPassword(pw), SetAddress(ALL, port)][1..] == [SetAddress(ALL, port)];
    assert s3.jobs == map[0 := Job([SetAddress(ALL, port)], None, None)];
    hide Valid;
    var rest := [Overwrite(bare), Dump(0), Define(0)];
    SecondHalf(s3, port, bare);
    var d :| Open(d) && After(rest, s3).log == s3.log + [d];
    assert s3.log == [Written(s2, 0)] && s3.log + [d] == [Written(s2, 0), d];
    OneStep(Define(0), rest, s2);
    OneStep(Dump(0), [Define(0)] + rest, s1);
    OneStep(Ask(0, pw, ALL, port), [Dump(0)] + ([Define(0)] + rest), s);
    assert [Ask(0, pw, ALL, port)] + ([Dump(0)] + ([Define(0)] + rest)) == OverwriteBetween(pw, port, bare);
  }
}
