/** What a pass of the VNC reconciler leaves behind, whatever order it visits the entries in. */
module VncPass {
  import opened GoStrings
  import AttrList
  import opened VncXml
  import opened VncDoc
  import opened VncLaws
  import opened VncTheorems
  import opened Client
  import opened VncStore

  // ---------- one entry on one document ----------

  /** A pin whose values set no trap for the console searches. */
  predicate EntryClean(e: Entry) {
    && (e.password == "" || CleanPassword(e.password))
    && (e.listen == "" || AddressOk(e.listen))
  }

  ghost predicate CleanConsole(text: string) {
    exists d: Doc :: d.Valid() && Clean(d.attrs) && d.Text() == text
  }

  /** Documents the reconciler meets: without a VNC console, or with a clean one. */
  ghost predicate Console(text: string) {
    OpenTag(text).NoSpan? || CleanConsole(text)
  }

  lemma PasswordEdit(text: string, pw: string)
    requires CleanConsole(text) && CleanPassword(pw)
    ensures var r := SetPasswordXML(text, pw);
      && r.Ok? && CleanConsole(r.value)
      && GraphicsInfo(r.value).found && GraphicsInfo(r.value).hasPassword == (pw != "")
      && ConsolePassword(r.value) == pw
      && (Quiet(pw) && !GraphicsInfo(text).hasPassword ==>
            GraphicsInfo(r.value).listen == GraphicsInfo(text).listen && GraphicsPort(r.value) == GraphicsPort(text))
    ensures GraphicsInfo(text).found
  {
    hide GraphicsInfo, GraphicsPort, ConsolePassword, SetPasswordXML, SetListenXML, CleanPassword, Quiet, Clean;
    hide Doc.Valid, Doc.Text, AttrList.ReadFirst;
    var d: Doc :| d.Valid() && Clean(d.attrs) && d.Text() == text;
    Loop();
    EditsRead(d, pw, "127.0.0.1", 0);
    ReaderRefines(d);
    NoPasswordClean();
    assert d.WithPassword(pw).Valid();
    PasswordRefines(d.WithPassword(pw));
  }

  lemma Loop()
    ensures AddressOk("127.0.0.1") && CleanPassword("") && Quiet("")
  {
    assert "127.0.0.1" == ['1', '2', '7', '.', '0', '.', '0', '.', '1'];
    NoPasswordClean();
  }

  lemma ListenEdit(text: string, listen: string, port: Int)
    requires CleanConsole(text) && AddressOk(listen)
    ensures var r := SetListenXML(text, listen, port);
      && r.Ok? && CleanConsole(r.value)
      && GraphicsInfo(r.value) == GraphicsInfo(text).(listen := listen)
      && GraphicsPort(r.value) == (if port > 0 then Port(port, false) else Port(0, true))
      && ConsolePassword(r.value) == ConsolePassword(text)
    ensures GraphicsInfo(text).found
  {
    hide GraphicsInfo, GraphicsPort, ConsolePassword, SetPasswordXML, SetListenXML, CleanPassword, AddressOk, Clean;
    hide Doc.Valid, Doc.Text, AttrList.ReadFirst;
    var d: Doc :| d.Valid() && Clean(d.attrs) && d.Text() == text;
    Loop();
    EditsRead(d, "", listen, port);
    ReaderRefines(d);
    assert d.WithListen(listen, port).Valid();
    PasswordRefines(d);
    PasswordRefines(d.WithListen(listen, port));
  }

  lemma EditsNeedConsole(text: string, pw: string, listen: string, port: Int)
    ensures GraphicsInfo(text).found <==> SetPasswordXML(text, pw).Ok?
    ensures GraphicsInfo(text).found <==> SetListenXML(text, listen, port).Ok?
    ensures !GraphicsInfo(text).found ==> GraphicsInfo(text) == Info(false, false, "")
  {
  }

  /** When the address and the port are as pinned: a port of its own, or libvirt's choice for port 0. */
  lemma InPlaceIff(e: Entry, text: string)
    ensures ListenInPlace(e, text) <==>
              GraphicsInfo(text).listen == e.listen
              && if e.port > 0 then GraphicsPort(text) == Port(e.port, false) else GraphicsPort(text).auto
  {
    hide GraphicsInfo, GraphicsPort;
  }

  /** Exactly which defines the repair of any text makes, and of what: a password where the reader finds a
      console without one, then an address where it finds another address or port than pinned. */
  lemma RepairIs(e: Entry, text: string)
    ensures var i := GraphicsInfo(text); var bare := e.password != "" && i.found && !i.hasPassword;
      var p := if bare then SetPasswordXML(text, e.password) else Ok(text);
      && p.Ok?
      && var j, now := GraphicsInfo(p.value), GraphicsPort(p.value);
      var drifted := e.listen != "" && j.found
                     && !(j.listen == e.listen && if e.port > 0 then now == Port(e.port, false) else now.auto);
      var l := if drifted then SetListenXML(p.value, e.listen, e.port) else Ok(p.value);
      && l.Ok?
      && RepairEntry(e, text) == Repair(l.value,
           (if bare then [PasswordWrite(e.vm, p.value)] else [])
           + (if drifted then [ListenWrite(e.vm, e.listen, e.port, l.value)] else []))
  {
    EditsNeedConsole(text, e.password, e.listen, e.port);
    var p := RepairPassword(e, text);
    hide GraphicsInfo, GraphicsPort, SetPasswordXML, SetListenXML, ListenInPlace;
    if p.Some? {
      EditsNeedConsole(p.value.text, e.password, e.listen, e.port);
      InPlaceIff(e, p.value.text);
    }
  }

  lemma PasswordHalf(e: Entry, text: string)
    requires EntryClean(e) && CleanConsole(text)
    ensures var p := RepairPassword(e, text);
      && p.Some? && CleanConsole(p.value.text)
      && ConsolePassword(p.value.text) == (if ConsolePassword(text) != "" then ConsolePassword(text) else e.password)
      && (e.password == "" || Quiet(e.password) || ConsolePassword(text) != "" ==>
            && GraphicsInfo(p.value.text).listen == GraphicsInfo(text).listen
            && GraphicsPort(p.value.text) == GraphicsPort(text))
  {
    hide GraphicsInfo, GraphicsPort, ConsolePassword, SetPasswordXML, SetListenXML, CleanPassword, AddressOk;
    hide CleanConsole, Quiet;
    Loop();
    PasswordSeen(text);
    PasswordEdit(text, e.password);
  }

  lemma ListenHalf(e: Entry, text: string)
    requires EntryClean(e) && CleanConsole(text)
    ensures var l := RepairListen(e, text);
      && CleanConsole(l.text) && ConsolePassword(l.text) == ConsolePassword(text)
      && (e.listen != "" ==> ListenInPlace(e, l.text))
      && (e.listen == "" ==> l.text == text)
  {
    hide GraphicsInfo, GraphicsPort, ConsolePassword, SetPasswordXML, SetListenXML, CleanPassword, AddressOk;
    hide CleanConsole;
    if e.listen != "" { ListenEdit(text, e.listen, e.port); }
  }

  lemma IdleAgain(e: Entry, text: string)
    requires (e.password != "" ==> ConsolePassword(text) != "") && (e.listen != "" ==> ListenInPlace(e, text))
    ensures RepairEntry(e, text) == Repair(text, [])
  {
    PasswordSeen(text);
    hide GraphicsInfo, GraphicsPort, ConsolePassword, SetPasswordXML, SetListenXML, ListenInPlace;
  }

  /** After its repair a VM has what its entry pins, keeps what it does not pin (unless the password hides
      it), and needs no more. */
  lemma RepairMeets(e: Entry, text: string)
    requires EntryClean(e) && CleanConsole(text)
    ensures var r := RepairEntry(e, text);
      && CleanConsole(r.text)
      && ConsolePassword(r.text) == (if GraphicsInfo(text).hasPassword then ConsolePassword(text) else e.password)
      && (GraphicsInfo(r.text).hasPassword <==> e.password != "" || GraphicsInfo(text).hasPassword)
      && (e.listen != "" ==>
            && GraphicsInfo(r.text).listen == e.listen
            && if e.port > 0 then GraphicsPort(r.text) == Port(e.port, false) else GraphicsPort(r.text).auto)
      && (e.listen == "" && (Quiet(e.password) || GraphicsInfo(text).hasPassword) ==>
            GraphicsInfo(r.text).listen == GraphicsInfo(text).listen && GraphicsPort(r.text) == GraphicsPort(text))
      && RepairEntry(e, r.text) == Repair(r.text, [])
  {
    hide GraphicsInfo, GraphicsPort, ConsolePassword, RepairPassword, RepairListen, CleanConsole, EntryClean, Quiet;
    hide ListenInPlace;
    PasswordSeen(text);
    PasswordHalf(e, text);
    var p := RepairPassword(e, text).value;
    assert EntryClean(e) && CleanConsole(p.text);
    ListenHalf(e, p.text);
    var r := RepairEntry(e, text).text;
    assert r == RepairListen(e, p.text).text;
    PasswordSeen(r);
    InPlaceIff(e, r);
    IdleAgain(e, r);
  }

  /** A domain without a VNC console is left alone, pass after pass. */
  lemma NoConsole(e: Entry, text: string)
    requires OpenTag(text).NoSpan?
    ensures RepairEntry(e, text) == Repair(text, [])
  {
  }

  /** A listen define of an entry that pins a password only ever writes a protected console. */
  lemma ListenWritesProtected(e: Entry, text: string)
    requires EntryClean(e) && Console(text) && e.password != ""
    ensures var ws := RepairEntry(e, text).writes;
      forall i :: 0 <= i < |ws| && ws[i].ListenWrite? ==>
          ws[i].listen == e.listen && GraphicsInfo(ws[i].text).hasPassword
  {
    LastWrite(e, text);
    if OpenTag(text).NoSpan? {
      NoConsole(e, text);
    } else {
      hide GraphicsInfo, GraphicsPort, CleanConsole, EntryClean, RepairEntry, OpenTag;
      RepairMeets(e, text);
    }
  }

  /** The listen define comes last. */
  lemma LastWrite(e: Entry, text: string)
    ensures var r := RepairEntry(e, text);
      forall i :: 0 <= i < |r.writes| && r.writes[i].ListenWrite? ==>
          r.writes[i].listen == e.listen && r.writes[i].text == r.text
  {
    hide GraphicsInfo, GraphicsPort, SetPasswordXML, SetListenXML, ListenInPlace;
  }

  // ---------- a whole pass ----------

  /** The defines of one VM, in order. */
  function Of(log: seq<Write>, vm: string): seq<Write> {
    if log == [] then [] else
    Of(log[..|log| - 1], vm) + (if log[|log| - 1].vm == vm then [log[|log| - 1]] else [])
  }

  lemma {:induction false} OfAppend(a: seq<Write>, b: seq<Write>, vm: string)
    ensures Of(a + b, vm) == Of(a, vm) + Of(b, vm)
  {
    if b == [] {
      assert a + b == a;
    } else {
      assert (a + b)[..|a + b| - 1] == a + b[..|b| - 1];
      OfAppend(a, b[..|b| - 1], vm);
    }
  }

  lemma OfOne(e: Entry, text: string, vm: string)
    ensures var ws := RepairEntry(e, text).writes; Of(ws, vm) == if vm == e.vm then ws else []
  {
    OwnWrites(e, text);
    hide *;
    OfAll(RepairEntry(e, text).writes, e.vm, vm);
  }

  lemma OwnWrites(e: Entry, text: string)
    ensures var ws := RepairEntry(e, text).writes; forall k :: 0 <= k < |ws| ==> ws[k].vm == e.vm
  {
    hide GraphicsInfo, GraphicsPort, SetPasswordXML, SetListenXML, ListenInPlace;
  }

  lemma {:induction false} OfAll(ws: seq<Write>, own: string, vm: string)
    requires forall k :: 0 <= k < |ws| ==> ws[k].vm == own
    ensures Of(ws, vm) == if vm == own then ws else []
  {
    if ws != [] {
      OfAll(ws[..|ws| - 1], own, vm);
      assert ws == ws[..|ws| - 1] + [ws[|ws| - 1]];
    }
  }

  lemma OneAt(e: Entry, w: World, vm: string)
    ensures var v := PassOne(e, w);
      && v.configs.Keys == w.configs.Keys
      && (e.vm == vm && vm in w.configs ==>
            && v.configs[vm] == RepairEntry(e, w.configs[vm]).text
            && Of(v.log, vm) == Of(w.log, vm) + RepairEntry(e, w.configs[vm]).writes)
      && (e.vm != vm || vm !in w.configs ==>
            Of(v.log, vm) == Of(w.log, vm) && (vm in w.configs ==> v.configs[vm] == w.configs[vm]))
  {
    hide RepairEntry;
    if e.vm in w.configs {
      var r := RepairEntry(e, w.configs[e.vm]);
      OfAppend(w.log, r.writes, vm);
      OfOne(e, w.configs[e.vm], vm);
    }
  }

  /** A pass does to each VM exactly what its own entry asks for, and nothing to VMs without one. */
  lemma {:induction false} PassAt(es: seq<Entry>, w: World, vm: string)
    requires forall i, j :: 0 <= i < j < |es| ==> es[i].vm != es[j].vm
    ensures var v := PassOver(es, w);
      && v.configs.Keys == w.configs.Keys
      && (vm in w.configs ==>
            forall i :: 0 <= i < |es| && es[i].vm == vm ==>
              && v.configs[vm] == RepairEntry(es[i], w.configs[vm]).text
              && Of(v.log, vm) == Of(w.log, vm) + RepairEntry(es[i], w.configs[vm]).writes)
      && (vm !in w.configs || (forall i :: 0 <= i < |es| ==> es[i].vm != vm) ==>
            Of(v.log, vm) == Of(w.log, vm) && (vm in w.configs ==> v.configs[vm] == w.configs[vm]))
  {
    hide RepairEntry, PassOne, Of;
    if es != [] {
      var n := |es| - 1;
      var front := es[..n];
      PassAt(front, w, vm);
      OneAt(es[n], PassOver(front, w), vm);
      assert forall i :: 0 <= i < n ==> front[i] == es[i];
    }
  }

  /** The result of a pass does not depend on the order of the map: the configs and each VM's own
      defines are the same for every listing of the store. */
  lemma OrderDoesNotMatter(es: seq<Entry>, es2: seq<Entry>, data: map<string, Entry>, w: World)
    requires Keyed(data) && IsListing(es, data) && IsListing(es2, data)
    ensures PassOver(es, w).configs == PassOver(es2, w).configs
    ensures forall vm :: Of(PassOver(es, w).log, vm) == Of(PassOver(es2, w).log, vm)
  {
    hide PassOver, Of;
    PassAt(es, w, "");
    PassAt(es2, w, "");
    forall vm | vm in w.configs
      ensures PassOver(es, w).configs[vm] == PassOver(es2, w).configs[vm]
    {
      SameAt(es, es2, data, w, vm);
    }
    forall vm
      ensures Of(PassOver(es, w).log, vm) == Of(PassOver(es2, w).log, vm)
    {
      SameAt(es, es2, data, w, vm);
    }
  }

  lemma SameAt(es: seq<Entry>, es2: seq<Entry>, data: map<string, Entry>, w: World, vm: string)
    requires Keyed(data) && IsListing(es, data) && IsListing(es2, data)
    ensures var v, v2 := PassOver(es, w), PassOver(es2, w);
      Of(v.log, vm) == Of(v2.log, vm) && (vm in v.configs && vm in v2.configs ==> v.configs[vm] == v2.configs[vm])
  {
    hide RepairEntry, PassOver, Of;
    PassAt(es, w, vm);
    PassAt(es2, w, vm);
    Listed(es, data, vm);
    Listed(es2, data, vm);
  }

  lemma Listed(es: seq<Entry>, data: map<string, Entry>, vm: string)
    requires Keyed(data) && IsListing(es, data)
    ensures vm in data ==> exists i :: 0 <= i < |es| && es[i].vm == vm && es[i] == data[vm]
    ensures vm !in data ==> forall i :: 0 <= i < |es| ==> es[i].vm != vm
  {
    if vm in data {
      var i :| 0 <= i < |es| && es[i] == data[vm];
    }
  }

  /** A pass running alone brings every defined, pinned VM that has a console to its pin. */
  lemma PassMeetsPins(es: seq<Entry>, data: map<string, Entry>, w: World, vm: string)
    requires Keyed(data) && IsListing(es, data) && vm in data && vm in w.configs
    requires EntryClean(data[vm]) && CleanConsole(w.configs[vm])
    ensures var v := PassOver(es, w); var e := data[vm];
      && vm in v.configs && CleanConsole(v.configs[vm])
      && (ConsolePassword(v.configs[vm])
          == if GraphicsInfo(w.configs[vm]).hasPassword then ConsolePassword(w.configs[vm]) else e.password)
      && (GraphicsInfo(v.configs[vm]).hasPassword <==> e.password != "" || GraphicsInfo(w.configs[vm]).hasPassword)
      && (e.listen != "" ==>
            && GraphicsInfo(v.configs[vm]).listen == e.listen
            && var now := GraphicsPort(v.configs[vm]); if e.port > 0 then now == Port(e.port, false) else now.auto)
      && (e.listen == "" && (Quiet(e.password) || GraphicsInfo(w.configs[vm]).hasPassword) ==>
            && GraphicsInfo(v.configs[vm]).listen == GraphicsInfo(w.configs[vm]).listen
            && GraphicsPort(v.configs[vm]) == GraphicsPort(w.configs[vm]))
  {
    hide RepairEntry, PassOver, GraphicsInfo, GraphicsPort, ListenInPlace, CleanConsole, EntryClean;
    PassAt(es, w, vm);
    Listed(es, data, vm);
    RepairMeets(data[vm], w.configs[vm]);
  }

  /** A second pass, in any order, defines nothing. */
  lemma {:induction false} SecondPassIdle(es: seq<Entry>, es2: seq<Entry>, data: map<string, Entry>, w: World)
    requires Keyed(data) && IsListing(es, data)
    requires forall i :: 0 <= i < |es2| ==> es2[i].vm in data && data[es2[i].vm] == es2[i]
    requires forall vm :: vm in data ==> EntryClean(data[vm])
    requires forall vm :: vm in data && vm in w.configs ==> Console(w.configs[vm])
    ensures PassOver(es2, PassOver(es, w)) == PassOver(es, w)
    decreases |es2|
  {
    hide RepairEntry, GraphicsInfo, GraphicsPort, CleanConsole, EntryClean, OpenTag;
    if es2 != [] {
      var n, v := |es2| - 1, PassOver(es, w);
      SecondPassIdle(es, es2[..n], data, w);
      var e := es2[n];
      PassAt(es, w, e.vm);
      if e.vm in v.configs {
        Listed(es, data, e.vm);
        Settled(e, w.configs[e.vm]);
        assert v.configs[e.vm := v.configs[e.vm]] == v.configs && v.log + [] == v.log;
      }
    }
  }

  lemma Settled(e: Entry, text: string)
    requires EntryClean(e) && Console(text)
    ensures RepairEntry(e, RepairEntry(e, text).text) == Repair(RepairEntry(e, text).text, [])
  {
    hide RepairEntry, CleanConsole, EntryClean;
    if OpenTag(text).NoSpan? { NoConsole(e, text); } else { RepairMeets(e, text); }
  }
}
