/** What the edits and the readers do on clean tags: nothing swallowed, nothing shadowed but a port. */
module VncLaws {
  import opened GoStrings
  import opened AttrList
  import opened AttrLaws
  import opened VncMarker
  import opened VncDoc

  // ---------- suffixes ----------

  lemma NotSuffix(v: string, suffix: string)
    requires 0 < |suffix| && (v == "" || v[|v| - 1] != suffix[|suffix| - 1])
    ensures !EndsWith(v, suffix)
  {
    if |suffix| <= |v| { assert v[|v| - |suffix|..][|suffix| - 1] == v[|v| - 1]; }
  }

  lemma WholeSuffix(v: string)
    ensures EndsWith(v, v)
  {
    assert v[0..] == v;
  }

  lemma ShorterSuffix(v: string, x: string, y: string)
    requires EndsWith(v, x + y)
    ensures EndsWith(v, y)
  {
    assert v[|v| - |y|..] == v[|v| - |x + y|..][|x|..] == y;
  }

  /** No name of the console's own attributes ends in another one, but for autoport and port. */
  lemma OwnNames()
    ensures !EndsWith("listen", "passwd") && !EndsWith("port", "passwd") && !EndsWith("autoport", "passwd")
    ensures !EndsWith("passwd", "listen") && !EndsWith("port", "listen") && !EndsWith("autoport", "listen")
    ensures !EndsWith("passwd", "port") && !EndsWith("listen", "port")
    ensures !EndsWith("passwd", "autoport") && !EndsWith("listen", "autoport") && !EndsWith("port", "autoport")
    ensures EndsWith("autoport", "port")
  {
    NotSuffix("listen", "passwd"); NotSuffix("port", "passwd"); NotSuffix("autoport", "passwd");
    NotSuffix("passwd", "listen"); NotSuffix("port", "listen"); NotSuffix("autoport", "listen");
    NotSuffix("passwd", "port"); NotSuffix("listen", "port");
    NotSuffix("passwd", "autoport"); NotSuffix("listen", "autoport");
    assert "autoport"[4..] == "port";
  }

  // ---------- reading behind other attributes ----------

  predicate Silent(a: Attr, key: string) {
    !EndsWith(a.name, key) && !EndsWith(a.value, key + "=")
  }

  lemma {:induction false} ReadSkips(x: seq<Attr>, y: seq<Attr>, key: string)
    requires forall i :: 0 <= i < |x| ==> Silent(x[i], key)
    ensures ReadFirst(x + y, key) == ReadFirst(y, key)
  {
    if x == [] {
      assert x + y == y;
    } else {
      assert (x + y)[0] == x[0] && (x + y)[1..] == x[1..] + y;
      ReadSkips(x[1..], y, key);
    }
  }

  /** Values are `Heard` when a value ending in `key=` sits only behind a name that already hit. */
  predicate Heard(attrs: seq<Attr>, key: string) {
    forall i :: 0 <= i < |attrs| ==> EndsWith(attrs[i].name, key) || !EndsWith(attrs[i].value, key + "=")
  }

  lemma {:induction false} ReadWithout(attrs: seq<Attr>, name: string, key: string)
    requires Heard(attrs, key) && !EndsWith(name, key)
    ensures ReadFirst(Remove(attrs, name), key) == ReadFirst(attrs, key)
    ensures Heard(Remove(attrs, name), key)
  {
    if attrs != [] && attrs[0].name != name {
      var rest := attrs[1..];
      ReadWithout(rest, name, key);
      assert ([attrs[0]] + Remove(rest, name))[1..] == Remove(rest, name);
    }
  }

  /** Values that set no trap for dropping `name`. */
  predicate NoTrap(attrs: seq<Attr>, name: string) {
    forall i :: 0 <= i < |attrs| ==> attrs[i].name == name || !EndsWith(attrs[i].value, " " + name + "=")
  }

  lemma {:induction false} DropIsRemove(attrs: seq<Attr>, name: string)
    requires NoTrap(attrs, name)
    ensures DropFirst(attrs, name) == Remove(attrs, name)
  {
    if attrs != [] { DropIsRemove(attrs[1..], name); }
  }

  lemma {:induction false} RemoveAbsent(attrs: seq<Attr>, name: string)
    requires !Named(attrs, name)
    ensures Remove(attrs, name) == attrs
  {
    if attrs != [] {
      assert attrs[0].name != name;
      forall i | 0 <= i < |attrs[1..]| ensures attrs[1..][i].name != name { assert attrs[i + 1].name != name; }
      RemoveAbsent(attrs[1..], name);
    }
  }

  lemma RemoveHead(a: Attr, z: seq<Attr>, name: string)
    ensures Remove([a] + z, name) == if a.name == name then z else [a] + Remove(z, name)
  {
    assert ([a] + z)[1..] == z;
  }

  lemma Assoc(x: seq<Attr>, y: seq<Attr>, z: seq<Attr>)
    ensures x + (y + z) == x + y + z
  {
  }

  lemma {:induction false} RemoveAppend(x: seq<Attr>, y: seq<Attr>, name: string)
    ensures Remove(x + y, name) == if Named(x, name) then Remove(x, name) + y else x + Remove(y, name)
  {
    if x == [] {
      assert x + y == y;
    } else {
      hide *;
      var a, rest := [x[0]], x[1..];
      assert x == a + rest;
      Assoc(a, rest, y);
      RemoveAppend(rest, y, name);
      NamedFirst(x, name);
      RemoveHead(x[0], rest + y, name);
      RemoveHead(x[0], rest, name);
      if Named(rest, name) { Assoc(a, Remove(rest, name), y); } else { Assoc(a, rest, Remove(y, name)); }
    }
  }

  // ---------- clean tags ----------

  /** A value that hides no attribute from the readers. */
  predicate Quiet(v: string) {
    !EndsWith(v, "listen=") && !EndsWith(v, "port=")
  }

  /** A value that swallows no neighbour when the listen edit drops its attributes. */
  predicate Harmless(v: string) {
    !EndsWith(v, " listen=") && !EndsWith(v, " port=") && !EndsWith(v, " autoport=")
  }

  /** Attributes among which no search of vnc.go goes astray, but for a password that hides the others
      from the readers.  Every tag libvirt prints has such names; the values are the caller's to check. */
  predicate CleanAttr(a: Attr) {
    && (if a.name == "passwd" then Harmless(a.value) else Quiet(a.value) && !EndsWith(a.value, "passwd="))
    && (EndsWith(a.name, "listen") ==> a.name == "listen")
    && (EndsWith(a.name, "passwd") ==> a.name == "passwd")
    && (EndsWith(a.name, "port") ==> a.name == "port" || a.name == "autoport")
  }

  predicate Clean(attrs: seq<Attr>) {
    WellFormed(attrs) && forall i :: 0 <= i < |attrs| ==> CleanAttr(attrs[i])
  }

  /** A console address: no character that means anything to the searches. */
  predicate AddressOk(listen: string) {
    listen != "" && ValueOk(listen) && '=' !in listen
  }

  lemma TrapFree(attrs: seq<Attr>, name: string, x: string, key: string)
    requires x + key == " " + name + "="
    requires forall i :: 0 <= i < |attrs| ==> attrs[i].name == name || !EndsWith(attrs[i].value, key)
    ensures NoTrap(attrs, name)
  {
    forall i | 0 <= i < |attrs| ensures attrs[i].name == name || !EndsWith(attrs[i].value, " " + name + "=") {
      if EndsWith(attrs[i].value, x + key) { ShorterSuffix(attrs[i].value, x, key); }
    }
  }

  lemma HeardFree(attrs: seq<Attr>, name: string, x: string, key: string)
    requires x + key == name + "="
    requires forall i :: 0 <= i < |attrs| ==> attrs[i].name == name || !EndsWith(attrs[i].value, key)
    ensures Heard(attrs, name)
  {
    forall i | 0 <= i < |attrs| ensures EndsWith(attrs[i].name, name) || !EndsWith(attrs[i].value, name + "=") {
      if EndsWith(attrs[i].value, x + key) { ShorterSuffix(attrs[i].value, x, key); }
      assert attrs[i].name == name ==> attrs[i].name[0..] == name;
    }
  }

  lemma QuietIsHarmless(v: string)
    requires Quiet(v)
    ensures Harmless(v)
  {
    assert " listen=" == " " + "listen=" && " port=" == " " + "port=" && " autoport=" == " auto" + "port=";
    if EndsWith(v, " " + "listen=") { ShorterSuffix(v, " ", "listen="); }
    if EndsWith(v, " " + "port=") { ShorterSuffix(v, " ", "port="); }
    if EndsWith(v, " auto" + "port=") { ShorterSuffix(v, " auto", "port="); }
  }

  lemma CleanValues(attrs: seq<Attr>)
    requires forall i :: 0 <= i < |attrs| ==> CleanAttr(attrs[i])
    ensures forall i :: 0 <= i < |attrs| ==>
        Harmless(attrs[i].value) && (attrs[i].name == "passwd" || !EndsWith(attrs[i].value, "passwd="))
  {
    hide Harmless, Quiet;
    forall i | 0 <= i < |attrs| ensures Harmless(attrs[i].value) {
      assert CleanAttr(attrs[i]);
      if attrs[i].name != "passwd" { QuietIsHarmless(attrs[i].value); }
    }
  }

  lemma CleanTraps(attrs: seq<Attr>)
    requires forall i :: 0 <= i < |attrs| ==> CleanAttr(attrs[i])
    ensures NoTrap(attrs, "listen") && NoTrap(attrs, "port") && NoTrap(attrs, "autoport") && NoTrap(attrs, "passwd")
    ensures Heard(attrs, "passwd")
  {
    CleanValues(attrs);
    hide EndsWith, CleanAttr;
    TrapFree(attrs, "listen", "", " listen=");
    TrapFree(attrs, "port", "", " port=");
    TrapFree(attrs, "autoport", "", " autoport=");
    TrapFree(attrs, "passwd", " ", "passwd=");
    HeardFree(attrs, "passwd", "", "passwd=");
  }

  lemma RemoveClean(attrs: seq<Attr>, name: string)
    requires Clean(attrs)
    ensures Clean(Remove(attrs, name)) && !Named(Remove(attrs, name), name)
    ensures forall other :: !Named(attrs, other) ==> !Named(Remove(attrs, name), other)
    ensures Marked(attrs) && !EndsWith(name, "type") ==> Marked(Remove(attrs, name))
  {
    RemoveKeeps(attrs, name);
    RemoveMembers(attrs, name);
    hide CleanAttr, EndsWith, WellFormed, Named, Marked, Remove;
    var d := Remove(attrs, name);
    assert forall i :: 0 <= i < |d| ==> d[i] in d;
    PartClean(attrs, d);
    forall other ensures !Named(attrs, other) ==> !Named(d, other) { PartNamed(attrs, d, other); }
    if Marked(attrs) && !EndsWith(name, "type") { PartMarked(attrs, d, name); }
  }

  lemma PartClean(attrs: seq<Attr>, d: seq<Attr>)
    requires (forall i :: 0 <= i < |attrs| ==> CleanAttr(attrs[i])) && forall i :: 0 <= i < |d| ==> d[i] in attrs
    ensures forall i :: 0 <= i < |d| ==> CleanAttr(d[i])
  {
    hide CleanAttr;
    forall i | 0 <= i < |d| ensures CleanAttr(d[i]) {
      var j :| 0 <= j < |attrs| && attrs[j] == d[i];
    }
  }

  lemma PartNamed(attrs: seq<Attr>, d: seq<Attr>, other: string)
    requires forall i :: 0 <= i < |d| ==> d[i] in attrs
    ensures Named(d, other) ==> Named(attrs, other)
  {
    if i :| 0 <= i < |d| && d[i].name == other {
      var j :| 0 <= j < |attrs| && attrs[j] == d[i];
    }
  }

  lemma PartMarked(attrs: seq<Attr>, d: seq<Attr>, name: string)
    requires Marked(attrs) && !EndsWith(name, "type") && forall a :: a in d <==> a in attrs && a.name != name
    ensures Marked(d)
  {
    hide EndsWith;
    var i :| 0 <= i < |attrs| && IsMarker(attrs[i]);
    assert attrs[i] in d;
  }

  /** On clean tags the three drops delete exactly the three attributes. */
  lemma StrippedClean(attrs: seq<Attr>)
    requires Clean(attrs)
    ensures var s := Stripped(attrs);
      && s == Remove(Remove(Remove(attrs, "listen"), "port"), "autoport")
      && Clean(s) && !Named(s, "listen") && !Named(s, "port") && !Named(s, "autoport")
      && (Marked(attrs) ==> Marked(s)) && (!Named(attrs, "passwd") ==> !Named(s, "passwd"))
      && ReadFirst(s, "passwd") == ReadFirst(attrs, "passwd")
  {
    hide EndsWith, CleanAttr;
    NotSuffix("listen", "type"); NotSuffix("port", "type"); NotSuffix("autoport", "type");
    OwnNames();
    var a1 := Remove(attrs, "listen");
    var a2 := Remove(a1, "port");
    CleanTraps(attrs); DropIsRemove(attrs, "listen"); RemoveClean(attrs, "listen");
    ReadWithout(attrs, "listen", "passwd");
    CleanTraps(a1); DropIsRemove(a1, "port"); RemoveClean(a1, "port");
    ReadWithout(a1, "port", "passwd");
    CleanTraps(a2); DropIsRemove(a2, "autoport"); RemoveClean(a2, "autoport");
    ReadWithout(a2, "autoport", "passwd");
  }

  /** An attribute the setters write in front is clean. */
  lemma CleanValue(v: string)
    requires v == "" || v[|v| - 1] != '='
    ensures Quiet(v) && !EndsWith(v, "passwd=")
  {
    NotSuffix(v, "listen="); NotSuffix(v, "port="); NotSuffix(v, "passwd=");
  }

  lemma OwnAttrs(v: string)
    requires v == "" || v[|v| - 1] != '='
    ensures CleanAttr(Attr("listen", v)) && Silent(Attr("listen", v), "passwd")
    ensures CleanAttr(Attr("port", v)) && Silent(Attr("port", v), "passwd")
    ensures CleanAttr(Attr("autoport", v)) && Silent(Attr("autoport", v), "passwd")
  {
    OwnNames();
    CleanValue(v);
    assert "passwd" + "=" == "passwd=";
  }

  lemma ListenListClean(listen: string, port: Int)
    requires AddressOk(listen)
    ensures Clean(ListenList(listen, port))
    ensures forall i :: 0 <= i < |ListenList(listen, port)| ==>
              var a := ListenList(listen, port)[i];
              Silent(a, "passwd") && (a.name == "listen" || a.name == "port" || a.name == "autoport")
  {
    hide CleanAttr, Silent, Shaped, Itoa;
    ListenListShaped(listen, port);
    OwnAttrs(listen); OwnAttrs("no"); OwnAttrs("yes");
    if port > 0 {
      ItoaDigits(port);
      OwnAttrs(Itoa(port));
    }
  }

  lemma CleanAppend(x: seq<Attr>, y: seq<Attr>)
    requires Clean(x) && Clean(y) && forall i :: 0 <= i < |x| ==> !Named(y, x[i].name)
    ensures Clean(x + y)
  {
    var z := x + y;
    forall i, j | 0 <= i < j < |z| ensures z[i].name != z[j].name {
      if i < |x| <= j { assert y[j - |x|].name == z[j].name; }
    }
  }

  lemma MarkedAppend(x: seq<Attr>, s: seq<Attr>)
    ensures Marked(s) ==> Marked(x + s)
  {
    hide IsMarker;
    if i :| 0 <= i < |s| && IsMarker(s[i]) { assert (x + s)[|x| + i] == s[i]; }
  }

  /** After a listen edit the tag is clean and marked again and reads the same password. */
  lemma ListenKeeps(attrs: seq<Attr>, listen: string, port: Int)
    requires Clean(attrs) && AddressOk(listen)
    ensures var a := ListenList(listen, port) + Stripped(attrs);
      && Clean(a) && (Marked(attrs) ==> Marked(a)) && ReadFirst(a, "passwd") == ReadFirst(attrs, "passwd")
  {
    hide EndsWith, CleanAttr, Silent, Marked, ReadFirst, Stripped;
    var x, s := ListenList(listen, port), Stripped(attrs);
    StrippedClean(attrs);
    ListenListClean(listen, port);
    CleanAppend(x, s);
    ReadSkips(x, s, "passwd");
    MarkedAppend(x, s);
  }

  /** Password values that survive a listen edit. */
  predicate CleanPassword(pw: string) {
    ValueOk(pw) && Harmless(pw)
  }

  lemma NoPasswordClean()
    ensures CleanPassword("") && Quiet("")
  {
    CleanValue("");
    QuietIsHarmless("");
  }

  lemma PasswordClean(attrs: seq<Attr>, pw: string)
    requires Clean(attrs) && CleanPassword(pw)
    ensures DropFirst(attrs, "passwd") == Remove(attrs, "passwd")
    ensures var a := PasswordList(pw) + Remove(attrs, "passwd"); Clean(a) && (Marked(attrs) ==> Marked(a))
  {
    hide EndsWith, CleanAttr, Marked, NoTrap, Remove;
    var x, s := PasswordList(pw), Remove(attrs, "passwd");
    CleanTraps(attrs);
    DropIsRemove(attrs, "passwd");
    NotSuffix("passwd", "type");
    RemoveClean(attrs, "passwd");
    OwnPasswordClean(pw);
    CleanAppend(x, s);
    MarkedAppend(x, s);
  }

  lemma OwnPasswordClean(pw: string)
    requires CleanPassword(pw)
    ensures Clean(PasswordList(pw))
  {
    OwnNames();
    Names();
  }

  /** After a password edit the tag is clean and marked again and reads the new password; everything
      else reads as before when neither the old nor the new password hides it. */
  lemma PasswordKeeps(attrs: seq<Attr>, pw: string)
    requires Clean(attrs) && CleanPassword(pw)
    ensures var a := PasswordList(pw) + DropFirst(attrs, "passwd");
      && Clean(a) && (Marked(attrs) ==> Marked(a)) && ReadFirst(a, "passwd") == pw
      && (Quiet(pw) && Quiet(ReadFirst(attrs, "passwd")) ==>
            && ReadFirst(a, "listen") == ReadFirst(attrs, "listen")
            && ReadFirst(a, "port") == ReadFirst(attrs, "port")
            && ReadFirst(a, "autoport") == ReadFirst(attrs, "autoport"))
  {
    hide EndsWith, Clean, CleanAttr, Quiet;
    PasswordClean(attrs, pw);
    OwnPassword(attrs, pw);
    if Quiet(pw) && Quiet(ReadFirst(attrs, "passwd")) {
      CleanIsHeard(attrs);
      QuietEnds(pw);
      OwnNames();
      PasswordRest(attrs, pw, "listen");
      PasswordRest(attrs, pw, "port");
      PasswordRest(attrs, pw, "autoport");
    }
  }

  lemma {:induction false} OldPassword(attrs: seq<Attr>, i: nat)
    requires (forall j :: 0 <= j < |attrs| ==> CleanAttr(attrs[j])) && i < |attrs| && attrs[i].name == "passwd"
    requires forall j :: 0 <= j < i ==> attrs[j].name != "passwd"
    ensures ReadFirst(attrs, "passwd") == attrs[i].value
  {
    if i == 0 {
      WholeSuffix("passwd");
    } else {
      OtherAttr(attrs[0]);
      hide CleanAttr, EndsWith, ReadFirst, Silent;
      OldPassword(attrs[1..], i - 1);
      ReadNext(attrs, "passwd");
    }
  }

  lemma OtherAttr(a: Attr)
    requires CleanAttr(a) && a.name != "passwd"
    ensures Silent(a, "passwd")
  {
    assert "passwd" + "=" == "passwd=";
  }

  lemma ReadNext(attrs: seq<Attr>, key: string)
    requires attrs != [] && Silent(attrs[0], key)
    ensures ReadFirst(attrs, key) == ReadFirst(attrs[1..], key)
  {
    hide EndsWith;
  }

  lemma QuietEnds(v: string)
    requires Quiet(v)
    ensures !EndsWith(v, "listen" + "=") && !EndsWith(v, "port" + "=") && !EndsWith(v, "autoport" + "=")
  {
    assert "listen" + "=" == "listen=" && "port" + "=" == "port=" && "autoport" + "=" == "auto" + "port=";
    if EndsWith(v, "auto" + "port=") { ShorterSuffix(v, "auto", "port="); }
  }

  /** With a quiet password the readers find every attribute. */
  lemma CleanIsHeard(attrs: seq<Attr>)
    requires Clean(attrs) && Quiet(ReadFirst(attrs, "passwd"))
    ensures Heard(attrs, "listen") && Heard(attrs, "port") && Heard(attrs, "autoport")
  {
    hide EndsWith, ReadFirst, Quiet;
    forall i | 0 <= i < |attrs| ensures Quiet(attrs[i].value) {
      if attrs[i].name == "passwd" { OldPassword(attrs, i); } else { assert CleanAttr(attrs[i]); }
    }
    forall i | 0 <= i < |attrs|
      ensures !EndsWith(attrs[i].value, "listen" + "=") && !EndsWith(attrs[i].value, "port" + "=")
          && !EndsWith(attrs[i].value, "autoport" + "=")
    {
      QuietEnds(attrs[i].value);
    }
  }

  lemma OwnPassword(attrs: seq<Attr>, pw: string)
    requires Clean(attrs)
    ensures ReadFirst(PasswordList(pw) + Remove(attrs, "passwd"), "passwd") == pw
  {
    hide EndsWith, CleanAttr;
    var x, s := PasswordList(pw), Remove(attrs, "passwd");
    if pw == "" {
      RemoveClean(attrs, "passwd");
      assert x + s == s;
      NoPassword(s);
    } else {
      assert (x + s)[0] == Attr("passwd", pw);
      assert EndsWith("passwd", "passwd") by { WholeSuffix("passwd"); }
    }
  }

  lemma {:induction false} NoPassword(s: seq<Attr>)
    requires (forall i :: 0 <= i < |s| ==> CleanAttr(s[i])) && !Named(s, "passwd")
    ensures ReadFirst(s, "passwd") == ""
  {
    if s != [] {
      assert s[0].name != "passwd";
      assert "passwd" + "=" == "passwd=";
      forall i | 0 <= i < |s[1..]| ensures s[1..][i].name != "passwd" { assert s[i + 1].name != "passwd"; }
      NoPassword(s[1..]);
    }
  }

  lemma PasswordRest(attrs: seq<Attr>, pw: string, key: string)
    requires Heard(attrs, key) && !EndsWith("passwd", key) && !EndsWith(pw, key + "=")
    ensures ReadFirst(PasswordList(pw) + Remove(attrs, "passwd"), key) == ReadFirst(attrs, key)
  {
    ReadWithout(attrs, "passwd", key);
    ReadSkips(PasswordList(pw), Remove(attrs, "passwd"), key);
  }
}
