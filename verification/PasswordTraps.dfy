/** The rest of what an accepted password can do to the console searches. */
module PasswordTraps {
  import opened GoStrings
  import opened AttrList
  import opened AttrLaws
  import opened VncXml
  import opened VncMarker
  import opened VncDoc
  import opened VncLaws
  import opened VncTheorems
  import VncText
  import opened Password

  // ---------- what the readers make of a password just set ----------

  lemma FirstHeard(pw: string, s: seq<Attr>, key: string)
    requires !EndsWith("passwd", key)
    ensures ReadFirst([Attr("passwd", pw)] + s, key)
            == if EndsWith(pw, key + "=") then (if s == [] then "" else " " + s[0].name + "=") else ReadFirst(s, key)
  {
    assert ([Attr("passwd", pw)] + s)[1..] == s;
    if s != [] { assert ([Attr("passwd", pw)] + s)[1] == s[0]; }
  }

  /** The own attributes other than the password read the same behind a password, but for its endings. */
  lemma ReadsBehind(attrs: seq<Attr>, pw: string, key: string)
    requires Clean(attrs) && Marked(attrs) && !EndsWith("passwd", key) && Heard(attrs, key)
    ensures var s := Remove(attrs, "passwd");
      s != [] && ReadFirst([Attr("passwd", pw)] + s, key)
                 == if EndsWith(pw, key + "=") then " " + s[0].name + "=" else ReadFirst(attrs, key)
  {
    hide EndsWith, CleanAttr, IsMarker;
    PasswordIsRemove(attrs);
    FirstHeard(pw, Remove(attrs, "passwd"), key);
    ReadWithout(attrs, "passwd", key);
  }

  lemma NotNumber(n: string)
    ensures Atoi(" " + n + "=") == None
  {
    VncText.NotANumber(" " + n + "=");
  }

  lemma ShortPassword(pw: string)
    requires |pw| <= 8
    ensures !EndsWith(pw, "autoport" + "=")
  {
    assert |"autoport" + "="| == 9;
  }

  /** On the attribute list: a password just set hides the port exactly when it ends in `port=`. */
  lemma PortBehind(attrs: seq<Attr>, pw: string)
    requires Clean(attrs) && Marked(attrs) && Quiet(ReadFirst(attrs, "passwd")) && |pw| <= 8
    ensures PortOf([Attr("passwd", pw)] + Remove(attrs, "passwd"))
            == if EndsWith(pw, "port=") then PortOf(attrs).(port := 0) else PortOf(attrs)
  {
    hide EndsWith, CleanAttr, IsMarker, ReadFirst, Atoi;
    CleanIsHeard(attrs);
    OwnNames();
    ShortPassword(pw);
    ReadsBehind(attrs, pw, "port");
    ReadsBehind(attrs, pw, "autoport");
    assert "port" + "=" == "port=";
    NotNumber(Remove(attrs, "passwd")[0].name);
  }

  lemma ListenBehind(attrs: seq<Attr>, pw: string)
    requires Clean(attrs) && Marked(attrs) && Quiet(ReadFirst(attrs, "passwd")) && '=' !in ReadFirst(attrs, "listen")
    ensures ReadFirst([Attr("passwd", pw)] + Remove(attrs, "passwd"), "listen") == ReadFirst(attrs, "listen")
            <==> !EndsWith(pw, "listen=")
  {
    hide EndsWith, CleanAttr, IsMarker, ReadFirst;
    CleanIsHeard(attrs);
    OwnNames();
    ReadsBehind(attrs, pw, "listen");
    assert "listen" + "=" == "listen=";
    var n := Remove(attrs, "passwd")[0].name;
    assert (" " + n + "=")[|n| + 1] == '=';
  }

  lemma PasswordValid(doc: Doc, pw: string)
    requires doc.Valid() && Clean(doc.attrs) && ValidPassword(pw)
    ensures var d := doc.WithPassword(pw);
      && SetPasswordXML(doc.Text(), pw) == Ok(d.Text()) && d.Valid()
      && d.attrs == [Attr("passwd", pw)] + Remove(doc.attrs, "passwd")
  {
    hide EndsWith, CleanAttr, IsMarker, SetPasswordXML;
    ValidIsPlain(pw);
    ValidMarked(doc);
    PasswordIsRemove(doc.attrs);
    MarkedAppend([Attr("passwd", pw)], Remove(doc.attrs, "passwd"));
    SetPasswordRefines(doc, pw);
  }

  /** After any accepted password is set the reader finds a password; the port and the address read as
      before exactly when the password does not end like the attribute, or there is nothing to hide. */
  lemma PasswordReadsIff(doc: Doc, pw: string)
    requires doc.Valid() && Clean(doc.attrs) && ValidPassword(pw)
    requires Quiet(ReadFirst(doc.attrs, "passwd")) && '=' !in ReadFirst(doc.attrs, "listen")
    ensures var r := SetPasswordXML(doc.Text(), pw); var was := doc.Text();
      && r.Ok? && GraphicsInfo(r.value).found && GraphicsInfo(r.value).hasPassword
      && (GraphicsPort(r.value) == GraphicsPort(was) <==> !EndsWith(pw, "port=") || GraphicsPort(was).port == 0)
      && (GraphicsInfo(r.value).listen == GraphicsInfo(was).listen <==>
          !EndsWith(pw, "listen=") || doc.ChildListen() != "")
  {
    hide EndsWith, CleanAttr, IsMarker, SetPasswordXML, ReadFirst, GraphicsInfo, GraphicsPort, ChildAddress;
    ValidMarked(doc);
    ValidIsPlain(pw);
    PasswordValid(doc, pw);
    ReaderRefines(doc);
    ReaderRefines(doc.WithPassword(pw));
    PortBehind(doc.attrs, pw);
    ListenBehind(doc.attrs, pw);
    ReadOwn(doc.WithPassword(pw).attrs);
  }

  // ---------- a console that is lost ----------

  lemma MarkedBehind(x: seq<Attr>, s: seq<Attr>)
    requires forall i :: 0 <= i < |x| ==> !IsMarker(x[i])
    ensures Marked(x + s) <==> Marked(s)
  {
    hide IsMarker;
    MarkedAppend(x, s);
    if i :| 0 <= i < |x + s| && IsMarker((x + s)[i]) { assert i >= |x| && s[i - |x|] == (x + s)[i]; }
  }

  lemma MarkedWithout(attrs: seq<Attr>, name: string)
    requires Clean(attrs) && !EndsWith(name, "type")
    ensures Clean(Remove(attrs, name)) && (Marked(Remove(attrs, name)) <==> Marked(attrs))
  {
    hide CleanAttr, EndsWith;
    RemoveClean(attrs, name);
    RemoveMembers(attrs, name);
    var d := Remove(attrs, name);
    if i :| 0 <= i < |d| && IsMarker(d[i]) {
      assert d[i] in d;
      var j :| 0 <= j < |attrs| && attrs[j] == d[i];
    }
  }

  lemma NoMarkers(v: string)
    ensures !IsMarker(Attr("passwd", v)) && !IsMarker(Attr("listen", v)) && !IsMarker(Attr("port", v))
        && !IsMarker(Attr("autoport", v))
    ensures !EndsWith("passwd", "type") && !EndsWith("listen", "type") && !EndsWith("port", "type")
        && !EndsWith("autoport", "type")
  {
    NotSuffix("passwd", "type"); NotSuffix("listen", "type"); NotSuffix("port", "type"); NotSuffix("autoport", "type");
  }

  /** The attributes behind the one that the trapped password swallows. */
  function Spared(pw: string, rest: seq<Attr>): seq<Attr>
    requires Remove(rest, "listen") != [] && rest != []
  {
    if EndsWith(pw, " listen=") then rest[1..] else Remove(rest, "listen")[1..]
  }

  lemma SparedMarked(pw: string, rest: seq<Attr>)
    requires ValidPassword(pw) && LooksLikeAttr(pw) && Clean(rest) && !Named(rest, "passwd")
    requires rest != [] && Remove(rest, "listen") != []
    ensures Marked(After(pw, rest)) <==> Marked(Spared(pw, rest))
  {
    hide CleanAttr, EndsWith, Remove, IsMarker, After;
    NoMarkers("");
    RemoveClean(rest, "listen");
    if EndsWith(pw, " listen=") {
      WholePassword(pw);
      assert rest[0].name != "passwd";
      AfterListenTrap(rest);
      TailClean(rest);
      NoMarkers(rest[0].value);
      MarkedWithout(rest[1..], "port");
      MarkedWithout(Remove(rest[1..], "port"), "autoport");
      MarkedBehind([Attr("passwd", rest[0].value)], Remove(Remove(rest[1..], "port"), "autoport"));
    } else {
      AfterPortTrap(pw, rest);
      var r1 := Remove(rest, "listen");
      TailClean(r1);
      SuffixChar(pw, " port=", 0);
      var w := pw[..|pw| - 6] + r1[0].value;
      NoMarkers(w);
      MarkedWithout(r1[1..], "autoport");
      MarkedBehind([Attr("passwd", w)], Remove(r1[1..], "autoport"));
    }
  }

  lemma ListenMarks(listen: string, port: Int, s: seq<Attr>)
    ensures Marked(ListenList(listen, port) + s) <==> Marked(s)
  {
    hide IsMarker, Itoa, EndsWith;
    NoMarkers(listen); NoMarkers("yes"); NoMarkers("no"); NoMarkers(if port > 0 then Itoa(port) else "");
    MarkedBehind(ListenList(listen, port), s);
  }

  /** A password ending like a dropped attribute swallows its neighbour in the next listen edit, and the
      tag is still a VNC console exactly when the marker is not that neighbour.  The usual tag begins
      with `type='vnc'`: there the console is lost (TypeFirstIsLost). */
  lemma TrapKeepsConsoleIff(attrs: seq<Attr>, tail: string, pw: string, listen: string, port: Int)
    requires Clean(attrs) && Marked(attrs) && TailOk(tail) && ValidPassword(pw) && LooksLikeAttr(pw)
        && AddressOk(listen)
    ensures var rest := Remove(attrs, "passwd"); var t := PasswordTag(Tag(GRAPHICS, attrs, tail), pw);
      && rest != [] && Remove(rest, "listen") != [] && At(t, 0, GRAPHICS)
      && (IsVncTag(ListenTag(t, listen, port)) <==> Marked(Spared(pw, rest)))
  {
    hide ListenTag, PasswordTag, EndsWith, CleanAttr, Itoa, Stripped, Remove, IsMarker, IsVncTag, ListenList;
    ValidIsPlain(pw);
    PasswordTagRefines(attrs, tail, pw);
    PasswordIsRemove(attrs);
    NoMarkers("");
    var rest := Remove(attrs, "passwd");
    RemoveClean(rest, "listen");
    var x := [Attr("passwd", pw)] + rest;
    Names();
    ListenTagRefines(x, tail, listen, port);
    ListenListShaped(listen, port);
    StrippedShaped(x);
    MarkerIff(ListenList(listen, port) + After(pw, rest), tail);
    ListenMarks(listen, port, After(pw, rest));
    SparedMarked(pw, rest);
  }

  lemma {:induction false} MarkersBehind(attrs: seq<Attr>, name: string)
    requires Clean(attrs) && attrs != [] && attrs[0].name != name
    requires forall i :: 1 <= i < |attrs| ==> !IsMarker(attrs[i])
    ensures var d := Remove(attrs, name); d != [] && d[0] == attrs[0] && forall i :: 1 <= i < |d| ==> !IsMarker(d[i])
  {
    hide IsMarker, CleanAttr;
    var rest, d := attrs[1..], Remove(attrs, name);
    TailClean(attrs);
    RemoveMembers(rest, name);
    forall i | 1 <= i < |d| ensures !IsMarker(d[i]) {
      assert d[i] == Remove(rest, name)[i - 1] && d[i] in Remove(rest, name);
      var j :| 0 <= j < |rest| && rest[j] == d[i];
    }
  }

  /** On a tag that begins with its marker, every such password loses the console. */
  lemma TypeFirstIsLost(attrs: seq<Attr>, tail: string, pw: string, listen: string, port: Int)
    requires Clean(attrs) && TailOk(tail) && ValidPassword(pw) && LooksLikeAttr(pw) && AddressOk(listen)
    requires attrs != [] && attrs[0] == Attr("type", "vnc") && forall i :: 1 <= i < |attrs| ==> !IsMarker(attrs[i])
    ensures var t := PasswordTag(Tag(GRAPHICS, attrs, tail), pw);
      At(t, 0, GRAPHICS) && !IsVncTag(ListenTag(t, listen, port))
  {
    hide ListenTag, PasswordTag, EndsWith, CleanAttr, Remove, IsVncTag;
    assert IsMarker(attrs[0]) by { WholeSuffix("type"); }
    hide IsMarker;
    TrapKeepsConsoleIff(attrs, tail, pw, listen, port);
    MarkersBehind(attrs, "passwd");
    var rest := Remove(attrs, "passwd");
    PasswordIsRemove(attrs);
    MarkersBehind(rest, "listen");
  }
}
