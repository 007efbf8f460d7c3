/** The promises of the console edits, on document text. */
module VncTheorems {
  import opened GoStrings
  import opened AttrList
  import opened VncXml
  import opened VncMarker
  import opened VncDoc
  import opened VncLaws
  import opened VncText

  // ---------- the readers ----------

  function PortOf(attrs: seq<Attr>): Port {
    Port(PortNumber(ReadFirst(attrs, "port")), ReadFirst(attrs, "autoport") != "no")
  }

  function ListenOf(doc: Doc): string {
    if doc.ChildListen() != "" then doc.ChildListen() else ReadFirst(doc.attrs, "listen")
  }

  lemma ReaderRefines(doc: Doc)
    requires doc.Valid()
    ensures GraphicsInfo(doc.Text()) == Info(true, ReadFirst(doc.attrs, "passwd") != "", ListenOf(doc))
    ensures GraphicsPort(doc.Text()) == PortOf(doc.attrs)
  {
    hide ChildSpan, SelfClosing, AttrText, Atoi, ReadFirst;
    Names();
    GraphicsHead();
    Slices(doc);
    SelfClosingTail(doc);
    ReadRefines(GRAPHICS, doc.attrs, doc.tail, "passwd");
    ReadRefines(GRAPHICS, doc.attrs, doc.tail, "listen");
    ReadRefines(GRAPHICS, doc.attrs, doc.tail, "port");
    ReadRefines(GRAPHICS, doc.attrs, doc.tail, "autoport");
  }

  /** The password the reader only tells to be there or not. */
  lemma PasswordRefines(doc: Doc)
    requires doc.Valid()
    ensures ConsolePassword(doc.Text()) == ReadFirst(doc.attrs, "passwd")
  {
    hide AttrText, ReadFirst, OpenTag;
    Names();
    GraphicsHead();
    Slices(doc);
    ReadRefines(GRAPHICS, doc.attrs, doc.tail, "passwd");
  }

  // ---------- write, then read ----------

  lemma FixedReads(listen: string, port: string, rest: seq<Attr>)
    requires AddressOk(listen) && !EndsWith(port, "autoport" + "=")
    ensures var a := [Attr("listen", listen), Attr("port", port), Attr("autoport", "no")] + rest;
      ReadFirst(a, "listen") == listen && ReadFirst(a, "port") == port && ReadFirst(a, "autoport") == "no"
  {
    var l, p, n := Attr("listen", listen), Attr("port", port), Attr("autoport", "no");
    SilentListen(listen);
    SilentPort(port);
    hide EndsWith, ReadFirst, Silent, AddressOk;
    FirstOf(l, [p, n] + rest, "listen");
    ReadSkips([l], [p, n] + rest, "port");
    FirstOf(p, [n] + rest, "port");
    ReadSkips([l, p], [n] + rest, "autoport");
    FirstOf(n, rest, "autoport");
    var a := [l, p, n] + rest;
    assert a == [l] + ([p, n] + rest) && a == [l, p] + ([n] + rest) && [p, n] + rest == [p] + ([n] + rest);
  }

  lemma FirstOf(a: Attr, rest: seq<Attr>, key: string)
    requires EndsWith(a.name, key)
    ensures ReadFirst([a] + rest, key) == a.value
  {
    hide EndsWith;
    assert ([a] + rest)[0] == a;
  }

  lemma AutoReads(listen: string, rest: seq<Attr>)
    requires AddressOk(listen)
    ensures var a := [Attr("listen", listen), Attr("autoport", "yes")] + rest;
      ReadFirst(a, "listen") == listen && ReadFirst(a, "port") == "yes" && ReadFirst(a, "autoport") == "yes"
  {
    var l, y := Attr("listen", listen), Attr("autoport", "yes");
    SilentListen(listen);
    assert EndsWith("autoport", "port") by { OwnNames(); }
    hide EndsWith, ReadFirst, Silent, AddressOk;
    FirstOf(l, [y] + rest, "listen");
    ReadSkips([l], [y] + rest, "port");
    ReadSkips([l], [y] + rest, "autoport");
    FirstOf(y, rest, "port");
    FirstOf(y, rest, "autoport");
    assert [l, y] + rest == [l] + ([y] + rest);
  }

  lemma ListenListReads(listen: string, port: Int, rest: seq<Attr>)
    requires AddressOk(listen)
    ensures ReadFirst(ListenList(listen, port) + rest, "listen") == listen
    ensures PortOf(ListenList(listen, port) + rest) == (if port > 0 then Port(port, false) else Port(0, true))
  {
    hide ReadFirst, Itoa, Atoi;
    if port > 0 {
      ItoaDigits(port);
      AtoiItoa(port);
      NotSuffix(Itoa(port), "autoport" + "=");
      FixedReads(listen, Itoa(port), rest);
    } else {
      AutoReads(listen, rest);
      NotANumber("yes");
    }
  }

  // ---------- independence ----------

  lemma {:induction false} RemovesCommute(attrs: seq<Attr>, m: string, n: string)
    ensures Remove(Remove(attrs, m), n) == Remove(Remove(attrs, n), m)
  {
    if attrs != [] {
      var a, rest := attrs[0], attrs[1..];
      RemovesCommute(rest, m, n);
      assert ([a] + Remove(rest, m))[1..] == Remove(rest, m);
      assert ([a] + Remove(rest, n))[1..] == Remove(rest, n);
    }
  }

  lemma RemoveBehind(x: seq<Attr>, y: seq<Attr>, name: string)
    requires forall i :: 0 <= i < |x| ==> x[i].name != name
    ensures Remove(x + y, name) == x + Remove(y, name)
  {
    RemoveAppend(x, y, name);
  }

  lemma StrippedPassword(attrs: seq<Attr>, pw: string)
    requires Clean(attrs) && CleanPassword(pw)
    ensures Stripped(PasswordList(pw) + Remove(attrs, "passwd")) == PasswordList(pw) + Remove(Stripped(attrs), "passwd")
  {
    hide Clean, ReadFirst, DropFirst, Remove, CleanPassword;
    PasswordClean(attrs, pw);
    StrippedClean(attrs);
    var x, r := PasswordList(pw), Remove(attrs, "passwd");
    StrippedClean(x + r);
    var r1 := Remove(r, "listen");
    var r2 := Remove(r1, "port");
    RemoveBehind(x, r, "listen");
    RemoveBehind(x, r1, "port");
    RemoveBehind(x, r2, "autoport");
    var a1 := Remove(attrs, "listen");
    RemovesCommute(attrs, "passwd", "listen");
    RemovesCommute(a1, "passwd", "port");
    RemovesCommute(Remove(a1, "port"), "passwd", "autoport");
  }

  lemma SameAttrs(attrs: seq<Attr>, pw: string, listen: string, port: Int)
    requires Clean(attrs) && CleanPassword(pw) && AddressOk(listen)
    ensures var a := ListenList(listen, port) + Stripped(PasswordList(pw) + DropFirst(attrs, "passwd"));
      var b := PasswordList(pw) + DropFirst(ListenList(listen, port) + Stripped(attrs), "passwd");
      multiset(a) == multiset(b)
  {
    hide Clean, ReadFirst, DropFirst, Remove, CleanPassword, Stripped, AddressOk, Itoa;
    var l, p, s := ListenList(listen, port), PasswordList(pw), Stripped(attrs);
    PasswordClean(attrs, pw);
    StrippedPassword(attrs, pw);
    ListenKeeps(attrs, listen, port);
    PasswordClean(l + s, pw);
    RemoveBehind(l, s, "passwd");
    var q := Remove(s, "passwd");
    assert multiset(l + (p + q)) == multiset(l) + multiset(p) + multiset(q);
    assert multiset(p + (l + q)) == multiset(l) + multiset(p) + multiset(q);
  }

  /** On a clean document the text theorems apply: the tag stays a VNC tag, and no port is left standing. */
  lemma CleanStays(doc: Doc, listen: string, port: Int)
    requires doc.Valid() && Clean(doc.attrs) && AddressOk(listen)
    ensures var d := doc.Text();
      && OpenTag(d).Span? && d[OpenTag(d).start..OpenTag(d).end] == doc.Opening() && At(doc.Opening(), 0, GRAPHICS)
      && IsVncTag(ListenTag(doc.Opening(), listen, port))
      && DropText(StrippedText(doc.Opening()), "port") == StrippedText(doc.Opening())
  {
    hide Clean, OpenTag, IsVncTag, ListenTag, DropText, Stripped, ListenList, Remove;
    Slices(doc);
    ValidMarked(doc);
    ListenKeeps(doc.attrs, listen, port);
    ListenTagRefines(doc.attrs, doc.tail, listen, port);
    ListenShaped(doc.attrs, listen, port);
    MarkerIff(ListenList(listen, port) + Stripped(doc.attrs), doc.tail);
    StrippedIsText(doc.attrs, doc.tail);
    NoPortLeft(doc.attrs, doc.tail);
  }

  lemma ListenShaped(attrs: seq<Attr>, listen: string, port: Int)
    requires Clean(attrs) && AddressOk(listen)
    ensures Shaped(ListenList(listen, port) + Stripped(attrs))
  {
    ListenKeeps(attrs, listen, port);
  }

  lemma StrippedIsText(attrs: seq<Attr>, tail: string)
    requires Shaped(attrs) && TailOk(tail)
    ensures StrippedText(Tag(GRAPHICS, attrs, tail)) == Tag(GRAPHICS, Stripped(attrs), tail)
  {
    hide DropText, Tag;
    DropsRefine(attrs, tail);
  }

  lemma NoPortLeft(attrs: seq<Attr>, tail: string)
    requires Clean(attrs) && TailOk(tail)
    ensures DropText(Tag(GRAPHICS, Stripped(attrs), tail), "port") == Tag(GRAPHICS, Stripped(attrs), tail)
  {
    hide DropText, Tag, CleanAttr, EndsWith, Stripped, ReadFirst, Remove, DropFirst;
    var s := Stripped(attrs);
    StrippedClean(attrs);
    Names();
    GraphicsHead();
    CleanTraps(s);
    DropIsRemove(s, "port");
    RemoveAbsent(s, "port");
    DropRefines(GRAPHICS, s, tail, "port");
  }

  /** What a reader sees of a clean document: a password edit leaves address and port as they were
      unless the old or the new password hides them; a listen edit leaves the password as it was. */
  lemma EditsRead(doc: Doc, pw: string, listen: string, port: Int)
    requires doc.Valid() && Clean(doc.attrs) && CleanPassword(pw) && AddressOk(listen)
    ensures var d := doc.WithPassword(pw);
      && d.Valid() && Clean(d.attrs) && SetPasswordXML(doc.Text(), pw) == Ok(d.Text())
      && GraphicsInfo(d.Text()).found && GraphicsInfo(d.Text()).hasPassword == (pw != "")
          && ReadFirst(d.attrs, "passwd") == pw
      && (Quiet(pw) && Quiet(ReadFirst(doc.attrs, "passwd")) ==>
            && GraphicsInfo(d.Text()) == GraphicsInfo(doc.Text()).(hasPassword := pw != "")
            && GraphicsPort(d.Text()) == GraphicsPort(doc.Text()))
    ensures var d := doc.WithListen(listen, port);
      && d.Valid() && Clean(d.attrs) && SetListenXML(doc.Text(), listen, port) == Ok(d.Text())
      && GraphicsInfo(d.Text()) == GraphicsInfo(doc.Text()).(listen := listen)
      && GraphicsPort(d.Text()) == (if port > 0 then Port(port, false) else Port(0, true))
      && ReadFirst(d.attrs, "passwd") == ReadFirst(doc.attrs, "passwd")
  {
    hide Clean, Quiet, ReadFirst, DropFirst, CleanPassword, Stripped, SetPasswordXML, SetListenXML, Relisten,
        ChildSpan, Itoa;
    ValidMarked(doc);
    ReaderRefines(doc);
    PasswordKeeps(doc.attrs, pw);
    SetPasswordRefines(doc, pw);
    assert CleanPassword(pw) ==> ValueOk(pw) by { PasswordValue(pw); }
    ReaderRefines(doc.WithPassword(pw));
    ListenKeeps(doc.attrs, listen, port);
    SetListenRefines(doc, listen, port);
    ReaderRefines(doc.WithListen(listen, port));
    CleanStays(doc, listen, port);
    WriteThenRead(doc.Text(), listen, port);
  }

  lemma PasswordValue(pw: string)
    ensures CleanPassword(pw) ==> ValueOk(pw)
  {
  }

  /** Behind a quiet password the readers find what a listen edit wrote. */
  lemma QuietSkips(pw: string, s: seq<Attr>)
    requires Quiet(pw)
    ensures ReadFirst(PasswordList(pw) + s, "listen") == ReadFirst(s, "listen")
    ensures PortOf(PasswordList(pw) + s) == PortOf(s)
  {
    hide EndsWith, ReadFirst, Quiet, Atoi;
    OwnNames();
    QuietEnds(pw);
    ReadSkips(PasswordList(pw), s, "listen");
    ReadSkips(PasswordList(pw), s, "port");
    ReadSkips(PasswordList(pw), s, "autoport");
  }

  lemma ListenThenPassword(doc: Doc, pw: string, listen: string, port: Int)
    requires doc.Valid() && Clean(doc.attrs) && CleanPassword(pw) && Quiet(pw) && AddressOk(listen)
    ensures var d := doc.WithListen(listen, port); var b := d.WithPassword(pw);
      && GraphicsInfo(b.Text()) == GraphicsInfo(d.Text()).(hasPassword := pw != "")
          && GraphicsPort(b.Text()) == GraphicsPort(d.Text())
  {
    hide Clean, CleanPassword, Quiet, ReadFirst, GraphicsInfo, GraphicsPort, SetPasswordXML, SetListenXML, Doc.Valid,
        Doc.Text, PortOf, Relisten, DropFirst, ListenList, Stripped, PasswordList;
    var d := doc.WithListen(listen, port);
    EditsRead(doc, pw, listen, port);
    EditsRead(d, pw, listen, port);
    ReaderRefines(d);
    ReaderRefines(d.WithPassword(pw));
    BehindPassword(doc.attrs, pw, listen, port);
  }

  lemma BehindPassword(attrs: seq<Attr>, pw: string, listen: string, port: Int)
    requires Clean(attrs) && CleanPassword(pw) && Quiet(pw) && AddressOk(listen)
    ensures var a := ListenList(listen, port) + Stripped(attrs); var b := PasswordList(pw) + DropFirst(a, "passwd");
      ReadFirst(b, "listen") == ReadFirst(a, "listen") && PortOf(b) == PortOf(a)
  {
    hide Clean, Quiet, ReadFirst, DropFirst, Remove, CleanPassword, Stripped, PortOf, Itoa;
    var l, s := ListenList(listen, port), Stripped(attrs);
    ListenKeeps(attrs, listen, port);
    PasswordClean(l + s, pw);
    RemoveBehind(l, s, "passwd");
    QuietSkips(pw, l + Remove(s, "passwd"));
    ListenListReads(listen, port, s);
    ListenListReads(listen, port, Remove(s, "passwd"));
  }

  /** The two edits commute but for the order of the attributes; unless the password hides them from the
      readers, both orders read the same. */
  lemma EditsCommute(doc: Doc, pw: string, listen: string, port: Int)
    requires doc.Valid() && Clean(doc.attrs) && CleanPassword(pw) && AddressOk(listen)
    ensures var a := doc.WithPassword(pw).WithListen(listen, port);
      var b := doc.WithListen(listen, port).WithPassword(pw);
      && SetPasswordXML(doc.Text(), pw) == Ok(doc.WithPassword(pw).Text())
      && SetListenXML(doc.WithPassword(pw).Text(), listen, port) == Ok(a.Text())
      && SetListenXML(doc.Text(), listen, port) == Ok(doc.WithListen(listen, port).Text())
      && SetPasswordXML(doc.WithListen(listen, port).Text(), pw) == Ok(b.Text())
      && multiset(a.attrs) == multiset(b.attrs) && a == b.(attrs := a.attrs)
      && GraphicsInfo(a.Text()) == Info(true, pw != "", listen)
      && (Quiet(pw) ==>
          GraphicsInfo(b.Text()) == GraphicsInfo(a.Text()) && GraphicsPort(b.Text()) == GraphicsPort(a.Text()))
  {
    hide Clean, Quiet, ReadFirst, DropFirst, CleanPassword, Stripped, SetPasswordXML, SetListenXML, Relisten,
        GraphicsInfo, GraphicsPort;
    EditsRead(doc, pw, listen, port);
    EditsRead(doc.WithPassword(pw), pw, listen, port);
    EditsRead(doc.WithListen(listen, port), pw, listen, port);
    SameAttrs(doc.attrs, pw, listen, port);
    FoundConsole(doc);
    if Quiet(pw) { ListenThenPassword(doc, pw, listen, port); }
  }

  lemma FoundConsole(doc: Doc)
    requires doc.Valid()
    ensures GraphicsInfo(doc.Text()).found
  {
    ReaderRefines(doc);
  }
}
