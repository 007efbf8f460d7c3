/** The passwords that NeverExposed leaves out do break what it promises. */
module ConsoleTrap {
  import opened GoStrings
  import opened AttrList
  import opened AttrLaws
  import opened VncXml
  import opened VncMarker
  import opened VncDoc
  import opened VncText
  import opened VncLaws
  import opened VncTheorems
  import opened Password
  import opened PasswordTraps
  import opened Client
  import opened VncStore
  import opened VncPass
  import opened VncHandler
  import opened Pages

  // ---------- the tag that is written ----------

  /** What the password reads as after the listen edit has swallowed its neighbour. */
  function Merged(pw: string, rest: seq<Attr>): string
    requires ValidPassword(pw) && LooksLikeAttr(pw) && rest != [] && Remove(rest, "listen") != []
  {
    if EndsWith(pw, " listen=") then rest[0].value
    else
      PortSuffix(pw);
      pw[..|pw| - 6] + Remove(rest, "listen")[0].value
  }

  lemma PortSuffix(pw: string)
    requires EndsWith(pw, " port=")
    ensures |pw| >= 6
  {
    assert |" port="| == 6;
  }

  lemma MergedReads(pw: string, rest: seq<Attr>)
    requires ValidPassword(pw) && LooksLikeAttr(pw) && Clean(rest) && !Named(rest, "passwd")
    requires rest != [] && Remove(rest, "listen") != []
    ensures ReadFirst(After(pw, rest), "passwd") == Merged(pw, rest)
  {
    hide CleanAttr, EndsWith, ReadFirst, After, Remove;
    if EndsWith(pw, " listen=") {
      WholePassword(pw);
      assert rest[0].name != "passwd";
      AfterListenTrap(rest);
    } else {
      AfterPortTrap(pw, rest);
    }
    ReadOwn(After(pw, rest));
  }

  /** The tag that the two edits make of a clean console. */
  function Written(doc: Doc, pw: string, listen: string, port: Int): string
    requires At(doc.Opening(), 0, GRAPHICS) && At(PasswordTag(doc.Opening(), pw), 0, GRAPHICS)
  {
    ListenTag(PasswordTag(doc.Opening(), pw), listen, port)
  }

  /** For a password that ends like a dropped attribute: what the written tag is and what it reads as. */
  lemma TrapWrites(doc: Doc, pw: string, listen: string, port: Int)
    requires Clean(doc.attrs) && Marked(doc.attrs) && TailOk(doc.tail)
    requires ValidPassword(pw) && LooksLikeAttr(pw) && AddressOk(listen)
    ensures At(doc.Opening(), 0, GRAPHICS) && At(PasswordTag(doc.Opening(), pw), 0, GRAPHICS)
    ensures var rest := Remove(doc.attrs, "passwd"); var t := Written(doc, pw, listen, port);
      && rest != [] && Remove(rest, "listen") != [] && TagShape(GRAPHICS, t)
      && (IsVncTag(t) <==> Marked(Spared(pw, rest))) && AttrText(t, "passwd") == Merged(pw, rest)
  {
    hide ListenTag, PasswordTag, EndsWith, CleanAttr, Itoa, Stripped, Remove, IsMarker, IsVncTag, ListenList;
    hide ReadFirst, AttrText, TagShape, Silent, LooksLikeAttr, ValidPassword;
    TrapKeepsConsoleIff(doc.attrs, doc.tail, pw, listen, port);
    ValidIsPlain(pw);
    PasswordTagRefines(doc.attrs, doc.tail, pw);
    PasswordIsRemove(doc.attrs);
    var rest := Remove(doc.attrs, "passwd");
    var x := [Attr("passwd", pw)] + rest;
    Names();
    ListenTagRefines(x, doc.tail, listen, port);
    ListenListClean(listen, port);
    GraphicsHead();
    StrippedShaped(x);
    var a := ListenList(listen, port) + After(pw, rest);
    TagIsOne(GRAPHICS, a, doc.tail);
    ReadRefines(GRAPHICS, a, doc.tail, "passwd");
    ReadSkips(ListenList(listen, port), After(pw, rest), "passwd");
    MergedReads(pw, rest);
  }

  // ---------- the document that is defined ----------

  /** Replacing the child does not touch the tag. */
  lemma ReplaceKeepsPassword(out: string, listen: string)
    ensures GraphicsInfo(ReplaceListenChild(out, listen)).hasPassword == GraphicsInfo(out).hasPassword
  {
    hide OpenTag, AttrText, SelfClosing, Relisten, ChildSpan, Replacement, Index;
    if OpenTag(out).Span? {
      var Span(s, e) := OpenTag(out);
      StartInside(out);
      assert IsVncTag(out[s..e]) by { FoundIsVnc(out); }
      if !SelfClosing(out[s..e]) {
        ReplaceInElement(out, s, e, listen);
        var d2 := out[..e] + Relisten(out[e..], listen);
        assert d2[..s] == out[..s] && d2[s..e] == out[s..e];
        OpenTagLocal(out, d2, out[s..e]);
      }
    }
  }

  lemma FoundIsVnc(d: string)
    ensures OpenTag(d).Span? ==>
              OpenTag(d).start < OpenTag(d).end <= |d| && IsVncTag(d[OpenTag(d).start..OpenTag(d).end])
  {
  }

  /** Whether the reader finds a password in a document whose console tag was replaced. */
  lemma ReplacedPassword(d: string, t: string, z: string)
    requires OpenTag(d).Span? && TagShape(GRAPHICS, t)
    ensures OpenTag(d).start <= |d|
    ensures GraphicsInfo(d[..OpenTag(d).start] + t + z).hasPassword
            <==> if IsVncTag(t) then AttrText(t, "passwd") != "" else GraphicsInfo(z).hasPassword
  {
    hide OpenTag, AttrText, IsVncTag, TagShape, SelfClosing, ChildSpan;
    StartInside(d);
    var s := OpenTag(d).start;
    var out := d[..s] + t + z;
    Around(d, s, t, z);
    if IsVncTag(t) {
      SameStartIff(d, t, z);
    } else {
      SearchGoesOn(d, t, z);
      StartInside(z);
      if OpenTag(z).Span? {
        var Span(a, b) := OpenTag(z);
        assert out[s + |t| + a..s + |t| + b] == z[a..b];
      }
    }
  }

  /** When the document that the two edits define reads as protected. */
  predicate StaysProtected(doc: Doc, pw: string)
    requires ValidPassword(pw)
  {
    !LooksLikeAttr(pw) ||
    var rest := Remove(doc.attrs, "passwd");
    rest != [] && Remove(rest, "listen") != [] &&
    if Marked(Spared(pw, rest)) then Merged(pw, rest) != "" else GraphicsInfo(doc.post).hasPassword
  }

  lemma TrapProtectedIff(doc: Doc, pw: string, listen: string, port: Int)
    requires doc.Valid() && Clean(doc.attrs) && ValidPassword(pw) && LooksLikeAttr(pw) && AddressOk(listen)
    ensures var p := SetPasswordXML(doc.Text(), pw);
      p.Ok? && var l := SetListenXML(p.value, listen, port);
      l.Ok? && (GraphicsInfo(l.value).hasPassword <==> StaysProtected(doc, pw))
  {
    hide OpenTag, ListenTag, PasswordTag, AttrText, IsVncTag, TagShape, Clean, GraphicsInfo, ReplaceListenChild;
    hide LooksLikeAttr, ValidPassword, AddressOk, Remove, Merged, Spared, SetPasswordXML;
    ValidMarked(doc);
    PasswordValid(doc, pw);
    var p := doc.WithPassword(pw);
    Slices(p);
    TrapWrites(doc, pw, listen, port);
    PasswordTagRefines(doc.attrs, doc.tail, pw);
    PasswordIsRemove(doc.attrs);
    assert ValueOk(pw) && pw != "" by { ValidIsPlain(pw); }
    assert p.Opening() == PasswordTag(doc.Opening(), pw);
    var t := Written(doc, pw, listen, port);
    ReplacedPassword(p.Text(), t, doc.post);
    ReplaceKeepsPassword(doc.pre + t + doc.post, listen);
  }

  // ---------- one request ----------

  /** For every accepted request for all interfaces on a clean console: its listen define is of a document
      in which the reader finds a password if and only if the password does not end like a dropped attribute,
      or what it swallows leaves the console marked and the password not empty, or leaves no marker and a
      later console has a password. */
  lemma PostSafeIff(s: System, vm: string, r: Request, doc: Doc)
    requires vm in s.world.configs && s.world.configs[vm] == doc.Text() && doc.Valid() && Clean(doc.attrs)
    requires r.listen == ALL && (r.port == 0 || 5900 <= r.port <= 65535)
    requires ValidPassword(EffectivePassword(s.data, vm, r)) && LogSafe(s.world.log)
    ensures var reply := Post(s, vm, r); var pw := EffectivePassword(s.data, vm, r);
      reply.status == 200 && (LogSafe(reply.system.world.log) <==> StaysProtected(doc, pw))
  {
    hide GraphicsInfo, OpenTag, SetPasswordXML, SetListenXML, ValidPassword, LooksLikeAttr, StaysProtected;
    hide Doc.Valid, Clean, Doc.Text;
    Addresses();
    var pw, text := EffectivePassword(s.data, vm, r), doc.Text();
    NotEmpty(pw);
    PlainProtected(doc, pw, r.port);
    if LooksLikeAttr(pw) { TrapProtectedIff(doc, pw, ALL, r.port); }
    var p := SetPasswordXML(text, pw).value;
    var l := SetListenXML(p, ALL, r.port).value;
    var log := s.world.log;
    var after := log + [PasswordWrite(vm, p)] + [ListenWrite(vm, ALL, r.port, l)];
    assert Post(s, vm, r).system.world.log == after;
    LogMore(log, PasswordWrite(vm, p), ListenWrite(vm, ALL, r.port, l));
  }

  lemma LogMore(log: seq<Write>, a: Write, b: Write)
    requires LogSafe(log) && a.PasswordWrite? && b.ListenWrite? && b.listen == ALL
    ensures LogSafe(log + [a] + [b]) <==> GraphicsInfo(b.text).hasPassword
  {
    hide GraphicsInfo;
    var after := log + [a] + [b];
    assert after[|log| + 1] == b && after[|log|] == a && forall i :: 0 <= i < |log| ==> after[i] == log[i];
  }

  lemma PlainProtected(doc: Doc, pw: string, port: Int)
    requires doc.Valid() && Clean(doc.attrs) && ValidPassword(pw)
    ensures SetPasswordXML(doc.Text(), pw).Ok?
    ensures !LooksLikeAttr(pw) ==>
              var l := SetListenXML(SetPasswordXML(doc.Text(), pw).value, ALL, port);
              l.Ok? && GraphicsInfo(l.value).hasPassword && StaysProtected(doc, pw)
  {
    hide GraphicsInfo, OpenTag, SetPasswordXML, SetListenXML, ValidPassword, LooksLikeAttr, Clean;
    Addresses();
    PasswordValid(doc, pw);
    NotEmpty(pw);
    if !LooksLikeAttr(pw) {
      EditsRead(doc, pw, ALL, port);
      EditsRead(doc.WithPassword(pw), pw, ALL, port);
    }
  }

  // ---------- a pass ----------

  /** For any accepted password: after its repair a clean console has a password if and only if it had one, or
      no listen edit follows, or what the listen edit leaves still has one. */
  lemma RepairProtectedIff(e: Entry, doc: Doc)
    requires doc.Valid() && Clean(doc.attrs) && ValidPassword(e.password) && (e.listen == "" || AddressOk(e.listen))
    ensures SetPasswordXML(doc.Text(), e.password).Ok?
    ensures GraphicsInfo(RepairEntry(e, doc.Text()).text).hasPassword
            <==> GraphicsInfo(doc.Text()).hasPassword || e.listen == ""
                 || ListenInPlace(e, SetPasswordXML(doc.Text(), e.password).value) || StaysProtected(doc, e.password)
  {
    hide GraphicsInfo, GraphicsPort, SetPasswordXML, SetListenXML, ValidPassword, LooksLikeAttr, StaysProtected;
    hide Doc.Valid, Clean, Doc.Text, AddressOk, ListenInPlace;
    var text, pw := doc.Text(), e.password;
    assert CleanConsole(text);
    NotEmpty(pw);
    PasswordValid(doc, pw);
    PasswordFound(doc, pw);
    if GraphicsInfo(text).hasPassword {
      assert RepairPassword(e, text) == Some(Repair(text, []));
      if e.listen != "" { ListenEdit(text, e.listen, e.port); }
    } else if e.listen != "" && !ListenInPlace(e, SetPasswordXML(text, pw).value) {
      if LooksLikeAttr(pw) { TrapProtectedIff(doc, pw, e.listen, e.port); }
      else { PlainStays(e, doc); }
    }
  }

  lemma PasswordFound(doc: Doc, pw: string)
    requires doc.Valid() && Clean(doc.attrs) && ValidPassword(pw)
    ensures GraphicsInfo(doc.Text()).found
    ensures SetPasswordXML(doc.Text(), pw).Ok? && GraphicsInfo(SetPasswordXML(doc.Text(), pw).value).hasPassword
  {
    hide Clean, ValidPassword, SetPasswordXML, GraphicsInfo, ReadFirst, EndsWith;
    PasswordValid(doc, pw);
    ReaderRefines(doc);
    ReaderRefines(doc.WithPassword(pw));
    ReadOwn(doc.WithPassword(pw).attrs);
    assert pw != "" by { ValidIsPlain(pw); }
  }

  lemma PlainStays(e: Entry, doc: Doc)
    requires doc.Valid() && Clean(doc.attrs) && ValidPassword(e.password) && !LooksLikeAttr(e.password)
    requires AddressOk(e.listen)
    ensures StaysProtected(doc, e.password)
    ensures GraphicsInfo(RepairEntry(e, doc.Text()).text).hasPassword
  {
    hide GraphicsInfo, GraphicsPort, SetPasswordXML, SetListenXML, ValidPassword, LooksLikeAttr, AddressOk;
    hide Doc.Valid, Clean, Doc.Text, CleanPassword, RepairEntry;
    NotEmpty(e.password);
    assert CleanConsole(doc.Text());
    RepairMeets(e, doc.Text());
  }

  /** What a pass running alone leaves of any entry with an accepted password, trapped or not. */
  lemma PassProtectedIff(es: seq<Entry>, data: map<string, Entry>, w: World, vm: string, doc: Doc)
    requires Keyed(data) && IsListing(es, data) && vm in data && vm in w.configs && w.configs[vm] == doc.Text()
    requires doc.Valid() && Clean(doc.attrs) && EntryOk(data[vm]) && data[vm].password != ""
    ensures var v, e := PassOver(es, w), data[vm];
      && vm in v.configs && SetPasswordXML(doc.Text(), e.password).Ok?
      && (GraphicsInfo(v.configs[vm]).hasPassword
          <==> GraphicsInfo(doc.Text()).hasPassword || e.listen == ""
               || ListenInPlace(e, SetPasswordXML(doc.Text(), e.password).value) || StaysProtected(doc, e.password))
  {
    hide GraphicsInfo, RepairEntry, PassOver, SetPasswordXML, ValidPassword, StaysProtected, ListenInPlace;
    hide Doc.Valid, Clean, Doc.Text, AddressOk;
    Addresses();
    PassAt(es, w, vm);
    Listed(es, data, vm);
    RepairProtectedIff(data[vm], doc);
  }

  // ---------- an instance ----------

  const TRAP := " listen="

  lemma TrapIsValid()
    ensures ValidPassword(TRAP) && LooksLikeAttr(TRAP)
  {
    assert TRAP == [' ', 'l', 'i', 's', 't', 'e', 'n', '='];
    assert "'\"<>&" == ['\'', '"', '<', '>', '&'];
    WholeSuffix(TRAP);
  }

  /** The smallest console: one self-closing tag. */
  function Console0(): Doc {
    Doc("", [Attr("type", "vnc")], "/>", "")
  }

  lemma Console0Parts()
    ensures var d := Console0(); Shaped(d.attrs) && Clean(d.attrs) && TailOk(d.tail) && Marked(d.attrs)
  {
    SampleTag();
  }

  lemma Console0Valid()
    ensures Console0().Valid() && CleanConsole(Console0().Text())
  {
    hide Clean, OpenTag;
    Console0Parts();
    NothingInside();
    FirstIsValid(Console0());
  }

  lemma TrapUnprotected()
    ensures ValidPassword(TRAP) && !StaysProtected(Console0(), TRAP)
  {
    hide GraphicsInfo, EndsWith;
    TrapIsValid();
    var attrs := Console0().attrs;
    assert attrs[0].name == "type" && attrs[1..] == [];
    assert Remove(attrs, "passwd") == attrs && Remove(attrs, "listen") == attrs;
    NoConsoleNoPassword();
  }

  lemma NoConsoleNoPassword()
    ensures !GraphicsInfo("").hasPassword
  {
  }

  /** One accepted request in a safe system: the listen define it makes is for all interfaces, and in its
      document the reader finds no console with a password. */
  lemma TrapIsNotSafe(vm: string)
    ensures var s := System(map[], World(map[vm := Console0().Text()], []));
      var reply := Post(s, vm, Request(TRAP, ALL, 0));
      Safe(s) && reply.status == 200 && !LogSafe(reply.system.world.log)
  {
    Console0Parts();
    hide GraphicsInfo, CleanConsole, SetPasswordXML, SetListenXML, OpenTag, ValidPassword, Console0, StaysProtected;
    hide Clean;
    var s := System(map[], World(map[vm := Console0().Text()], []));
    Console0Valid();
    TrapUnprotected();
    assert Safe(s);
    NotEmpty(TRAP);
    PostSafeIff(s, vm, Request(TRAP, ALL, 0), Console0());
  }
}
