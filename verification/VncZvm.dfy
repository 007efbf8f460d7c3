/**
 internal/virsh/vnc.go on the console that ZVM writes, in its own text: a LAN-wide listen address, an automatic
 port and no password, as the repository's tests have it (internal/virsh/vnc_test.go).
*/
module VncZvm {
  import opened GoStrings
  import opened AttrList
  import opened VncXml
  import opened VncMarker
  import opened VncDoc
  import opened VncLaws
  import opened VncText
  import opened VncTheorems

  const REST := " type='vnc' port='-1' autoport='yes' listen='::'"
  const OPEN := "<graphics" + REST + ">"
  const CHILD := "<listen" + " type='address' address='::'" + "/>"

  /** A domain with a console: text, the opening tag, blanks, the child, blanks, and the rest of the text. */
  function Domain(u: string, open: string, a: string, child: string, b: string, w: string): string {
    u + open + (a + child + b + "</graphics>" + w)
  }

  /** No console tag in front, and no tag between the console's own. */
  predicate Around(u: string, a: string, b: string) {
    Index(u, "<graphics") == -1 && '<' !in a && '<' !in b
  }

  function Attrs(): seq<Attr> {
    [Attr("type", "vnc"), Attr("port", "-1"), Attr("autoport", "yes"), Attr("listen", "::")]
  }

  // ---------- the literals ----------

  lemma ShapedAttrs()
    ensures Shaped(Attrs()) && Marked(Attrs()) && TailOk(">")
  {
    Names();
    TypeName();
    assert "vnc" == ['v', 'n', 'c'] && "-1" == ['-', '1'] && "yes" == ['y', 'e', 's'] && "::" == [':', ':'];
    WholeSuffix("type");
    assert IsMarker(Attrs()[0]);
  }

  lemma ChunkType()
    ensures Chunk(Attr("type", "vnc")) == " type='vnc'"
  {
    assert " " + "type" + "='" == " type='";
  }

  lemma Chunks()
    ensures Chunk(Attr("port", "-1")) == " port='-1'" && Chunk(Attr("listen", "::")) == " listen='::'"
  {
    Literals("-1");
    Literals("::");
    assert " port='" + "-1" == " port='-1" && " listen='" + "::" == " listen='::";
  }

  lemma RestText(r: string)
    ensures Body(Attrs(), r) == REST + r
  {
    ChunkType();
    Chunks();
    Literals("");
    hide *;
    var t, p, y, l := Attr("type", "vnc"), Attr("port", "-1"), Attr("autoport", "yes"), Attr("listen", "::");
    BodyTwo(y, l, r);
    BodyCons(p, [y, l], r);
    BodyCons(t, [p, y, l], r);
    Four(t, p, y, l);
    RestParts();
    Nest(" type='vnc'", " port='-1'", " autoport='yes'" + " listen='::'", r);
  }

  lemma Four(t: Attr, p: Attr, y: Attr, l: Attr)
    requires t == Attr("type", "vnc") && p == Attr("port", "-1")
    requires y == Attr("autoport", "yes") && l == Attr("listen", "::")
    ensures [p] + [y, l] == [p, y, l] && [t] + [p, y, l] == Attrs()
  {
  }

  lemma RestParts()
    ensures REST == " type='vnc'" + (" port='-1'" + (" autoport='yes'" + " listen='::'"))
  {
  }

  lemma Nest(a: string, b: string, c: string, r: string)
    ensures (a + (b + c)) + r == a + (b + (c + r))
  {
  }

  /** The tag is the rendered list. */
  lemma OpenText()
    ensures Tag(GRAPHICS, Attrs(), ">") == OPEN
  {
    RestText(">");
    hide Body;
    ThreeOf(GRAPHICS, REST, ">");
  }

  lemma TypeText()
    ensures Body([Attr("type", "vnc")], ">") == " type='vnc'>"
  {
    ChunkType();
    hide Chunk;
    BodyCons(Attr("type", "vnc"), [], ">");
    assert [Attr("type", "vnc")] + [] == [Attr("type", "vnc")];
    assert " type='vnc'" + ">" == " type='vnc'>";
  }

  // ---------- what the drops leave ----------

  lemma Kept()
    ensures DropFirst(Attrs(), "passwd") == Attrs()
    ensures Stripped(Attrs()) == [Attr("type", "vnc")]
  {
    NamesApart();
    NoSwallow("vnc"); NoSwallow("-1"); NoSwallow("yes"); NoSwallow("::");
    hide EndsWith, DropFirst;
    var t, p, y, l := Attr("type", "vnc"), Attr("port", "-1"), Attr("autoport", "yes"), Attr("listen", "::");
    assert Attrs() == [t, p, y, l];
    Passes(t, [p, y, l], "passwd"); Passes(p, [y, l], "passwd"); Passes(y, [l], "passwd"); Passes(l, [], "passwd");
    NoneLeft("passwd");
    Passes(t, [p, y, l], "listen"); Passes(p, [y, l], "listen"); Passes(y, [l], "listen"); Hits(l, []);
    Passes(t, [p, y], "port"); Hits(p, [y]);
    Passes(t, [y], "autoport"); Hits(y, []);
  }

  lemma NoneLeft(name: string)
    ensures DropFirst([], name) == []
  {
  }

  lemma Passes(x: Attr, rest: seq<Attr>, name: string)
    requires x.name != name && !EndsWith(x.value, " " + name + "=")
    ensures DropFirst([x] + rest, name) == [x] + DropFirst(rest, name)
  {
    assert ([x] + rest)[1..] == rest;
  }

  lemma Hits(x: Attr, rest: seq<Attr>)
    ensures DropFirst([x] + rest, x.name) == rest
  {
  }

  lemma NamesApart()
    ensures "type" != "port" && "type" != "listen" && "type" != "autoport" && "type" != "passwd"
    ensures "port" != "listen" && "port" != "autoport" && "port" != "passwd"
    ensures "autoport" != "listen" && "autoport" != "passwd" && "listen" != "passwd"
  {
    assert |"type"| == 4 && |"port"| == 4 && |"autoport"| == 8 && |"passwd"| == 6 && |"listen"| == 6;
    assert "type"[0] == 't' && "port"[0] == 'p' && "passwd"[0] == 'p' && "listen"[0] == 'l';
  }

  /** A value that does not end in `=` swallows nothing. */
  lemma NoSwallow(v: string)
    requires v != "" && v[|v| - 1] != '='
    ensures forall n: string :: !EndsWith(v, " " + n + "=")
  {
    forall n: string ensures !EndsWith(v, " " + n + "=") { NotSuffix(v, " " + n + "="); }
  }

  // ---------- the child ----------

  lemma ChildText()
    ensures CHILD == Replacement("::")
  {
    assert "<listen" + " type='address' address='" == "<listen type='address' address='";
    assert " type='address' address='::'" == " type='address' address='" + "::" + "'";
    assert "'/>" == "'" + "/>";
    FiveParts("<listen", " type='address' address='", "::", "'", "/>");
  }

  lemma FiveParts(a: string, b: string, c: string, d: string, e: string)
    ensures a + (b + c + d) + e == (a + b) + c + (d + e)
  {
  }

  /** The child is found between the blanks. */
  lemma ChildFound(a: string, b: string, w: string)
    requires '<' !in a && '<' !in b
    ensures ChildSpan(a + CHILD + b + "</graphics>" + w) == Span(|a|, |a| + |CHILD|)
  {
    ChildText();
    Colons();
    ReplacementTag("::");
    ListenHead();
    hide *;
    Inside(a, CHILD, b, w);
  }

  lemma Colons()
    ensures ValueOk("::")
  {
    assert "::" == [':', ':'];
  }

  lemma Inside(a: string, t: string, b: string, w: string)
    requires '<' !in a && '<' !in b && OneTag(t) && TagShape(LISTEN, t) && t[1] == 'l'
    ensures ChildSpan(a + t + b + CLOSE_GRAPHICS + w) == Span(|a|, |a| + |t|)
  {
    var post, c := a + t + b + CLOSE_GRAPHICS + w, |a + t + b|;
    CloseFound(a, t, b, w);
    ThreeOf(a + t + b, CLOSE_GRAPHICS, w);
    FrontOf(a + t + b, CLOSE_GRAPHICS + w);
    hide *;
    InBody(a, t, b, CLOSE_GRAPHICS + w, post);
    SpanIn(post, a + t + b, |a|, |t|);
  }

  lemma FrontOf(x: string, y: string)
    ensures (x + y)[..|x|] == x
  {
  }

  lemma SpanIn(post: string, body: string, s: nat, n: nat)
    requires |body| <= |post| && Index(post, CLOSE_GRAPHICS) == |body| && post[..|body|] == body
    requires ChildIn(body) == Span(s, s + n)
    ensures ChildSpan(post) == Span(s, s + n)
  {
    hide ChildIn, Index;
  }

  lemma InBody(a: string, t: string, b: string, r: string, post: string)
    requires '<' !in a && TagShape(LISTEN, t) && post == a + t + b + r
    ensures ChildIn(a + t + b) == Span(|a|, |a| + |t|)
  {
    TagHead(t);
    hide At, IndexFrom, TagShape, ChildIn;
    assert post == a + t + (b + r);
    ListenFirst(a, t, b + r, post);
    assert (a + t + b)[..|a|] == a == post[..|a|] && (a + t + b)[|a|..|a| + |t|] == t;
    FirstChild(post, a + t + b, |a|, t);
  }

  lemma TagHead(t: string)
    requires TagShape(LISTEN, t)
    ensures At(t, 0, LISTEN)
  {
  }

  lemma CloseFound(a: string, t: string, b: string, w: string)
    requires '<' !in a && '<' !in b && OneTag(t) && t[1] == 'l'
    ensures Index(a + t + b + CLOSE_GRAPHICS + w, CLOSE_GRAPHICS) == |a + t + b|
  {
    ListenHead();
    hide IndexFrom;
    var v, c := a + t + b + CLOSE_GRAPHICS + w, |a + t + b|;
    forall k | 0 <= k < |CLOSE_GRAPHICS| ensures v[c + k] == CLOSE_GRAPHICS[k] {}
    forall j | 0 <= j < c ensures !At(v, j, CLOSE_GRAPHICS) {
      assert v[j + 0] == '<' ==> j == |a| && v[j + 1] == 'l';
      assert v[j + 0] != CLOSE_GRAPHICS[0] || v[j + 1] != CLOSE_GRAPHICS[1];
    }
    IndexIs(v, CLOSE_GRAPHICS, c);
  }

  lemma ListenFirst(a: string, t: string, r: string, v: string)
    requires '<' !in a && At(t, 0, LISTEN) && v == a + t + r
    ensures At(v, |a|, LISTEN) && forall j {:trigger At(v, j, LISTEN)} :: 0 <= j < |a| ==> !At(v, j, LISTEN)
  {
    ListenHead();
    forall k | 0 <= k < |LISTEN| ensures v[|a| + k] == LISTEN[k] { assert v[|a| + k] == t[0 + k]; }
    forall j | 0 <= j < |a| ensures !At(v, j, LISTEN) { assert v[j + 0] != LISTEN[0]; }
  }

  // ---------- the console ----------

  function Page(u: string, a: string, b: string, w: string): Doc {
    Doc(u, Attrs(), ">", a + CHILD + b + "</graphics>" + w)
  }

  lemma PageIs(u: string, a: string, b: string, w: string)
    requires Around(u, a, b)
    ensures Page(u, a, b, w).Valid() && Page(u, a, b, w).Text() == Domain(u, OPEN, a, CHILD, b, w)
    ensures !Page(u, a, b, w).Empty()
  {
    ShapedAttrs();
    OpenText();
    hide Body, Shaped, Marked, TailOk, Index, OPEN, CHILD, Attrs, Doc.Valid;
    FirstIsValid(Page(u, a, b, w));
    assert |">"| == 1 && |"/>"| == 2;
  }

  /** A password, any text, is the first attribute of the edited tag, the rest of the domain is as it was, and an
      empty password changes nothing. */
  lemma ZvmPassword(u: string, a: string, b: string, w: string, pw: string)
    requires Around(u, a, b)
    ensures SetPasswordXML(Domain(u, OPEN, a, CHILD, b, w), pw) ==
        Ok(Domain(u, if pw == "" then OPEN else "<graphics" + " passwd='" + pw + "'" + REST + ">", a, CHILD, b, w))
  {
    PageIs(u, a, b, w);
    Kept();
    PasswordOpening(pw);
    hide *;
    SetPasswordRefines(Page(u, a, b, w), pw);
    EditedText(u, a, b, w, Page(u, a, b, w).WithPassword(pw), pw);
  }

  lemma EditedText(u: string, a: string, b: string, w: string, doc: Doc, pw: string)
    requires doc == Page(u, a, b, w).WithPassword(pw) && DropFirst(Attrs(), "passwd") == Attrs()
    ensures doc.Text() == Domain(u, Tag(GRAPHICS, PasswordList(pw) + Attrs(), ">"), a, CHILD, b, w)
  {
    hide Tag, DropFirst, PasswordList, CHILD;
  }

  lemma PasswordOpening(pw: string)
    ensures Tag(GRAPHICS, PasswordList(pw) + Attrs(), ">")
            == if pw == "" then OPEN else "<graphics" + " passwd='" + pw + "'" + REST + ">"
  {
    OpenText();
    RestText(">");
    Literals(pw);
    hide Body, Chunk, OPEN, Attrs, REST, GRAPHICS;
    if pw == "" {
      assert PasswordList(pw) + Attrs() == Attrs();
    } else {
      BodyCons(Attr("passwd", pw), Attrs(), ">");
      FiveOf(GRAPHICS, " passwd='", pw, "'", REST, ">");
      Heads();
    }
  }

  lemma Heads()
    ensures GRAPHICS == "<graphics"
  {
  }

  lemma FiveOf(a: string, b: string, c: string, d: string, n: string, e: string)
    ensures a + ((b + c + d) + (n + e)) == a + b + c + d + n + e
  {
  }

  /** An address and a port, or an automatic port, replace what ZVM wrote in the tag and in the child, and nothing
      else. */
  lemma ZvmListen(u: string, a: string, b: string, w: string, listen: string, port: Int)
    requires Around(u, a, b) && ValueOk(listen)
    ensures SetListenXML(Domain(u, OPEN, a, CHILD, b, w), listen, port) ==
        Ok(Domain(u, "<graphics" + " listen='" + listen + "'" +
                     (if port > 0 then " port='" + Itoa(port) + "' autoport='no'" else " autoport='yes'") +
                     " type='vnc'>",
            a, "<listen type='address' address='" + listen + "'/>", b, w))
  {
    PageIs(u, a, b, w);
    Kept();
    ChildFound(a, b, w);
    NewTag(listen, port);
    MarkedStill(listen, port);
    hide *;
    var doc := Page(u, a, b, w);
    Stays(doc, listen, port);
    SetListenRefines(doc, listen, port);
    Swapped(a, b, w, listen);
    ListenText(u, a, b, w, doc, listen, port);
  }

  lemma Stays(doc: Doc, listen: string, port: Int)
    requires doc.attrs == Attrs() && Stripped(Attrs()) == [Attr("type", "vnc")]
    ensures doc.WithListen(listen, port).attrs == ListenList(listen, port) + [Attr("type", "vnc")]
  {
    hide Attrs, Stripped, ListenList;
  }

  lemma ListenText(u: string, a: string, b: string, w: string, doc: Doc, listen: string, port: Int)
    requires doc == Page(u, a, b, w) && Stripped(Attrs()) == [Attr("type", "vnc")] && !doc.Empty()
    requires Relisten(doc.post, listen) == a + Replacement(listen) + b + "</graphics>" + w
    ensures doc.WithListen(listen, port).Text() ==
            Domain(u, Tag(GRAPHICS, ListenList(listen, port) + [Attr("type", "vnc")], ">"),
                a, "<listen type='address' address='" + listen + "'/>", b, w)
  {
    hide Tag, Attrs, Stripped, ListenList, Relisten, CHILD, Doc.Empty;
  }

  lemma Swapped(a: string, b: string, w: string, listen: string)
    requires ChildSpan(a + CHILD + b + "</graphics>" + w) == Span(|a|, |a| + |CHILD|)
    ensures Relisten(a + CHILD + b + "</graphics>" + w, listen) == a + Replacement(listen) + b + "</graphics>" + w
  {
    hide ChildSpan, CHILD, Replacement;
    var v, r := a + CHILD + b + "</graphics>" + w, b + "</graphics>" + w;
    assert v == a + CHILD + r && v[..|a|] == a && v[|a| + |CHILD|..] == r;
  }

  lemma MarkedStill(listen: string, port: Int)
    ensures Marked(ListenList(listen, port) + [Attr("type", "vnc")])
  {
    WholeSuffix("type");
    var l := ListenList(listen, port) + [Attr("type", "vnc")];
    assert IsMarker(l[|l| - 1]);
  }

  lemma NewTag(listen: string, port: Int)
    ensures Tag(GRAPHICS, ListenList(listen, port) + [Attr("type", "vnc")], ">")
            == "<graphics" + " listen='" + listen + "'" +
               (if port > 0 then " port='" + Itoa(port) + "' autoport='no'" else " autoport='yes'") + " type='vnc'>"
  {
    TypeText();
    BodyAppend(ListenList(listen, port), [Attr("type", "vnc")], ">");
    ListenAttrsText(listen, port, " type='vnc'>");
    hide Body, ListenList, Itoa;
    var n := if port > 0 then " port='" + Itoa(port) + "' autoport='no'" else " autoport='yes'";
    assert ListenAttrs(listen, port) == " listen='" + listen + "'" + n;
    SixParts(GRAPHICS, " listen='", listen, "'", n, " type='vnc'>");
  }

  lemma SixParts(a: string, b: string, c: string, d: string, n: string, e: string)
    ensures a + ((b + c + d + n) + e) == a + b + c + d + n + e
  {
  }

  // ---------- the readers ----------

  /** ZVM's console is read as open to every address, on an automatic port and without a password. */
  lemma ZvmReads(u: string, a: string, b: string, w: string)
    requires Around(u, a, b)
    ensures var d := Domain(u, OPEN, a, CHILD, b, w);
      && GraphicsInfo(d) == Info(true, false, "::") && GraphicsPort(d) == Port(0, true) && ConsolePassword(d) == ""
  {
    PageIs(u, a, b, w);
    ChildFound(a, b, w);
    ReadsOfAttrs();
    ReadsOfChild();
    hide *;
    var doc := Page(u, a, b, w);
    ReaderRefines(doc);
    PasswordRefines(doc);
    ReadsThere(doc, a, b, w);
    NoNumber();
  }

  lemma ReadsThere(doc: Doc, a: string, b: string, w: string)
    requires doc.attrs == Attrs() && !doc.Empty() && doc.post == a + CHILD + b + "</graphics>" + w
    requires ChildSpan(doc.post) == Span(|a|, |a| + |CHILD|) && AttrText(CHILD, "address") == "::"
    requires ReadFirst(Attrs(), "passwd") == "" && ReadFirst(Attrs(), "port") == "-1"
    requires ReadFirst(Attrs(), "autoport") == "yes"
    ensures ListenOf(doc) == "::" && PortOf(doc.attrs) == Port(PortNumber("-1"), true)
  {
    hide CHILD, ChildSpan, AttrText, ReadFirst, Attrs, PortNumber, Doc.Empty;
    assert doc.post[|a|..|a| + |CHILD|] == CHILD;
  }

  lemma ReadsOfAttrs()
    ensures ReadFirst(Attrs(), "passwd") == "" && ReadFirst(Attrs(), "port") == "-1"
    ensures ReadFirst(Attrs(), "autoport") == "yes"
  {
    var t, p, y, l := Attr("type", "vnc"), Attr("port", "-1"), Attr("autoport", "yes"), Attr("listen", "::");
    NoneEnds(t, "passwd"); NoneEnds(p, "passwd"); NoneEnds(y, "passwd"); NoneEnds(l, "passwd");
    NoneEnds(t, "port"); NoneEnds(t, "autoport"); NoneEnds(p, "autoport");
    WholeSuffix("port");
    WholeSuffix("autoport");
    hide EndsWith, ReadFirst, Silent;
    ReadSkips(Attrs(), [], "passwd");
    Nothing("passwd");
    assert Attrs() + [] == Attrs() && Attrs() == [t] + ([p] + [y, l]) && Attrs() == [t, p] + ([y] + [l]);
    ReadSkips([t], [p] + [y, l], "port");
    FirstOf(p, [y, l], "port");
    ReadSkips([t, p], [y] + [l], "autoport");
    FirstOf(y, [l], "autoport");
  }

  lemma Nothing(key: string)
    ensures ReadFirst([], key) == ""
  {
  }

  lemma NoneEnds(a: Attr, key: string)
    requires a.value != "" && a.value[|a.value| - 1] != '=' && a.name != "" && key != ""
    requires |a.name| < |key| || a.name[|a.name| - 1] != key[|key| - 1]
    ensures Silent(a, key)
  {
    NotSuffix(a.value, key + "=");
    if |key| <= |a.name| { NotSuffix(a.name, key); }
  }

  lemma NoNumber()
    ensures PortNumber("-1") == 0
  {
    AtoiSigned(1);
    assert Itoa(1) == ['1'] && "-" + ['1'] == "-1";
  }

  lemma ReadsOfChild()
    ensures AttrText(CHILD, "address") == "::"
  {
    ChildText();
    Colons();
    hide CHILD;
    ReplacementReads("::");
  }
}
