/**
 Domain documents seen around their VNC console: text before the `<graphics>` tag, the tag's
 attributes and tail, and the text after it.  The text edits of vnc.go refine edits of this view.
*/
module VncDoc {
  import opened GoStrings
  import opened AttrList
  import opened VncXml
  import opened VncMarker

  // ---------- the edited tag ----------

  /** What the three drops of setGraphicsListenXML leave. */
  function Stripped(attrs: seq<Attr>): seq<Attr> {
    DropFirst(DropFirst(DropFirst(attrs, "listen"), "port"), "autoport")
  }

  function ListenList(listen: string, port: Int): seq<Attr> {
    if port > 0 then [Attr("listen", listen), Attr("port", Itoa(port)), Attr("autoport", "no")]
    else [Attr("listen", listen), Attr("autoport", "yes")]
  }

  lemma Names()
    ensures NameOk("listen") && NameOk("port") && NameOk("autoport") && NameOk("passwd") && NameOk("address")
  {
    assert "listen" == ['l', 'i', 's', 't', 'e', 'n'];
    assert "port" == ['p', 'o', 'r', 't'];
    assert "autoport" == ['a', 'u', 't', 'o', 'p', 'o', 'r', 't'];
    assert "passwd" == ['p', 'a', 's', 's', 'w', 'd'];
    assert "address" == ['a', 'd', 'd', 'r', 'e', 's', 's'];
  }

  lemma ListenListShaped(listen: string, port: Int)
    requires ValueOk(listen)
    ensures Shaped(ListenList(listen, port))
  {
    Names();
    assert "yes" == ['y', 'e', 's'] && "no" == ['n', 'o'];
    if port > 0 { ItoaDigits(port); }
  }

  lemma {:induction false} BodyAppend(x: seq<Attr>, y: seq<Attr>, tail: string)
    ensures Body(x + y, tail) == Body(x, Body(y, tail))
  {
    if x == [] {
      assert x + y == y;
    } else {
      assert (x + y)[1..] == x[1..] + y;
      BodyAppend(x[1..], y, tail);
    }
  }

  lemma DropShaped(attrs: seq<Attr>, name: string)
    requires Shaped(attrs)
    ensures Shaped(DropFirst(attrs, name))
  {
    if attrs != [] { DropShaped(attrs[1..], name); }
  }

  /** The literals of vnc.go are rendered attributes. */
  lemma Literals(v: string)
    ensures Chunk(Attr("listen", v)) == " listen='" + v + "'"
    ensures Chunk(Attr("port", v)) == " port='" + v + "'"
    ensures Chunk(Attr("passwd", v)) == " passwd='" + v + "'"
    ensures Chunk(Attr("autoport", "no")) == " autoport='no'"
    ensures Chunk(Attr("autoport", "yes")) == " autoport='yes'"
  {
    assert " " + "listen" + "='" == " listen='";
    assert " " + "port" + "='" == " port='";
    assert " " + "passwd" + "='" == " passwd='";
  }

  lemma BodyTwo(x: Attr, y: Attr, rest: string)
    ensures Body([x, y], rest) == (Chunk(x) + Chunk(y)) + rest
  {
    hide Chunk;
    BodyCons(y, [], rest);
    BodyCons(x, [y], rest);
    assert [y] + [] == [y] && [x] + [y] == [x, y];
  }

  lemma ListenAttrsText(listen: string, port: Int, rest: string)
    ensures Body(ListenList(listen, port), rest) == ListenAttrs(listen, port) + rest
  {
    hide Chunk, Itoa, Body;
    Literals(listen);
    var l, n, y := Attr("listen", listen), Attr("autoport", "no"), Attr("autoport", "yes");
    if port > 0 {
      Literals(Itoa(port));
      PortLiteral(Itoa(port));
      var p := Attr("port", Itoa(port));
      BodyTwo(p, n, rest);
      BodyCons(l, [p, n], rest);
      assert [l] + [p, n] == ListenList(listen, port);
      ThreeOf(Chunk(l), Chunk(p) + Chunk(n), rest);
    } else {
      BodyTwo(l, y, rest);
    }
  }

  lemma PortLiteral(v: string)
    ensures " port='" + v + "' autoport='no'" == (" port='" + v + "'") + " autoport='no'"
  {
    assert "' autoport='no'" == "'" + " autoport='no'";
    ThreeOf(" port='" + v, "'", " autoport='no'");
  }

  /** The new opening tag of setGraphicsListenXML, on any rendered tag. */
  lemma ListenTagRefines(attrs: seq<Attr>, tail: string, listen: string, port: Int)
    requires Shaped(attrs) && TailOk(tail)
    ensures At(Tag(GRAPHICS, attrs, tail), 0, GRAPHICS)
    ensures ListenTag(Tag(GRAPHICS, attrs, tail), listen, port)
            == Tag(GRAPHICS, ListenList(listen, port) + Stripped(attrs), tail)
  {
    HeadOfTag(attrs, tail);
    DropsRefine(attrs, tail);
    var rest := Body(Stripped(attrs), tail);
    hide Body, ListenAttrs, ListenList, DropText, Stripped, DropFirst;
    HeadAway(GRAPHICS, rest);
    BodyAppend(ListenList(listen, port), Stripped(attrs), tail);
    ListenAttrsText(listen, port, rest);
    ThreeOf(GRAPHICS, ListenAttrs(listen, port), rest);
  }

  lemma HeadOfTag(attrs: seq<Attr>, tail: string)
    ensures At(Tag(GRAPHICS, attrs, tail), 0, GRAPHICS)
  {
    hide Body;
  }

  lemma HeadAway(head: string, rest: string)
    ensures (head + rest)[|head|..] == rest
  {
  }

  lemma ThreeOf(a: string, b: string, c: string)
    ensures a + b + c == a + (b + c)
  {
  }

  /** The three drops, on a rendered tag. */
  lemma DropsRefine(attrs: seq<Attr>, tail: string)
    requires Shaped(attrs) && TailOk(tail)
    ensures DropText(DropText(DropText(Tag(GRAPHICS, attrs, tail), "listen"), "port"), "autoport")
            == Tag(GRAPHICS, Stripped(attrs), tail)
    ensures Shaped(Stripped(attrs))
  {
    hide DropText, Tag, DropFirst;
    Names();
    GraphicsHead();
    var a1, a2 := DropFirst(attrs, "listen"), DropFirst(DropFirst(attrs, "listen"), "port");
    DropShaped(attrs, "listen");
    DropShaped(a1, "port");
    DropShaped(a2, "autoport");
    DropRefines(GRAPHICS, attrs, tail, "listen");
    DropRefines(GRAPHICS, a1, tail, "port");
    DropRefines(GRAPHICS, a2, tail, "autoport");
  }

  function PasswordList(pw: string): seq<Attr> {
    if pw == "" then [] else [Attr("passwd", pw)]
  }

  /** The new opening tag of setGraphicsPasswordXML, on any rendered tag. */
  lemma PasswordTagRefines(attrs: seq<Attr>, tail: string, pw: string)
    requires Shaped(attrs) && TailOk(tail)
    ensures At(Tag(GRAPHICS, attrs, tail), 0, GRAPHICS)
    ensures PasswordTag(Tag(GRAPHICS, attrs, tail), pw)
            == Tag(GRAPHICS, PasswordList(pw) + DropFirst(attrs, "passwd"), tail)
  {
    Names();
    GraphicsHead();
    DropRefines(GRAPHICS, attrs, tail, "passwd");
    hide DropFirst, Body, DropText, Chunk;
    var kept := DropFirst(attrs, "passwd");
    var rest := Body(kept, tail);
    assert Tag(GRAPHICS, kept, tail)[|GRAPHICS|..] == rest;
    if pw == "" {
      assert PasswordList(pw) + kept == kept;
    } else {
      BodyCons(Attr("passwd", pw), kept, tail);
      Literals(pw);
      FourParts(GRAPHICS, " passwd='", pw, "'", rest);
    }
  }

  lemma FourParts(a: string, b: string, c: string, d: string, e: string)
    ensures a + b + c + d + e == a + (b + c + d + e)
  {
  }

  // ---------- the rest of the element ----------

  /** The text after the opening tag with its <listen> child replaced. */
  function Relisten(w: string, listen: string): string {
    match ChildSpan(w)
    case NoSpan => w
    case Span(s, e) => w[..s] + Replacement(listen) + w[e..]
  }

  /** The address the reader finds in the child. */
  function ChildAddress(w: string): string {
    match ChildSpan(w)
    case NoSpan => ""
    case Span(s, e) => AttrText(w[s..e], "address")
  }

  /** A text with its only `<` in front and its only `>` at the end. */
  predicate OneTag(t: string) {
    && 2 <= |t| && t[0] == '<' && t[|t| - 1] == '>'
    && (forall i :: 1 <= i < |t| ==> t[i] != '<') && (forall i :: 0 <= i < |t| - 1 ==> t[i] != '>')
  }

  lemma ChunkPlain(a: Attr, r: string, i: int)
    requires NameOk(a.name) && ValueOk(a.value) && 0 <= i < |Chunk(a)|
    ensures (Chunk(a) + r)[i] != '<' && (Chunk(a) + r)[i] != '>'
  {
    assert (Chunk(a) + r)[i] == Chunk(a)[i];
    if 1 <= i <= |a.name| { assert Chunk(a)[i] == a.name[i - 1]; }
    if |a.name| + 3 <= i < |Chunk(a)| - 1 { assert Chunk(a)[i] == a.value[i - |a.name| - 3]; }
  }

  lemma {:induction false} BodyPlain(attrs: seq<Attr>, tail: string, i: int)
    requires Shaped(attrs) && TailOk(tail) && 0 <= i < |Body(attrs, tail)| - 1
    ensures Body(attrs, tail)[i] != '<' && Body(attrs, tail)[i] != '>'
  {
    if attrs != [] {
      var a, r := attrs[0], Body(attrs[1..], tail);
      if i < |Chunk(a)| { ChunkPlain(a, r, i); }
      else { BodyPlain(attrs[1..], tail, i - |Chunk(a)|); }
    }
  }

  lemma {:induction false} BodyEnds(attrs: seq<Attr>, tail: string)
    requires TailOk(tail)
    ensures |tail| <= |Body(attrs, tail)| && Body(attrs, tail)[|Body(attrs, tail)| - |tail|..] == tail
  {
    if attrs != [] { BodyEnds(attrs[1..], tail); }
  }

  lemma TagIsOne(head: string, attrs: seq<Attr>, tail: string)
    requires HeadOk(head) && Shaped(attrs) && TailOk(tail)
    ensures OneTag(Tag(head, attrs, tail)) && TagShape(head, Tag(head, attrs, tail))
  {
    hide Body, Chunk, NameOk, ValueOk;
    var t, b := Tag(head, attrs, tail), Body(attrs, tail);
    BodyEnds(attrs, tail);
    assert b[|b| - 1] == b[|b| - |tail|..][|tail| - 1];
    forall i | 0 <= i < |t| - 1 ensures t[i] != '>' && (i > 0 ==> t[i] != '<') {
      if i >= |head| { BodyPlain(attrs, tail, i - |head|); }
    }
  }

  /** Swapping one tag for another behind which `pat` first occurs just shifts that occurrence. */
  lemma SwapShiftsIndex(w: string, cs: nat, ce: nat, t: string, pat: string)
    requires cs <= ce <= |w| && OneTag(t) && ce <= Index(w, pat)
    requires 2 <= |pat| && pat[0] == '<' && pat[1] != t[1] && forall k :: 1 <= k < |pat| ==> pat[k] != '<'
    ensures Index(w[..cs] + t + w[ce..], pat) == Index(w, pat) - (ce - cs) + |t|
  {
    hide IndexFrom, At;
    var x, y, v := w[..cs], w[ce..], w[..cs] + t + w[ce..];
    var c := Index(w, pat);
    assert w[..ce] + y == w && x + w[cs..] == w;
    AtShift(w[..ce], y, pat, c - ce);
    AtShift(x + t, y, pat, c - ce);
    forall j | 0 <= j < c - ce + |x + t|
      ensures !At(v, j, pat)
    {
      if j < cs {
        StartsBefore(x, t + y, w[cs..], pat, j);
        assert x + (t + y) == v;
      } else if j < cs + |t| {
        StartsInside(x, t, y, pat, j);
      } else {
        AtShift(x + t, y, pat, j - |x + t|);
        AtShift(w[..ce], y, pat, j - |x + t|);
      }
    }
    IndexIs(v, pat, c - ce + |x + t|);
  }

  /** An occurrence that starts in front of a `<` ends there. */
  lemma StartsBefore(x: string, r: string, z: string, pat: string, j: nat)
    requires j < |x| && 0 < |pat| && (forall k :: 1 <= k < |pat| ==> pat[k] != '<') && r != "" && r[0] == '<'
    requires !At(x + z, j, pat)
    ensures !At(x + r, j, pat)
  {
    if j + |pat| <= |x| {
      var k :| 0 <= k < |pat| && (x + z)[j + k] != pat[k];
      assert (x + r)[j + k] == (x + z)[j + k];
    } else {
      assert (x + r)[j + (|x| - j)] == '<' && pat[|x| - j] != '<';
    }
  }

  lemma StartsInside(x: string, t: string, y: string, pat: string, j: nat)
    requires OneTag(t) && 2 <= |pat| && pat[0] == '<' && pat[1] != t[1] && |x| <= j < |x| + |t|
    ensures !At(x + t + y, j, pat)
  {
    var v := x + t + y;
    assert v[j + 0] == t[j - |x|];
    if j == |x| { assert v[j + 1] == t[1]; }
  }

  const ADDRESS_CHILD := "/>"

  function ReplacementList(listen: string): seq<Attr> {
    [Attr("type", "address"), Attr("address", listen)]
  }

  lemma ListenHead()
    ensures HeadOk(LISTEN) && TailOk(ADDRESS_CHILD)
    ensures HeadOk(CLOSE_GRAPHICS[..|CLOSE_GRAPHICS| - 1]) && |CLOSE_GRAPHICS| == 11
    ensures CLOSE_GRAPHICS[0] == '<' && CLOSE_GRAPHICS[1] == '/' && LISTEN[1] == 'l'
    ensures forall k :: 1 <= k < |CLOSE_GRAPHICS| ==> CLOSE_GRAPHICS[k] != '<'
  {
    assert LISTEN == ['<', 'l', 'i', 's', 't', 'e', 'n'];
    assert CLOSE_GRAPHICS == ['<', '/', 'g', 'r', 'a', 'p', 'h', 'i', 'c', 's', '>'];
  }

  lemma ReplacementText(listen: string)
    ensures Replacement(listen) == Tag(LISTEN, ReplacementList(listen), ADDRESS_CHILD)
  {
    var t, a := Attr("type", "address"), Attr("address", listen);
    BodyTwo(t, a, ADDRESS_CHILD);
    ReplacementChunks(listen);
    hide Chunk, Body;
    var x, y := " type='address'", " address='";
    Spread(LISTEN, x, y, listen, "'", ADDRESS_CHILD);
    ReplacementLiterals();
  }

  lemma Spread(h: string, x: string, y: string, v: string, q: string, e: string)
    ensures h + ((x + (y + v + q)) + e) == (h + x + y) + v + (q + e)
  {
  }

  lemma ReplacementLiterals()
    ensures LISTEN + " type='address'" + " address='" == "<listen type='address' address='"
        && "'" + ADDRESS_CHILD == "'/>"
  {
    assert LISTEN + " type='address'" == "<listen type='address'";
  }

  lemma ReplacementChunks(listen: string)
    ensures Chunk(Attr("type", "address")) == " type='address'"
    ensures Chunk(Attr("address", listen)) == " address='" + listen + "'"
  {
    assert " " + "type" + "='" == " type='" && " " + "address" + "='" == " address='";
    assert " type='" + "address" + "'" == " type='address'";
  }

  /** The element written in place of the child is itself a rendered tag. */
  lemma ReplacementTag(listen: string)
    requires ValueOk(listen)
    ensures Shaped(ReplacementList(listen))
    ensures OneTag(Replacement(listen)) && TagShape(LISTEN, Replacement(listen)) && Replacement(listen)[1] == 'l'
  {
    Names();
    TypeName();
    ListenHead();
    assert ValueOk("address");
    ReplacementText(listen);
    TagIsOne(LISTEN, ReplacementList(listen), ADDRESS_CHILD);
    assert Replacement(listen)[0 + 1] == LISTEN[1];
  }

  lemma ChildAt(w: string)
    requires ChildSpan(w).Span?
    ensures var Span(cs, ce) := ChildSpan(w);
      && cs < ce <= Index(w, CLOSE_GRAPHICS) && At(w, cs, LISTEN) && At(w[cs..ce], 0, LISTEN)
      && CharFrom(w, '>', cs) == ce - 1
      && forall j {:trigger At(w, j, LISTEN)} :: 0 <= j < cs ==> !At(w, j, LISTEN)
  {
    var close := Index(w, CLOSE_GRAPHICS);
    var Span(cs, ce) := ChildSpan(w);
    ListenHead();
    ChildInBody(w[..close], cs, ce);
    hide IndexFrom, CharFrom, ChildIn, ChildSpan, Index;
    assert w[..close] + w[close..] == w;
    ChildKept(w[..close], w[close..], cs, ce);
  }

  lemma ChildInBody(body: string, cs: nat, ce: nat)
    requires ChildIn(body) == Span(cs, ce)
    ensures cs < ce <= |body| && At(body, cs, LISTEN) && CharFrom(body, '>', cs) == ce - 1
    ensures forall j {:trigger At(body, j, LISTEN)} :: 0 <= j < cs ==> !At(body, j, LISTEN)
  {
    hide IndexFrom, CharFrom;
  }

  lemma ChildKept(body: string, rest: string, cs: nat, ce: nat)
    requires cs < ce <= |body| && At(body, cs, LISTEN) && CharFrom(body, '>', cs) == ce - 1
    requires forall j {:trigger At(body, j, LISTEN)} :: 0 <= j < cs ==> !At(body, j, LISTEN)
    ensures var w := body + rest;
      && At(w, cs, LISTEN) && At(w[cs..ce], 0, LISTEN) && CharFrom(w, '>', cs) == ce - 1
      && forall j {:trigger At(w, j, LISTEN)} :: 0 <= j < cs ==> !At(w, j, LISTEN)
  {
    var w := body + rest;
    ListenHead();
    assert forall x :: 0 <= x < |body| ==> body[x] == w[x];
    CharFromIs(w, '>', cs, ce - 1);
    HeadChars(LISTEN, body, cs);
    assert ce - 1 >= cs + |LISTEN|;
    forall j | 0 <= j < cs
      ensures !At(w, j, LISTEN)
    {
      assert At(w, j, LISTEN) ==> At(body, j, LISTEN);
    }
  }

  /** The first occurrence of the child's text is the child: no other element gets replaced. */
  lemma ChildIsFirst(w: string)
    requires ChildSpan(w).Span?
    ensures var Span(cs, ce) := ChildSpan(w); Index(w, w[cs..ce]) == cs
  {
    hide IndexFrom;
    ChildAt(w);
    var Span(cs, ce) := ChildSpan(w);
    var child := w[cs..ce];
    assert At(w, cs, child);
    forall j | 0 <= j < cs
      ensures !At(w, j, child)
    {
      if At(w, j, child) { AtPrefix(w, j, child, LISTEN); }
    }
    IndexIs(w, child, cs);
  }

  lemma AtPrefix(w: string, j: int, t: string, pat: string)
    requires At(w, j, t) && At(t, 0, pat)
    ensures At(w, j, pat)
  {
    forall k | 0 <= k < |pat| ensures w[j + k] == pat[k] { assert t[0 + k] == pat[k]; }
  }

  lemma FirstChild(w: string, body: string, cs: nat, t: string)
    requires cs <= |w| && At(w, cs, LISTEN) && TagShape(LISTEN, t)
    requires forall j {:trigger At(w, j, LISTEN)} :: 0 <= j < cs ==> !At(w, j, LISTEN)
    requires cs + |t| <= |body| && body[..cs] == w[..cs] && body[cs..cs + |t|] == t
    ensures ChildIn(body) == Span(cs, cs + |t|)
  {
    hide IndexFrom, At;
    ListenHead();
    AtSlice(body, cs, cs + |t|, LISTEN);
    SameFirst(w, body, 0, cs, LISTEN);
    OwnClose(LISTEN, body, cs, t);
  }

  /** After the replacement, the first child is the replacement. */
  lemma RelistenChild(w: string, listen: string)
    requires ValueOk(listen) && ChildSpan(w).Span?
    ensures var cs := ChildSpan(w).start;
      ChildSpan(Relisten(w, listen)) == Span(cs, cs + |Replacement(listen)|)
  {
    var Span(cs, ce) := ChildSpan(w);
    ListenHead();
    ReplacementTag(listen);
    ChildAt(w);
    RelistenIs(w, listen, cs, ce);
    hide Replacement, ChildSpan, At, IndexFrom, Index, OneTag, TagShape, Relisten;
    SwappedChild(w, cs, ce, Replacement(listen));
  }

  lemma SwappedChild(w: string, cs: nat, ce: nat, t: string)
    requires cs <= ce <= |w| && ce <= Index(w, CLOSE_GRAPHICS) && At(w, cs, LISTEN)
    requires forall j {:trigger At(w, j, LISTEN)} :: 0 <= j < cs ==> !At(w, j, LISTEN)
    requires OneTag(t) && TagShape(LISTEN, t) && t[1] == 'l'
    ensures ChildSpan(w[..cs] + t + w[ce..]) == Span(cs, cs + |t|)
  {
    ListenHead();
    hide IndexFrom, At;
    var v := w[..cs] + t + w[ce..];
    SwapShiftsIndex(w, cs, ce, t, CLOSE_GRAPHICS);
    var body := v[..Index(v, CLOSE_GRAPHICS)];
    assert v[cs..cs + |t|] == t && v[..cs] == w[..cs];
    assert body[cs..cs + |t|] == v[cs..cs + |t|] && body[..cs] == v[..cs];
    FirstChild(w, body, cs, t);
  }

  /** Only the child's opening tag is replaced, by one that closes itself: if the child had contents and an end
      tag, they stay behind it. */
  lemma ChildContentsStay(w: string, listen: string)
    requires ChildSpan(w).Span? && ValueOk(listen)
    ensures var Span(cs, ce) := ChildSpan(w); var n := cs + |Replacement(listen)|; var v := Relisten(w, listen);
      n <= |v| && v[n..] == w[ce..] && EndsWith(v[..n], "/>")
  {
    var Span(cs, ce) := ChildSpan(w);
    RelistenIs(w, listen, cs, ce);
    var v, t := Relisten(w, listen), Replacement(listen);
    hide ChildSpan;
    assert "'/>"[1..] == "/>";
    assert v[..cs + |t|] == w[..cs] + t;
  }

  // ---------- documents ----------

  datatype Doc = Doc(pre: string, attrs: seq<Attr>, tail: string, post: string) {

    function Opening(): string {
      Tag(GRAPHICS, attrs, tail)
    }

    function Text(): string {
      pre + Opening() + post
    }

    /** The rendered tag is the one vncOpenTag finds. */
    predicate Valid() {
      && Shaped(attrs) && TailOk(tail)
      && OpenTag(Text()) == Span(|pre|, |pre| + |Opening()|)
    }

    predicate Empty() {
      EndsWith(tail, "/>")
    }

    function WithListen(listen: string, port: Int): Doc {
      Doc(pre, ListenList(listen, port) + Stripped(attrs), tail, if Empty() then post else Relisten(post, listen))
    }

    function WithPassword(pw: string): Doc {
      Doc(pre, PasswordList(pw) + DropFirst(attrs, "passwd"), tail, post)
    }

    /** The address the child carries, if there is a child. */
    function ChildListen(): string {
      if Empty() then "" else ChildAddress(post)
    }
  }

  lemma Slices(doc: Doc)
    ensures var s, e := |doc.pre|, |doc.pre| + |doc.Opening()|;
      && doc.Text()[..s] == doc.pre && doc.Text()[s..e] == doc.Opening() && doc.Text()[e..] == doc.post
  {
  }

  lemma ValidMarked(doc: Doc)
    requires doc.Valid()
    ensures Marked(doc.attrs)
  {
    Slices(doc);
    MarkerIff(doc.attrs, doc.tail);
  }

  /** Any document with the same text before the tag and a marked tag is again valid. */
  lemma StaysValid(doc: Doc, doc2: Doc)
    requires doc.Valid() && doc2.pre == doc.pre && TailOk(doc2.tail) && Shaped(doc2.attrs) && Marked(doc2.attrs)
    ensures doc2.Valid()
  {
    GraphicsHead();
    Slices(doc);
    Slices(doc2);
    MarkerIff(doc2.attrs, doc2.tail);
    TagIsOne(GRAPHICS, doc2.attrs, doc2.tail);
    OpenTagLocal(doc.Text(), doc2.Text(), doc2.Opening());
  }

  /** Enough for a document to be valid: a marked tag, and no `<graphics` in front of it. */
  lemma FirstIsValid(doc: Doc)
    requires Shaped(doc.attrs) && TailOk(doc.tail) && Marked(doc.attrs) && Index(doc.pre, GRAPHICS) == -1
    ensures doc.Valid()
  {
    GraphicsHead();
    TagIsOne(GRAPHICS, doc.attrs, doc.tail);
    MarkerIff(doc.attrs, doc.tail);
    var d, s, t := doc.Text(), |doc.pre|, doc.Opening();
    FirstHead(doc.pre, t, doc.post);
    assert d == doc.pre + t + doc.post;
    Slices(doc);
    hide Index, IndexFrom, CharFrom, At, OneTag, TagShape, IsVncTag, Shaped, TailOk, Marked, Doc.Text, Doc.Opening;
    OwnClose(GRAPHICS, d, s, t);
    TagHere(GRAPHICS, IsVncTag, d, 0, s);
    TagIs(GRAPHICS, IsVncTag, d, s, s + |t| - 1);
  }

  /** The first `<graphics` of a document is the one put behind a text without any. */
  lemma FirstHead(pre: string, t: string, post: string)
    requires Index(pre, GRAPHICS) == -1 && TagShape(GRAPHICS, t)
    ensures var d := pre + t + post; At(d, |pre|, GRAPHICS) && IndexFrom(d, GRAPHICS, 0) == |pre|
  {
    hide Index, IndexFrom;
    GraphicsHead();
    var d, s := pre + t + post, |pre|;
    assert d[s..s + |t|] == t;
    AtSlice(d, s, s + |t|, GRAPHICS);
    assert t[0 + 0] == GRAPHICS[0];
    forall j | 0 <= j < s
      ensures !At(d, j, GRAPHICS)
    {
      if j + |GRAPHICS| <= s { InFrontOf(pre, t + post, j); assert pre + (t + post) == d; }
      else { assert d[j + (s - j)] == '<' && GRAPHICS[s - j] != '<'; }
    }
    FirstIs(d, GRAPHICS, s);
  }

  lemma InFrontOf(u: string, r: string, j: nat)
    requires j + |GRAPHICS| <= |u| && Index(u, GRAPHICS) == -1
    ensures !At(u + r, j, GRAPHICS)
  {
    hide IndexFrom;
    assert !At(u, j, GRAPHICS);
    var k :| 0 <= k < |GRAPHICS| && u[j + k] != GRAPHICS[k];
    assert (u + r)[j + k] == u[j + k];
  }

  lemma FirstIs(d: string, pat: string, s: nat)
    requires s <= |d| && At(d, s, pat) && forall j {:trigger At(d, j, pat)} :: 0 <= j < s ==> !At(d, j, pat)
    ensures IndexFrom(d, pat, 0) == s
  {
  }

  lemma TrimNothing(t: string)
    requires 0 < |t| && !IsSpace(t[0]) && !IsSpace(t[|t| - 1])
    ensures TrimSpace(t) == t
  {
  }

  lemma {:induction false} QuoteBeforeTail(attrs: seq<Attr>, tail: string)
    requires TailOk(tail) && attrs != []
    ensures var b := Body(attrs, tail); |tail| < |b| && b[|b| - |tail| - 1] == '\'' && b[|b| - |tail|..] == tail
  {
    hide Chunk;
    var a, rest := attrs[0], attrs[1..];
    var r := Body(rest, tail);
    if rest == [] {
      assert Chunk(a)[|Chunk(a)| - 1] == '\'' by { LastQuote(a); }
    } else {
      QuoteBeforeTail(rest, tail);
    }
  }

  lemma LastQuote(a: Attr)
    ensures 0 < |Chunk(a)| && Chunk(a)[|Chunk(a)| - 1] == '\''
  {
  }

  /** The self-closing test looks only at the tail. */
  lemma SelfClosingTail(doc: Doc)
    requires Shaped(doc.attrs) && TailOk(doc.tail)
    ensures SelfClosing(doc.Opening()) <==> doc.Empty()
  {
    var t := doc.Opening();
    GraphicsHead();
    TagIsOne(GRAPHICS, doc.attrs, doc.tail);
    OpeningEnds(doc);
    TagTrims(t);
    hide TrimSpace, Doc.Opening, OneTag, TagShape, Shaped, EndsWith;
    SuffixInTail(t, doc.tail);
  }

  lemma TagTrims(t: string)
    requires OneTag(t)
    ensures TrimSpace(t) == t
  {
    hide TrimSpace;
    TrimNothing(t);
  }

  lemma OpeningEnds(doc: Doc)
    requires Shaped(doc.attrs) && TailOk(doc.tail)
    ensures var t, n := doc.Opening(), |doc.tail|;
      n < |t| && t[|t| - n..] == doc.tail && (t[|t| - n - 1] == 's' || t[|t| - n - 1] == '\'')
  {
    hide Chunk, Body;
    var b := Body(doc.attrs, doc.tail);
    if doc.attrs != [] {
      QuoteBeforeTail(doc.attrs, doc.tail);
      assert (GRAPHICS + b)[|GRAPHICS| + |b| - |doc.tail|..] == b[|b| - |doc.tail|..];
    } else {
      assert b == doc.tail by { NoBody(doc.tail); }
      assert GRAPHICS[8] == 's';
    }
  }

  lemma NoBody(tail: string)
    ensures Body([], tail) == tail
  {
  }

  /** Whether a text ends in `/>` shows in its last part, when that ends in `>` and no `/` stands before it. */
  lemma SuffixInTail(t: string, tail: string)
    requires 0 < |tail| < |t| && t[|t| - |tail|..] == tail && tail[|tail| - 1] == '>' && t[|t| - |tail| - 1] != '/'
    ensures EndsWith(t, "/>") <==> EndsWith(tail, "/>")
  {
    var n := |tail|;
    assert "/>" == ['/', '>'];
    if n >= 2 { assert t[|t| - 2..] == tail[n - 2..]; } else { assert t[|t| - 2..][0] == t[|t| - 2]; }
  }

  /** setGraphicsPasswordXML on a document is WithPassword, whenever the new tag keeps the marker. */
  lemma SetPasswordRefines(doc: Doc, pw: string)
    requires doc.Valid()
    ensures SetPasswordXML(doc.Text(), pw) == Ok(doc.WithPassword(pw).Text())
    ensures ValueOk(pw) && Marked(doc.WithPassword(pw).attrs) ==> doc.WithPassword(pw).Valid()
  {
    Slices(doc);
    PasswordTagRefines(doc.attrs, doc.tail, pw);
    var doc2 := doc.WithPassword(pw);
    if ValueOk(pw) && Marked(doc2.attrs) {
      Names();
      DropShaped(doc.attrs, "passwd");
      StaysValid(doc, doc2);
    }
  }

  lemma ListenValid(doc: Doc, listen: string, port: Int, post: string)
    requires doc.Valid() && ValueOk(listen) && Marked(doc.WithListen(listen, port).attrs)
    ensures doc.WithListen(listen, port).(post := post).Valid()
  {
    ListenListShaped(listen, port);
    DropShaped(doc.attrs, "listen");
    DropShaped(DropFirst(doc.attrs, "listen"), "port");
    DropShaped(DropFirst(DropFirst(doc.attrs, "listen"), "port"), "autoport");
    StaysValid(doc, doc.WithListen(listen, port).(post := post));
  }

  /** Finding the child by its text and replacing it is replacing the child. */
  lemma ReplaceByText(u: string, w: string, listen: string, cs: nat, ce: nat)
    requires ChildSpan(w) == Span(cs, ce)
    ensures cs < ce <= |w| && Index(w, w[cs..ce]) == cs && |w[cs..ce]| == ce - cs
    ensures (u + w)[..|u| + cs] + Replacement(listen) + (u + w)[|u| + ce..] == u + Relisten(w, listen)
  {
    ChildIsFirst(w);
    assert |w[cs..ce]| == ce - cs;
    hide *;
    RelistenIs(w, listen, cs, ce);
    SpliceBehind(u, w, cs, ce, Replacement(listen));
  }

  lemma RelistenIs(w: string, listen: string, cs: nat, ce: nat)
    requires ChildSpan(w) == Span(cs, ce)
    ensures cs <= ce <= |w| && Relisten(w, listen) == w[..cs] + Replacement(listen) + w[ce..]
  {
    hide ChildSpan, Replacement;
  }

  lemma SpliceBehind(u: string, w: string, cs: nat, ce: nat, t: string)
    requires cs <= ce <= |w|
    ensures (u + w)[..|u| + cs] + t + (u + w)[|u| + ce..] == u + (w[..cs] + t + w[ce..])
  {
    var v := u + w;
    assert v[..|u| + cs] == u + w[..cs] && v[|u| + ce..] == w[ce..];
    FourOf(u, w[..cs], t, w[ce..]);
  }

  lemma FourOf(a: string, b: string, c: string, d: string)
    ensures a + b + c + d == a + (b + c + d)
  {
  }

  lemma ReplaceInElement(out: string, s: nat, e: nat, listen: string)
    requires OpenTag(out) == Span(s, e) && !SelfClosing(out[s..e])
    ensures ReplaceListenChild(out, listen) == out[..e] + Relisten(out[e..], listen)
  {
    hide Index, Replacement, SelfClosing, ChildSpan, OpenTag;
    var w := out[e..];
    assert out[..e] + w == out;
    if ChildSpan(w).Span? {
      var Span(cs, ce) := ChildSpan(w);
      ReplaceByText(out[..e], w, listen, cs, ce);
    }
  }

  lemma ReplaceListenRefines(doc: Doc, listen: string)
    requires doc.Valid()
    ensures ReplaceListenChild(doc.Text(), listen)
            == doc.(post := if doc.Empty() then doc.post else Relisten(doc.post, listen)).Text()
  {
    hide Index, Replacement, SelfClosing, ChildSpan, Relisten;
    Slices(doc);
    SelfClosingTail(doc);
    var out, e := doc.Text(), |doc.pre| + |doc.Opening()|;
    if doc.Empty() {
      assert ListenChild(out, doc.Opening(), e) == "";
    } else {
      ReplaceInElement(out, |doc.pre|, e, listen);
      assert out[..e] == doc.pre + doc.Opening();
    }
  }

  /** setGraphicsListenXML on a document is WithListen, whenever the new tag keeps the marker. */
  lemma SetListenRefines(doc: Doc, listen: string, port: Int)
    requires doc.Valid() && ValueOk(listen) && Marked(doc.WithListen(listen, port).attrs)
    ensures SetListenXML(doc.Text(), listen, port) == Ok(doc.WithListen(listen, port).Text())
    ensures doc.WithListen(listen, port).Valid()
  {
    hide ReplaceListenChild, ListenTag;
    var doc2 := doc.WithListen(listen, port);
    var mid := doc2.(post := doc.post);
    ListenValid(doc, listen, port, doc.post);
    ListenValid(doc, listen, port, doc2.post);
    assert doc2 == doc2.(post := doc2.post);
    Slices(doc);
    ListenTagRefines(doc.attrs, doc.tail, listen, port);
    ReplaceListenRefines(mid, listen);
  }
}
