/**
 Whole domain documents: the VNC console, the rest of its element, and what follows it, where
 `</devices>` and possibly a TPM stand.  On these the console edits and the TPM edit are independent.
*/
module Pages {
  import opened GoStrings
  import opened AttrList
  import opened VncXml
  import opened VncMarker
  import opened VncDoc
  import opened VncLaws
  import opened VncTheorems
  import opened TpmXml
  import opened TpmLaws
  import opened TpmRemoval

  /** A complete TPM element lies in `z`. */
  predicate HasElement(z: string) {
    ElementFrom(z, 0) >= 0
  }

  datatype Page = Page(pre: string, attrs: seq<Attr>, tail: string, inner: string, outer: string) {

    function Doc(): Doc { VncDoc.Doc(pre, attrs, tail, inner + outer) }

    function Text(): string { Doc().Text() }

    /** `inner` is the rest of the console's element, `outer` what follows it. */
    predicate Split() {
      if Doc().Empty() then inner == "" else 11 <= |inner| && Index(inner, CLOSE_GRAPHICS) == |inner| - 11
    }

    /** A TPM element lies before or after the console, or the document does not mention one. */
    predicate Tidy() {
      NoTpm(Text()) || HasElement(pre) || HasElement(outer)
    }

    predicate Good() {
      && Doc().Valid() && Clean(attrs) && Split() && Tidy()
      && LastIndex(outer, CLOSE_DEVICES) >= 0
    }

    function WithListen(listen: string, port: Int): Page {
      Page(pre, ListenList(listen, port) + Stripped(attrs), tail, Relisten(inner, listen), outer)
    }

    function WithPassword(pw: string): Page {
      Page(pre, PasswordList(pw) + DropFirst(attrs, "passwd"), tail, inner, outer)
    }

    function WithTpm(): Page
      requires LastIndex(outer, CLOSE_DEVICES) >= 0
    {
      var i := LastIndex(outer, CLOSE_DEVICES);
      Page(pre, attrs, tail, inner, outer[..i] + TPM_DEVICE + outer[i..])
    }
  }

  // ---------- the console's element in front of anything ----------

  lemma CloseInFront(inner: string, z: string)
    requires 11 <= |inner| && Index(inner, CLOSE_GRAPHICS) == |inner| - 11
    ensures Index(inner + z, CLOSE_GRAPHICS) == |inner| - 11
  {
    hide At, IndexFrom, CLOSE_GRAPHICS;
    assert |CLOSE_GRAPHICS| == 11 by { ListenHead(); }
    var c := |inner| - 11;
    AtFront(inner, z, CLOSE_GRAPHICS, c);
    forall j | 0 <= j < c ensures !At(inner + z, j, CLOSE_GRAPHICS) {
      AtFront(inner, z, CLOSE_GRAPHICS, j);
    }
    IndexIs(inner + z, CLOSE_GRAPHICS, c);
  }

  /** The child is found inside the element, whatever follows it. */
  lemma ChildInFront(inner: string, z: string)
    requires 11 <= |inner| && Index(inner, CLOSE_GRAPHICS) == |inner| - 11
    ensures ChildSpan(inner + z) == ChildSpan(inner)
    ensures ChildSpan(inner).Span? ==> ChildSpan(inner).end <= |inner| - 11
  {
    hide Index, IndexFrom, At, ChildIn;
    CloseInFront(inner, z);
    assert (inner + z)[..|inner| - 11] == inner[..|inner| - 11];
    if ChildSpan(inner).Span? { ChildAt(inner); }
  }

  lemma RelistenInFront(inner: string, z: string, listen: string)
    requires 11 <= |inner| && Index(inner, CLOSE_GRAPHICS) == |inner| - 11 && ValueOk(listen)
    ensures Relisten(inner + z, listen) == Relisten(inner, listen) + z
    ensures var v := Relisten(inner, listen); 11 <= |v| && Index(v, CLOSE_GRAPHICS) == |v| - 11
  {
    hide Index, IndexFrom, At, ChildIn, Replacement, ChildSpan;
    ChildInFront(inner, z);
    if ChildSpan(inner).Span? {
      var Span(cs, ce) := ChildSpan(inner);
      assert (inner + z)[..cs] == inner[..cs] && (inner + z)[ce..] == inner[ce..] + z;
      assert inner[..cs] + Replacement(listen) + (inner[ce..] + z)
          == inner[..cs] + Replacement(listen) + inner[ce..] + z;
      ReplacementTag(listen);
      ListenHead();
      ChildAt(inner);
      SwapShiftsIndex(inner, cs, ce, Replacement(listen), CLOSE_GRAPHICS);
    }
  }

  // ---------- mentions of a TPM ----------

  /** Swapping a tag for one that is not a TPM mentions none. */
  lemma SwapNoTpm(x: string, t: string, y: string, t2: string)
    requires NoTpm(x + t + y) && OneTag(t2) && t2[1] != 't'
    ensures NoTpm(x + t2 + y)
  {
    hide At, IndexFrom;
    TpmLiterals();
    assert TPM[1] == 't';
    var w, v := x + t + y, x + t2 + y;
    forall j | 0 <= j < |v|
      ensures !At(v, j, TPM)
    {
      if j + 4 <= |x| {
        AtFront(x, t2 + y, TPM, j);
        AtFront(x, t + y, TPM, j);
        assert v == x + (t2 + y) && w == x + (t + y);
      } else if j < |x| {
        assert v[|x|] == t2[0] == '<';
        NotAt(v, j, TPM, |x| - j);
      } else if j == |x| {
        assert v[j + 1] == t2[1];
        NotAt(v, j, TPM, 1);
      } else if j < |x| + |t2| {
        assert v[j] == t2[j - |x|];
        NotAt(v, j, TPM, 0);
      } else {
        AtShift(x + t2, y, TPM, j - |x + t2|);
        AtShift(x + t, y, TPM, j - |x + t2|);
      }
    }
    NoneAt(v, TPM);
  }

  lemma NoneAt(v: string, pat: string)
    requires 0 < |pat| && forall j {:trigger At(v, j, pat)} :: 0 <= j < |v| ==> !At(v, j, pat)
    ensures Index(v, pat) == -1
  {
  }

  lemma FrontElement(u: string, r: string)
    requires HasElement(u)
    ensures HasElement(u + r)
  {
    hide IndexFrom, At, CharFrom;
    var w, p := u + r, ElementFrom(u, 0);
    FrontEnd(u, r, p);
    AtFront(u, r, TPM, p);
  }

  lemma FrontEnd(u: string, r: string, p: nat)
    requires p + |TPM| <= |u| && ElementEnd(u, p) > 0
    ensures ElementEnd(u + r, p) > 0
  {
    hide IndexFrom, At, CLOSE_TPM;
    var w, q := u + r, p + |TPM|;
    TpmLiterals();
    assert forall x :: 0 <= x < |u| ==> w[x] == u[x];
    var gt, c := CharFrom(u, '>', q), IndexFrom(u, CLOSE_TPM, q);
    if gt > q && u[gt - 1] == '/' {
      CharFromIs(w, '>', q, gt);
    } else {
      AtFront(u, r, CLOSE_TPM, c);
    }
  }

  lemma BackElement(u: string, r: string)
    requires HasElement(r)
    ensures HasElement(u + r)
  {
    hide IndexFrom, At, CharFrom, ElementEnd;
    var p := ElementFrom(r, 0);
    AtShift(u, r, TPM, p);
    EndShift(u, r, p);
    assert ElementEnd(u + r, |u| + p) != -1;
  }

  /** The reader finds a TPM in a tidy document exactly when one lies before or after the console. */
  lemma PresentIff(page: Page)
    requires page.Tidy()
    ensures InfoXML(page.Text()).present <==> HasElement(page.pre) || HasElement(page.outer)
    ensures InfoXML(page.Text()).present <==> !NoTpm(page.Text())
  {
    hide ElementFrom, AttrText, FirstTag, Index;
    var d := page.Doc();
    var x := page.pre + d.Opening() + page.inner;
    assert page.Text() == page.pre + (d.Opening() + d.post);
    assert page.Text() == x + page.outer;
    if HasElement(page.pre) { FrontElement(page.pre, d.Opening() + d.post); Mentioned(page.Text()); }
    if HasElement(page.outer) { BackElement(x, page.outer); Mentioned(page.Text()); }
    if NoTpm(page.Text()) { Unmentioned(page.Text()); }
  }

  lemma Mentioned(w: string)
    requires HasElement(w)
    ensures !NoTpm(w)
  {
    var p := ElementFrom(w, 0);
    assert At(w, p, TPM);
  }

  lemma Unmentioned(w: string)
    requires NoTpm(w)
    ensures !HasElement(w)
  {
  }

  // ---------- the three edits keep documents good ----------

  lemma TidyAfter(page: Page, q: Page)
    requires page.Tidy() && q.pre == page.pre && q.outer == page.outer && (NoTpm(page.Text()) ==> NoTpm(q.Text()))
    ensures q.Tidy() && InfoXML(q.Text()).present == InfoXML(page.Text()).present
  {
    hide InfoXML, NoTpm, HasElement;
    PresentIff(page);
    PresentIff(q);
  }

  /** Another rendering of the console's own tag mentions no TPM. */
  lemma RetagNoTpm(d: Doc, attrs: seq<Attr>)
    requires NoTpm(d.Text()) && Shaped(attrs) && TailOk(d.tail)
    ensures NoTpm(d.(attrs := attrs).Text())
  {
    hide NoTpm;
    var e := d.(attrs := attrs);
    GraphicsHead();
    TagIsOne(GRAPHICS, attrs, d.tail);
    SecondChar(e);
    SwapNoTpm(d.pre, d.Opening(), d.post, e.Opening());
  }

  lemma PasswordPage(page: Page, pw: string)
    requires page.Doc().Valid() && Clean(page.attrs) && CleanPassword(pw)
    ensures var q := page.WithPassword(pw);
      && q.Doc() == page.Doc().(attrs := q.attrs)
      && q.Doc().Valid() && Clean(q.attrs) && SetPasswordXML(page.Text(), pw) == Ok(q.Text())
      && (NoTpm(page.Text()) ==> NoTpm(q.Text()))
  {
    hide CleanAttr, CleanPassword, DropFirst, NoTpm, SetPasswordXML, OpenTag, GraphicsInfo, GraphicsPort;
    var d, q := page.Doc(), page.WithPassword(pw);
    Loopback();
    EditsRead(d, pw, "127.0.0.1", 0);
    if NoTpm(page.Text()) { RetagNoTpm(d, q.attrs); }
  }

  lemma PasswordStaysGood(page: Page, pw: string)
    requires page.Good() && CleanPassword(pw)
    ensures var q := page.WithPassword(pw);
      q.Good() && SetPasswordXML(page.Text(), pw) == Ok(q.Text())
      && InfoXML(q.Text()).present == InfoXML(page.Text()).present
  {
    hide Clean, InfoXML, Index, CleanPassword, DropFirst, NoTpm, HasElement, LastIndex, SetPasswordXML, Doc.Valid,
        Doc.Text;
    PasswordPage(page, pw);
    TidyAfter(page, page.WithPassword(pw));
  }

  lemma Loopback()
    ensures AddressOk("127.0.0.1") && AddressOk("0.0.0.0")
  {
    assert "127.0.0.1" == ['1', '2', '7', '.', '0', '.', '0', '.', '1'];
    assert "0.0.0.0" == ['0', '.', '0', '.', '0', '.', '0'];
  }

  lemma SecondChar(d: Doc)
    ensures |d.Opening()| >= 2 && d.Opening()[1] == 'g'
  {
    assert GRAPHICS[1] == 'g';
  }

  lemma RelistenNoTpm(x: string, inner: string, z: string, listen: string)
    requires NoTpm(x + inner + z) && ValueOk(listen)
    ensures NoTpm(x + Relisten(inner, listen) + z)
  {
    hide NoTpm, ChildSpan, Replacement, OneTag, TagShape;
    if ChildSpan(inner).Span? {
      var Span(cs, ce) := ChildSpan(inner);
      ReplacementTag(listen);
      assert inner[..cs] + inner[cs..ce] + inner[ce..] == inner;
      RegroupSwap(x, inner[..cs], inner[cs..ce], inner[ce..], z);
      RegroupSwap(x, inner[..cs], Replacement(listen), inner[ce..], z);
      SwapNoTpm(x + inner[..cs], inner[cs..ce], inner[ce..] + z, Replacement(listen));
    }
  }

  lemma RegroupSwap(x: string, a: string, t: string, b: string, z: string)
    ensures x + (a + t + b) + z == (x + a) + t + (b + z)
  {
  }

  lemma NoInner(listen: string)
    ensures Relisten("", listen) == ""
  {
    ListenHead();
  }

  lemma ListenSplit(page: Page, listen: string, port: Int)
    requires page.Split() && ValueOk(listen)
    ensures page.WithListen(listen, port).Doc() == page.Doc().WithListen(listen, port)
    ensures page.WithListen(listen, port).Split()
  {
    hide Relisten, Index, Stripped, ListenList;
    if page.Doc().Empty() { NoInner(listen); }
    else { RelistenInFront(page.inner, page.outer, listen); }
  }

  lemma ListenNoTpm(page: Page, listen: string, port: Int)
    requires NoTpm(page.Text()) && ValueOk(listen) && Shaped(ListenList(listen, port) + Stripped(page.attrs))
        && TailOk(page.tail)
    ensures NoTpm(page.WithListen(listen, port).Text())
  {
    hide NoTpm, Relisten, Stripped, ListenList, Shaped;
    var q := page.WithListen(listen, port);
    RetagNoTpm(page.Doc(), q.attrs);
    var x := page.pre + q.Doc().Opening();
    assert page.Doc().(attrs := q.attrs).Text() == x + page.inner + page.outer;
    RelistenNoTpm(x, page.inner, page.outer, listen);
    assert q.Text() == x + Relisten(page.inner, listen) + page.outer;
  }

  lemma ListenPage(page: Page, listen: string, port: Int)
    requires page.Doc().Valid() && Clean(page.attrs) && page.Split() && AddressOk(listen)
    ensures var q := page.WithListen(listen, port);
      && q.Doc() == page.Doc().WithListen(listen, port) && q.Split()
      && q.Doc().Valid() && Clean(q.attrs) && SetListenXML(page.Text(), listen, port) == Ok(q.Text())
      && (NoTpm(page.Text()) ==> NoTpm(q.Text()))
  {
    hide CleanAttr, Stripped, ListenList, NoTpm, SetListenXML, OpenTag, GraphicsInfo, GraphicsPort, Relisten,
        Page.Split;
    var d := page.Doc();
    ListenSplit(page, listen, port);
    NoPasswordClean();
    EditsRead(d, "", listen, port);
    if NoTpm(page.Text()) { ListenNoTpm(page, listen, port); }
  }

  lemma ListenStaysGood(page: Page, listen: string, port: Int)
    requires page.Good() && AddressOk(listen)
    ensures var q := page.WithListen(listen, port);
      q.Good() && SetListenXML(page.Text(), listen, port) == Ok(q.Text())
      && InfoXML(q.Text()).present == InfoXML(page.Text()).present
  {
    hide Clean, InfoXML, Index, Stripped, ListenList, NoTpm, HasElement, LastIndex, SetListenXML, Doc.Valid, Doc.Text,
        Page.Split, Relisten, AddressOk;
    ListenPage(page, listen, port);
    TidyAfter(page, page.WithListen(listen, port));
  }

  // ---------- adding a TPM ----------

  lemma LastBehind(u: string, r: string, pat: string)
    requires LastIndex(r, pat) >= 0
    ensures LastIndex(u + r, pat) == |u| + LastIndex(r, pat)
  {
    hide LastIndexBelow, At;
    var i := LastIndex(r, pat);
    AtShift(u, r, pat, i);
    forall j | |u| + i < j ensures !At(u + r, j, pat) { AtShift(u, r, pat, j - |u|); }
  }

  lemma TpmOuter(outer: string)
    requires NoTpm(outer) && LastIndex(outer, CLOSE_DEVICES) >= 0
    ensures var i := LastIndex(outer, CLOSE_DEVICES); var z := outer[..i] + TPM_DEVICE + outer[i..];
      HasElement(z) && LastIndex(z, CLOSE_DEVICES) >= 0
  {
    hide TPM_DEVICE, LastIndexBelow, ElementFrom, Element, NoTpm;
    DevicesSplit(outer);
    var i := LastIndex(outer, CLOSE_DEVICES);
    var u, v := outer[..i], outer[i..];
    AddedText(u, v);
    AddedElement(u, "\n" + v);
    AtShift(u, v, CLOSE_DEVICES, 0);
    AtShift(u + TPM_DEVICE, v, CLOSE_DEVICES, 0);
  }

  /** Adding a TPM to a good document without one changes only what follows the console. */
  lemma TpmPage(page: Page)
    requires page.Good() && !InfoXML(page.Text()).present
    ensures var q := page.WithTpm();
      q.Good() && SetTpmXML(page.Text(), true) == Ok(q.Text()) && InfoXML(q.Text()).present
  {
    hide InfoXML, NoTpm, HasElement, Clean, Index, LastIndex, ElementFrom, Page.Split, Doc.Valid, TPM_DEVICE;
    var q := page.WithTpm();
    PresentIff(page);
    OuterNoTpm(page);
    TpmOuter(page.outer);
    TpmText(page);
    TpmSplit(page);
    PresentIff(q);
  }

  lemma OuterNoTpm(page: Page)
    requires NoTpm(page.Text())
    ensures NoTpm(page.outer)
  {
    hide IndexFrom, At;
    var x := page.pre + page.Doc().Opening() + page.inner;
    assert page.Text() == x + page.outer;
    if Index(page.outer, TPM) >= 0 { AtShift(x, page.outer, TPM, Index(page.outer, TPM)); }
  }

  lemma TpmText(page: Page)
    requires LastIndex(page.outer, CLOSE_DEVICES) >= 0 && !InfoXML(page.Text()).present
    ensures SetTpmXML(page.Text(), true) == Ok(page.WithTpm().Text())
  {
    hide LastIndex, InfoXML, TPM_DEVICE;
    var x := page.pre + page.Doc().Opening() + page.inner;
    var d, i := page.Text(), LastIndex(page.outer, CLOSE_DEVICES);
    assert d == x + page.outer;
    LastBehind(x, page.outer, CLOSE_DEVICES);
    LastInside(page.outer);
    assert d[..|x| + i] == x + page.outer[..i] && d[|x| + i..] == page.outer[i..];
    var u, v := page.outer[..i], page.outer[i..];
    assert page.WithTpm().Text() == x + (u + TPM_DEVICE + v);
    assert (x + u) + TPM_DEVICE + v == x + (u + TPM_DEVICE + v);
    assert LastIndex(d, CLOSE_DEVICES) == |x| + i;
  }

  lemma LastInside(w: string)
    ensures LastIndex(w, CLOSE_DEVICES) <= |w|
  {
  }

  lemma TpmSplit(page: Page)
    requires LastIndex(page.outer, CLOSE_DEVICES) >= 0 && page.Doc().Valid() && page.Split()
    ensures page.WithTpm().Split() && page.WithTpm().Doc().Valid()
  {
    hide LastIndex, Index, TPM_DEVICE, OpenTag;
    ValidMarked(page.Doc());
    StaysValid(page.Doc(), page.WithTpm().Doc());
  }

  lemma GoodDevices(page: Page)
    requires page.Good()
    ensures LastIndex(page.outer, CLOSE_DEVICES) >= 0
  {
  }

  // ---------- independence of the TPM ----------

  /** Adding a TPM and either console edit commute, exactly as text. */
  lemma TpmCommutes(page: Page, pw: string, listen: string, port: Int)
    requires page.Good() && !InfoXML(page.Text()).present && CleanPassword(pw) && AddressOk(listen)
    ensures var t := SetTpmXML(page.Text(), true); var p := SetPasswordXML(page.Text(), pw);
      && t.Ok? && p.Ok? && SetPasswordXML(t.value, pw) == SetTpmXML(p.value, true) && SetTpmXML(p.value, true).Ok?
    ensures var t := SetTpmXML(page.Text(), true); var l := SetListenXML(page.Text(), listen, port);
      && t.Ok? && l.Ok? && SetListenXML(t.value, listen, port) == SetTpmXML(l.value, true)
          && SetTpmXML(l.value, true).Ok?
  {
    hide InfoXML, SetTpmXML, SetPasswordXML, SetListenXML, Page.Good, Page.Text, CleanPassword, AddressOk, Relisten,
        Stripped, DropFirst, ListenList;
    TpmPage(page);
    PasswordStaysGood(page, pw);
    TpmPage(page.WithPassword(pw));
    ListenStaysGood(page, listen, port);
    TpmPage(page.WithListen(listen, port));
    GoodDevices(page);
    PasswordStaysGood(page.WithTpm(), pw);
    ListenStaysGood(page.WithTpm(), listen, port);
  }

  // ---------- such documents exist ----------

  /** Enough for a document without a TPM to be good. */
  lemma PlainIsGood(page: Page)
    requires Clean(page.attrs) && Marked(page.attrs) && TailOk(page.tail) && Index(page.pre, GRAPHICS) == -1
    requires page.Split() && NoTpm(page.Text()) && LastIndex(page.outer, CLOSE_DEVICES) >= 0
    ensures page.Good()
  {
    hide Index, LastIndex, NoTpm, CleanAttr, Page.Split;
    FirstIsValid(page.Doc());
  }

  /** One self-closing console, then the end of the device list. */
  function SamplePage(): Page {
    Page("", [Attr("type", "vnc")], "/>", "", CLOSE_DEVICES)
  }

  lemma SampleTag()
    ensures Clean(SamplePage().attrs) && Marked(SamplePage().attrs) && TailOk("/>")
  {
    TypeName();
    ListenHead();
    assert "vnc" == ['v', 'n', 'c'];
    WholeSuffix("type");
    NotSuffix("type", "listen"); NotSuffix("type", "passwd"); NotSuffix("type", "port");
    CleanValue("vnc");
    assert IsMarker(SamplePage().attrs[0]);
  }

  lemma DevicesAlone()
    ensures NoTpm(CLOSE_DEVICES) && LastIndex(CLOSE_DEVICES, CLOSE_DEVICES) >= 0
  {
    assert CLOSE_DEVICES == ['<', '/', 'd', 'e', 'v', 'i', 'c', 'e', 's', '>'];
    TpmLiterals();
    assert TPM[2] == 'p';
    AbsentChar(CLOSE_DEVICES, TPM, 2);
    assert At(CLOSE_DEVICES, 0, CLOSE_DEVICES);
  }

  lemma SampleNoTpm()
    ensures NoTpm(SamplePage().Text()) && SamplePage().Text() == SamplePage().Doc().Opening() + CLOSE_DEVICES
  {
    var page := SamplePage();
    SampleTag();
    DevicesAlone();
    hide NoTpm, Clean, Marked, CLOSE_DEVICES, OneTag, TagShape;
    GraphicsHead();
    TagIsOne(GRAPHICS, page.attrs, page.tail);
    SecondChar(page.Doc());
    RetagNothing(page.Doc().Opening());
    Alone(page.Doc().Opening(), CLOSE_DEVICES);
  }

  lemma Alone(t: string, post: string)
    ensures "" + t + ("" + post) == t + post
  {
  }

  lemma SampleIsGood()
    ensures SamplePage().Good() && !InfoXML(SamplePage().Text()).present
  {
    SampleTag();
    DevicesAlone();
    SampleNoTpm();
    NothingInside();
    SampleSplit();
    hide NoTpm, Clean, Marked, Index, LastIndex, CLOSE_DEVICES, InfoXML, HasElement, Page.Split, Page.Text;
    PlainIsGood(SamplePage());
    PresentIff(SamplePage());
  }

  lemma SampleSplit()
    ensures SamplePage().Split()
  {
    assert EndsWith("/>", "/>") by { WholeSuffix("/>"); }
  }

  lemma NothingInside()
    ensures Index("", GRAPHICS) == -1
  {
  }

  /** A lone tag that is not a TPM mentions none. */
  lemma RetagNothing(t: string)
    requires OneTag(t) && t[1] == 'g' && NoTpm(CLOSE_DEVICES)
    ensures NoTpm(t + CLOSE_DEVICES)
  {
    hide At, IndexFrom, CLOSE_DEVICES;
    TpmLiterals();
    assert TPM[1] == 't';
    var w := t + CLOSE_DEVICES;
    forall j | 0 <= j < |w|
      ensures !At(w, j, TPM)
    {
      if j == 0 { assert w[1] == t[1]; NotAt(w, j, TPM, 1); }
      else if j < |t| { assert w[j] == t[j]; NotAt(w, j, TPM, 0); }
      else { AtShift(t, CLOSE_DEVICES, TPM, j - |t|); }
    }
    NoneAt(w, TPM);
  }
}
