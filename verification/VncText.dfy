/**
 What the console edits promise on any document text: any quotes, any spacing, anything at all between
 `<graphics` and `>`.  Only the new attributes in front are known; the rest of the tag stays text.
*/
module VncText {
  import opened GoStrings
  import opened AttrList
  import opened VncXml
  import opened VncMarker
  import opened VncDoc
  import opened VncLaws

  // ---------- tags keep their shape ----------

  /** Cutting a piece out from between the head and the end. */
  lemma CutShape(tag: string, i: nat, e: nat)
    requires TagShape(GRAPHICS, tag) && |GRAPHICS| <= i <= e < |tag|
    ensures TagShape(GRAPHICS, tag[..i] + tag[e..])
  {
    var t := tag[..i] + tag[e..];
    assert forall x :: 0 <= x < |GRAPHICS| ==> t[x] == tag[x];
  }

  /** Where the cut ends: behind a closing quote. */
  lemma CutEnd(tag: string, key: string, q: char) returns (e: nat)
    requires key != ""
    ensures e <= |tag|
    ensures var c := CutQ(tag, key, q); var i := Index(tag, key);
      c.Cut? ==> 0 <= i < e && c.before == tag[..i] && c.after == tag[e..] && tag[e - 1] == q
  {
    hide *;
    var i := Index(tag, key);
    CutIs(tag, key, q, i);
    e := 0;
    if i >= 0 {
      var k := i + |key|;
      var n := CutOffEnd(tag[..i], tag[k..], q);
      e := k + n;
      if n > 0 { SliceAgain(tag, k, n); }
    }
  }

  lemma CutOffEnd(before: string, rest: string, q: char) returns (n: nat)
    ensures n <= |rest|
    ensures var c := CutOff(before, rest, q);
      c.Cut? ==> 0 < n && c.before == before && c.after == rest[n..] && rest[n - 1] == q
  {
    var j := CharFrom(rest, q, 0);
    n := if j < 0 then 0 else j + 1;
  }

  lemma SliceAgain(t: string, k: nat, n: nat)
    requires 0 < n && k + n <= |t|
    ensures t[k..][n - 1] == t[k + n - 1] && t[k..][n..] == t[k + n..]
  {
  }

  lemma DropQShape(tag: string, attr: string, q: char)
    requires TagShape(GRAPHICS, tag) && q != '>'
    ensures DropQ(tag, attr, q).Some? ==> TagShape(GRAPHICS, DropQ(tag, attr, q).value)
  {
    ShapeAt(tag);
    LastClose(tag);
    KeyBehindHead(tag, attr, q);
    hide TagShape, CutQ, Index;
    var key := Key(" " + attr, q);
    var e := CutEnd(tag, key, q);
    if CutQ(tag, key, q).Cut? { CutShape(tag, Index(tag, key), e); }
  }

  lemma LastClose(t: string)
    requires TagShape(GRAPHICS, t)
    ensures t != "" && t[|t| - 1] == '>'
  {
  }

  lemma DropShape(tag: string, attr: string)
    requires TagShape(GRAPHICS, tag)
    ensures TagShape(GRAPHICS, DropText(tag, attr))
  {
    hide TagShape, DropQ;
    DropQShape(tag, attr, '\'');
    DropQShape(tag, attr, '"');
  }

  /** What the three drops of setGraphicsListenXML leave of a tag. */
  function StrippedText(tag: string): string {
    DropText(DropText(DropText(tag, "listen"), "port"), "autoport")
  }

  lemma StrippedShape(tag: string)
    requires TagShape(GRAPHICS, tag)
    ensures TagShape(GRAPHICS, StrippedText(tag))
  {
    hide TagShape, DropText;
    DropShape(tag, "listen");
    DropShape(DropText(tag, "listen"), "port");
    DropShape(DropText(DropText(tag, "listen"), "port"), "autoport");
  }

  /** A tag without its head. */
  function Tail(tag: string): string
    requires |GRAPHICS| <= |tag|
  {
    tag[|GRAPHICS|..]
  }

  lemma HeadAndTail(tag: string)
    requires TagShape(GRAPHICS, tag)
    ensures |GRAPHICS| < |tag| && tag == GRAPHICS + Tail(tag) && Tail(tag)[|Tail(tag)| - 1] == '>'
    ensures forall i :: 0 <= i < |Tail(tag)| - 1 ==> Tail(tag)[i] != '>'
  {
    GraphicsHead();
    HeadChars(GRAPHICS, tag, 0);
    assert tag[..|GRAPHICS|] == GRAPHICS;
  }

  /** A list of attributes in front of the rest of a tag. */
  lemma InFront(x: seq<Attr>, tag: string)
    requires Shaped(x) && TagShape(GRAPHICS, tag)
    ensures |GRAPHICS| <= |tag| && TagShape(GRAPHICS, GRAPHICS + Body(x, Tail(tag)))
  {
    HeadAndTail(tag);
    GraphicsHead();
    var r := Tail(tag);
    var t, b := GRAPHICS + Body(x, r), Body(x, r);
    BodyOver(x, r);
    forall i | 0 <= i < |t| - 1 ensures t[i] != '>' {
      if i >= |GRAPHICS| { assert t[i] == b[i - |GRAPHICS|]; }
    }
    assert t[|t| - 1] == b[|b| - 1];
  }

  lemma {:induction false} BodyOver(x: seq<Attr>, r: string)
    requires Shaped(x) && r != "" && r[|r| - 1] == '>' && forall i :: 0 <= i < |r| - 1 ==> r[i] != '>'
    ensures var b := Body(x, r); b != "" && b[|b| - 1] == '>' && forall i :: 0 <= i < |b| - 1 ==> b[i] != '>'
  {
    if x != [] {
      var a, s := x[0], Body(x[1..], r);
      BodyOver(x[1..], r);
      var b := Chunk(a) + s;
      forall i | 0 <= i < |b| - 1 ensures b[i] != '>' {
        if i < |Chunk(a)| { ChunkPlain(a, s, i); } else { assert b[i] == s[i - |Chunk(a)|]; }
      }
    }
  }

  /** The new tag of setGraphicsListenXML. */
  lemma ListenTagText(tag: string, listen: string, port: Int)
    requires TagShape(GRAPHICS, tag)
    ensures TagShape(GRAPHICS, StrippedText(tag)) && |GRAPHICS| <= |StrippedText(tag)|
    ensures ListenTag(tag, listen, port) == GRAPHICS + Body(ListenList(listen, port), Tail(StrippedText(tag)))
  {
    hide Body, ListenAttrs, ListenList, DropText;
    StrippedShape(tag);
    HeadAndTail(StrippedText(tag));
    var r := Tail(StrippedText(tag));
    ListenAttrsText(listen, port, r);
    assert GRAPHICS + ListenAttrs(listen, port) + r == GRAPHICS + (ListenAttrs(listen, port) + r);
  }

  /** The new tag of setGraphicsPasswordXML. */
  lemma PasswordTagText(tag: string, pw: string)
    requires TagShape(GRAPHICS, tag)
    ensures TagShape(GRAPHICS, DropText(tag, "passwd")) && |GRAPHICS| <= |DropText(tag, "passwd")|
    ensures PasswordTag(tag, pw) == GRAPHICS + Body(PasswordList(pw), Tail(DropText(tag, "passwd")))
  {
    hide DropText, Chunk;
    DropShape(tag, "passwd");
    HeadAndTail(DropText(tag, "passwd"));
    var r := Tail(DropText(tag, "passwd"));
    if pw != "" {
      Literals(pw);
      BodyCons(Attr("passwd", pw), [], r);
      assert [Attr("passwd", pw)] + [] == PasswordList(pw);
      assert GRAPHICS + " passwd='" + pw + "'" + r == GRAPHICS + (" passwd='" + pw + "'" + r);
    }
  }

  lemma ListenTagShape(tag: string, listen: string, port: Int)
    requires TagShape(GRAPHICS, tag) && ValueOk(listen)
    ensures TagShape(GRAPHICS, ListenTag(tag, listen, port))
  {
    hide TagShape, ListenTag, StrippedText;
    ListenTagText(tag, listen, port);
    ListenListShaped(listen, port);
    InFront(ListenList(listen, port), StrippedText(tag));
  }

  lemma PasswordTagShape(tag: string, pw: string)
    requires TagShape(GRAPHICS, tag) && ValueOk(pw)
    ensures TagShape(GRAPHICS, PasswordTag(tag, pw))
  {
    hide TagShape, PasswordTag, DropText;
    PasswordTagText(tag, pw);
    Names();
    InFront(PasswordList(pw), DropText(tag, "passwd"));
  }

  // ---------- searching behind known attributes ----------

  /** No occurrence of a key starts in the head when a space follows it. */
  lemma HeadFree(b: string, k: string)
    requires b != "" && b[0] == ' ' && KeyOk(k)
    ensures forall j {:trigger At(GRAPHICS + b, j, Key(k, '\''))} ::
              0 <= j < |GRAPHICS| ==> !At(GRAPHICS + b, j, Key(k, '\''))
  {
    GraphicsHead();
    var s, p := GRAPHICS + b, Key(k, '\'');
    forall j | 0 <= j < |GRAPHICS|
      ensures !At(s, j, p)
    {
      var x := |GRAPHICS| - j;
      if x < |k| { assert s[j + x] == ' ' && p[x] == k[x] != ' '; }
      else { InHead(b, j, k); }
    }
  }

  lemma InHead(b: string, j: nat, k: string)
    requires b != "" && b[0] == ' ' && KeyOk(k) && j + |k| <= |GRAPHICS|
    ensures !At(GRAPHICS + b, j, Key(k, '\''))
  {
    GraphicsHead();
    var s, p := GRAPHICS + b, Key(k, '\'');
    assert p[|k|] == '=';
    if j + |k| < |GRAPHICS| { assert s[j + |k|] == GRAPHICS[j + |k|] != '='; } else { assert s[j + |k|] == ' '; }
  }

  /** Reading an attribute behind others that say nothing about it. */
  lemma {:induction false} ReadBehindSilent(x: seq<Attr>, a: Attr, y: seq<Attr>, r: string, key: string)
    requires Shaped(x + [a] + y) && NameOk(key) && EndsWith(a.name, key)
    requires forall i :: 0 <= i < |x| ==> Silent(x[i], key)
    ensures AttrQ(Body(x + [a] + y, r), key, '\'') == Some(a.value)
  {
    hide AttrQ, Chunk, EndsWith, NameOk, ValueOk;
    var all := x + [a] + y;
    if x == [] {
      assert all[0] == a && all[1..] == y;
      ReadName(a, Body(y, r), key);
    } else {
      assert all[0] == x[0] && all[1..] == x[1..] + [a] + y;
      ReadBehindSilent(x[1..], a, y, r, key);
      ReadPast(x[0], Body(all[1..], r), key);
    }
  }

  lemma TagReads(x: seq<Attr>, a: Attr, y: seq<Attr>, r: string, key: string)
    requires Shaped(x + [a] + y) && NameOk(key) && EndsWith(a.name, key)
    requires forall i :: 0 <= i < |x| ==> Silent(x[i], key)
    ensures AttrText(GRAPHICS + Body(x + [a] + y, r), key) == a.value
  {
    hide AttrQ, EndsWith, NameOk, ValueOk, Silent;
    var all := x + [a] + y;
    ReadBehindSilent(x, a, y, r, key);
    assert Body(all, r)[0] == ' ';
    HeadSpace(Body(all, r), key);
  }

  lemma HeadSpace(b: string, key: string)
    requires b != "" && b[0] == ' ' && NameOk(key)
    ensures AttrQ(GRAPHICS + b, key, '\'') == AttrQ(b, key, '\'')
  {
    HeadFree(b, key);
    ReadBehind(GRAPHICS, b, key);
  }

  lemma FixedTagReads(listen: string, port: string, r: string)
    requires AddressOk(listen) && ValueOk(port) && !EndsWith(port, "autoport" + "=")
    ensures var t := GRAPHICS + Body([Attr("listen", listen), Attr("port", port), Attr("autoport", "no")], r);
      AttrText(t, "listen") == listen && AttrText(t, "port") == port && AttrText(t, "autoport") == "no"
  {
    var l, p, n := Attr("listen", listen), Attr("port", port), Attr("autoport", "no");
    Names();
    YesAndNo();
    SilentListen(listen);
    SilentPort(port);
    assert ValueOk(listen);
    hide EndsWith, AttrText, NameOk, ValueOk, Body, Silent, AddressOk;
    assert [] + [l] + [p, n] == [l, p, n] && [l] + [p] + [n] == [l, p, n] && [l, p] + [n] + [] == [l, p, n];
    TagReads([], l, [p, n], r, "listen");
    TagReads([l], p, [n], r, "port");
    TagReads([l, p], n, [], r, "autoport");
  }

  lemma SilentListen(listen: string)
    requires AddressOk(listen)
    ensures Silent(Attr("listen", listen), "port") && Silent(Attr("listen", listen), "autoport")
    ensures EndsWith("listen", "listen") && EndsWith("port", "port") && EndsWith("autoport", "autoport")
  {
    WholeSuffix("listen"); WholeSuffix("port"); WholeSuffix("autoport");
    OwnNames();
    NotSuffix(listen, "port" + "=");
    NotSuffix(listen, "autoport" + "=");
  }

  lemma SilentPort(port: string)
    requires !EndsWith(port, "autoport" + "=")
    ensures Silent(Attr("port", port), "autoport") && EndsWith("autoport", "port")
  {
    OwnNames();
  }

  lemma AutoTagReads(listen: string, r: string)
    requires AddressOk(listen)
    ensures var t := GRAPHICS + Body([Attr("listen", listen), Attr("autoport", "yes")], r);
      AttrText(t, "listen") == listen && AttrText(t, "port") == "yes" && AttrText(t, "autoport") == "yes"
  {
    var l, y := Attr("listen", listen), Attr("autoport", "yes");
    Names();
    YesAndNo();
    SilentListen(listen);
    assert EndsWith("autoport", "port") by { OwnNames(); }
    assert ValueOk(listen);
    hide EndsWith, AttrText, NameOk, ValueOk, Body, Silent, AddressOk;
    assert [] + [l] + [y] == [l, y] && [l] + [y] + [] == [l, y];
    TagReads([], l, [y], r, "listen");
    TagReads([l], y, [], r, "port");
    TagReads([l], y, [], r, "autoport");
  }

  lemma NotANumber(v: string)
    requires 0 < |v| && !IsDigit(v[0]) && v[0] != '-' && v[0] != '+'
    ensures Atoi(v) == None
  {
  }

  /** The new tag reads as what was written into it, whatever the old one was. */
  lemma ListenTagReads(tag: string, listen: string, port: Int)
    requires TagShape(GRAPHICS, tag) && AddressOk(listen)
    ensures var t := ListenTag(tag, listen, port);
      && AttrText(t, "listen") == listen && AttrText(t, "autoport") == (if port > 0 then "no" else "yes")
      && PortNumber(AttrText(t, "port")) == if port > 0 then port else 0
  {
    hide AttrText, Atoi, Itoa, ListenTag, StrippedText, TagShape, Body;
    ListenTagText(tag, listen, port);
    var r := Tail(StrippedText(tag));
    if port > 0 {
      ItoaDigits(port);
      AtoiItoa(port);
      NotSuffix(Itoa(port), "autoport" + "=");
      FixedTagReads(listen, Itoa(port), r);
    } else {
      AutoTagReads(listen, r);
      NotANumber("yes");
    }
  }

  // ---------- the documents ----------

  /** Whatever is put in a tag's place, the search stops there if and only if it is a VNC tag. */
  lemma SameStartIff(d: string, t: string, z: string)
    requires OpenTag(d).Span? && TagShape(GRAPHICS, t)
    ensures var s := OpenTag(d).start; var r := OpenTag(d[..s] + t + z);
      && (IsVncTag(t) <==> r.Span? && r.start == s)
      && (IsVncTag(t) ==> r == Span(s, s + |t|))
  {
    hide IsVncTag, TagFrom;
    var s := OpenTag(d).start;
    var d2 := d[..s] + t + z;
    assert d2[..s] == d[..s] && d2[s..s + |t|] == t;
    if IsVncTag(t) { OpenTagLocal(d, d2, t); }
    else if OpenTag(d2).Span? && OpenTag(d2).start == s {
      var e := OpenTag(d2).end;
      SameTag(d2, s, e, t);
    }
  }

  function Moved(r: Span, n: nat): Span {
    match r case NoSpan => NoSpan case Span(s, e) => Span(n + s, n + e)
  }

  lemma SliceShift(u: string, r: string, a: nat, b: nat)
    requires a <= b <= |r|
    ensures (u + r)[|u| + a..|u| + b] == r[a..b]
  {
  }

  /** Searching behind a text is searching the rest. */
  lemma {:induction false} TagShift(head: string, test: string -> bool, u: string, r: string, d: string, k: nat)
    requires HeadOk(head) && k <= |r| && d == u + r
    ensures TagFrom(head, test, d, |u| + k) == Moved(TagFrom(head, test, r, k), |u|)
    decreases |r| - k
  {
    hide TagFrom, IndexFrom, CharFrom, HeadOk, Close;
    TagRound(head, test, r, k);
    TagRound(head, test, d, |u| + k);
    RoundShift(head, u, r, d, k);
    var abs, gt := IndexFrom(r, head, k), Close(head, r, k);
    if abs < 0 || gt < 0 {
      assert TagFrom(head, test, r, k) == NoSpan;
    } else if test(r[abs..gt + 1]) {
      assert TagFrom(head, test, r, k) == Span(abs, gt + 1);
    } else {
      TagShift(head, test, u, r, d, gt + 1);
    }
  }

  /** The end of the first head at or after `k`. */
  function Close(head: string, r: string, k: nat): (gt: int)
    requires HeadOk(head) && k <= |r|
    ensures gt == -1 || (0 <= IndexFrom(r, head, k) <= gt < |r|)
  {
    var abs := IndexFrom(r, head, k);
    if abs < 0 then -1 else CharFrom(r, '>', abs)
  }

  lemma RoundShift(head: string, u: string, r: string, d: string, k: nat)
    requires HeadOk(head) && k <= |r| && d == u + r
    ensures var abs, gt := IndexFrom(r, head, k), Close(head, r, k);
      && IndexFrom(d, head, |u| + k) == (if abs < 0 then -1 else |u| + abs)
      && (abs >= 0 ==> k <= abs < |r| && gt == CharFrom(r, '>', abs)
                       && CharFrom(d, '>', |u| + abs) == if gt < 0 then -1 else |u| + gt)
      && (gt >= 0 ==> k <= abs <= gt < |r| && d[|u| + abs..|u| + gt + 1] == r[abs..gt + 1]
                      && |u| + (gt + 1) == |u| + gt + 1)
  {
    hide IndexFrom, CharFrom;
    IndexShift(u, r, head, k);
    var abs := IndexFrom(r, head, k);
    if abs >= 0 {
      CharShift(u, r, '>', abs);
      if CharFrom(r, '>', abs) >= 0 { SliceShift(u, r, abs, CharFrom(r, '>', abs) + 1); }
    }
  }

  lemma MovedIs(n: nat)
    ensures Moved(NoSpan, n) == NoSpan && forall s: nat, e: nat :: Moved(Span(s, e), n) == Span(n + s, n + e)
  {
  }

  /** The definition of the search, one round of it. */
  lemma TagRound(head: string, test: string -> bool, d: string, off: nat)
    requires HeadOk(head) && off <= |d|
    ensures var abs := IndexFrom(d, head, off);
      && (abs < 0 ==> TagFrom(head, test, d, off) == NoSpan)
      && (abs >= 0 ==>
            && off <= abs < |d|
            && var gt := CharFrom(d, '>', abs);
            && (gt < 0 ==> TagFrom(head, test, d, off) == NoSpan)
            && (gt >= 0 ==>
                  && abs <= gt < |d|
                  && TagFrom(head, test, d, off)
                     == if test(d[abs..gt + 1]) then Span(abs, gt + 1) else TagFrom(head, test, d, gt + 1)))
  {
    hide IndexFrom, CharFrom;
  }

  /** When the tag put in the console's place is no VNC tag, the search goes on behind it. */
  lemma SearchGoesOn(d: string, t: string, z: string)
    requires OpenTag(d).Span? && TagShape(GRAPHICS, t) && !IsVncTag(t)
    ensures var s := OpenTag(d).start; s <= |d| && OpenTag(d[..s] + t + z) == Moved(OpenTag(z), s + |t|)
  {
    hide TagFrom, IsVncTag, IndexFrom, CharFrom;
    GraphicsHead();
    var Span(s, e) := OpenTag(d);
    var u, d2 := d[..s] + t, d[..s] + t + z;
    assert d2[..s] == d[..s] && d2[s..s + |t|] == t;
    AtSlice(d, s, e, GRAPHICS);
    AtSlice(d2, s, s + |t|, GRAPHICS);
    TagReach(GRAPHICS, IsVncTag, d, d2, 0, s, e);
    OwnClose(GRAPHICS, d2, s, t);
    HereIs(d2, s);
    TagPast(GRAPHICS, IsVncTag, d2, s, s, s + |t| - 1);
    TagShift(GRAPHICS, IsVncTag, u, z, d2, 0);
  }

  lemma HereIs(d: string, s: nat)
    requires s <= |d| && At(d, s, GRAPHICS)
    ensures IndexFrom(d, GRAPHICS, s) == s
  {
  }

  /** Two tags that start at the same place are the same tag. */
  lemma SameTag(d: string, s: nat, e: nat, t: string)
    requires s < e <= |d| && s + |t| <= |d| && d[s..s + |t|] == t
    requires TagShape(GRAPHICS, d[s..e]) && TagShape(GRAPHICS, t)
    ensures d[s..e] == t
  {
    OwnClose(GRAPHICS, d, s, d[s..e]);
    OwnClose(GRAPHICS, d, s, t);
  }

  lemma Around(d: string, s: nat, t: string, z: string)
    requires s <= |d|
    ensures var o := d[..s] + t + z;
      o[..s] == d[..s] && o[s..s + |t|] == t && o[s + |t|..] == z && o[..s + |t|] == d[..s] + t
  {
  }

  /** What follows the tag after a listen edit: only the child is replaced. */
  function Behind(t: string, z: string, listen: string): string {
    if SelfClosing(t) then z else Relisten(z, listen)
  }

  /** The second half of the listen edit, when the new tag is a VNC tag. */
  lemma ReplaceBehind(d: string, t: string, z: string, listen: string)
    requires OpenTag(d).Span? && TagShape(GRAPHICS, t) && IsVncTag(t)
    ensures var s := OpenTag(d).start; ReplaceListenChild(d[..s] + t + z, listen) == d[..s] + t + Behind(t, z, listen)
  {
    hide OpenTag, SelfClosing, Relisten, Replacement, ChildSpan, TagShape, IsVncTag;
    var s := OpenTag(d).start;
    assert s <= |d| by { StartInside(d); }
    var out := d[..s] + t + z;
    SameStartIff(d, t, z);
    Around(d, s, t, z);
    if SelfClosing(t) {
      assert ListenChild(out, t, s + |t|) == "";
    } else {
      ReplaceInElement(out, s, s + |t|, listen);
    }
  }

  lemma StartInside(d: string)
    ensures OpenTag(d).Span? ==>
              OpenTag(d).start < OpenTag(d).end <= |d| && TagShape(GRAPHICS, d[OpenTag(d).start..OpenTag(d).end])
  {
  }

  /** setGraphicsListenXML on any text with a console: everything outside the tag and the child stays, and
      the search finds the new tag at the same offset. */
  lemma ListenFrame(d: string, listen: string, port: Int)
    requires OpenTag(d).Span? && ValueOk(listen)
    requires IsVncTag(ListenTag(d[OpenTag(d).start..OpenTag(d).end], listen, port))
    ensures var Span(s, e) := OpenTag(d); var t := ListenTag(d[s..e], listen, port);
      && SetListenXML(d, listen, port) == Ok(d[..s] + t + Behind(t, d[e..], listen))
      && OpenTag(d[..s] + t + Behind(t, d[e..], listen)) == Span(s, s + |t|)
  {
    hide OpenTag, ListenTag, TagShape, IsVncTag, ReplaceListenChild, Behind;
    StartInside(d);
    var Span(s, e) := OpenTag(d);
    ListenTagShape(d[s..e], listen, port);
    var t := ListenTag(d[s..e], listen, port);
    ReplaceBehind(d, t, d[e..], listen);
    SameStartIff(d, t, Behind(t, d[e..], listen));
  }

  /** setGraphicsPasswordXML on any text with a console: everything outside the tag stays, and the search
      finds the new tag at the same offset exactly when it is still a VNC tag. */
  lemma PasswordFrame(d: string, pw: string)
    requires OpenTag(d).Span? && ValueOk(pw)
    ensures var Span(s, e) := OpenTag(d); var t := PasswordTag(d[s..e], pw); var out := d[..s] + t + d[e..];
      && SetPasswordXML(d, pw) == Ok(out)
      && (IsVncTag(t) <==> OpenTag(out).Span? && OpenTag(out).start == s)
      && (IsVncTag(t) ==> OpenTag(out) == Span(s, s + |t|))
  {
    hide OpenTag, PasswordTag, TagShape, IsVncTag;
    StartInside(d);
    var Span(s, e) := OpenTag(d);
    PasswordTagShape(d[s..e], pw);
    SameStartIff(d, PasswordTag(d[s..e], pw), d[e..]);
  }

  // ---------- write, then read ----------

  /** The new child is of type address and has the address. */
  lemma ReplacementReads(listen: string)
    requires AddressOk(listen)
    ensures AttrText(Replacement(listen), "address") == listen && AttrText(Replacement(listen), "type") == "address"
  {
    assert ValueOk(listen);
    hide AttrText, Replacement, ReadFirst, AddressOk;
    Names();
    ListenHead();
    ReplacementText(listen);
    ReplacementTag(listen);
    TypeName();
    ReadRefines(LISTEN, ReplacementList(listen), ADDRESS_CHILD, "address");
    ReadRefines(LISTEN, ReplacementList(listen), ADDRESS_CHILD, "type");
    ReplacementFirst(listen);
  }

  lemma ReplacementFirst(listen: string)
    requires AddressOk(listen)
    ensures ReadFirst(ReplacementList(listen), "address") == listen
    ensures ReadFirst(ReplacementList(listen), "type") == "address"
  {
    var attrs := ReplacementList(listen);
    NotSuffix("type", "address");
    NotSuffix("address", "address" + "=");
    WholeSuffix("address");
    WholeSuffix("type");
    hide EndsWith;
    assert attrs[1..] == [Attr("address", listen)];
  }

  lemma RelistenReads(w: string, listen: string)
    requires AddressOk(listen) && ChildSpan(w).Span?
    ensures ChildAddress(Relisten(w, listen)) == listen
    ensures var Span(s, e) := ChildSpan(Relisten(w, listen)); AttrText(Relisten(w, listen)[s..e], "type") == "address"
  {
    hide ChildSpan, Replacement, AttrText;
    RelistenChild(w, listen);
    ReplacementReads(listen);
    var Span(cs, ce) := ChildSpan(w);
    assert Relisten(w, listen)[cs..cs + |Replacement(listen)|] == Replacement(listen);
  }

  lemma NoChild(w: string, listen: string)
    requires ChildSpan(w).NoSpan?
    ensures Relisten(w, listen) == w && ChildAddress(w) == ""
  {
  }

  /** The readers, on a document around its tag. */
  lemma Readers(d: string, s: nat, t: string, z: string)
    requires s <= |d| && OpenTag(d[..s] + t + z) == Span(s, s + |t|)
    ensures var out := d[..s] + t + z; var addr := if SelfClosing(t) then "" else ChildAddress(z);
      && GraphicsInfo(out)
         == Info(true, AttrText(t, "passwd") != "", if addr != "" then addr else AttrText(t, "listen"))
      && GraphicsPort(out) == Port(PortNumber(AttrText(t, "port")), AttrText(t, "autoport") != "no")
  {
    hide OpenTag, SelfClosing, AttrText, ChildSpan, Atoi;
    Around(d, s, t, z);
  }

  /** On any text with a console, whatever its quotes and spacing and wherever the address is held: after
      setGraphicsListenXML the readers return what was written, when the new tag is still a VNC tag. */
  lemma WriteThenRead(d: string, listen: string, port: Int)
    requires OpenTag(d).Span? && AddressOk(listen)
    requires IsVncTag(ListenTag(d[OpenTag(d).start..OpenTag(d).end], listen, port))
    ensures var r := SetListenXML(d, listen, port);
      && r.Ok? && GraphicsInfo(r.value).found && GraphicsInfo(r.value).listen == listen
      && GraphicsPort(r.value) == if port > 0 then Port(port, false) else Port(0, true)
  {
    hide OpenTag, ListenTag, TagShape, IsVncTag, SetListenXML, GraphicsInfo, GraphicsPort, SelfClosing, AttrText;
    hide PortNumber, Relisten, ChildSpan, ChildAddress;
    StartInside(d);
    var Span(s, e) := OpenTag(d);
    var t := ListenTag(d[s..e], listen, port);
    ListenFrame(d, listen, port);
    ListenTagReads(d[s..e], listen, port);
    Readers(d, s, t, Behind(t, d[e..], listen));
    if ChildSpan(d[e..]).Span? { RelistenReads(d[e..], listen); } else { NoChild(d[e..], listen); }
  }

  /** Likewise a password reads back, from any text with a console. */
  lemma PasswordThenRead(d: string, pw: string)
    requires OpenTag(d).Span? && ValueOk(pw) && pw != ""
    requires IsVncTag(PasswordTag(d[OpenTag(d).start..OpenTag(d).end], pw))
    ensures var r := SetPasswordXML(d, pw);
      && r.Ok? && GraphicsInfo(r.value).found && GraphicsInfo(r.value).hasPassword
      && var Span(s, e) := OpenTag(r.value); AttrText(r.value[s..e], "passwd") == pw
  {
    hide OpenTag, PasswordTag, TagShape, IsVncTag, SetPasswordXML, GraphicsInfo, GraphicsPort, SelfClosing, AttrText;
    hide ChildAddress;
    StartInside(d);
    var Span(s, e) := OpenTag(d);
    var t := PasswordTag(d[s..e], pw);
    PasswordFrame(d, pw);
    PasswordTagReads(d[s..e], pw);
    Readers(d, s, t, d[e..]);
    Around(d, s, t, d[e..]);
  }

  lemma PasswordTagReads(tag: string, pw: string)
    requires TagShape(GRAPHICS, tag) && ValueOk(pw) && pw != ""
    ensures AttrText(PasswordTag(tag, pw), "passwd") == pw
  {
    PasswordTagText(tag, pw);
    hide AttrText, PasswordTag, DropText, TagShape, Body;
    Names();
    WholeSuffix("passwd");
    var a := Attr("passwd", pw);
    assert [] + [a] + [] == [a];
    TagReads([], a, [], Tail(DropText(tag, "passwd")), "passwd");
  }

  // ---------- last writer wins ----------

  /** No occurrence of ` name=` and a quote starts in the head. */
  lemma DropBehindHead(r: string, name: string)
    ensures DropText(GRAPHICS + r, name) == GRAPHICS + DropText(r, name)
  {
    hide CutQ;
    GraphicsHead();
    forall q: char, j {:trigger At(GRAPHICS + r, j, Key(" " + name, q))} | 0 <= j < |GRAPHICS|
      ensures !At(GRAPHICS + r, j, Key(" " + name, q))
    {
      assert Key(" " + name, q)[0] == ' ' && (GRAPHICS + r)[j + 0] == GRAPHICS[j] != ' ';
    }
    CutBehind(GRAPHICS, r, Key(" " + name, '\''), '\'');
    CutBehind(GRAPHICS, r, Key(" " + name, '"'), '"');
    Pieces(GRAPHICS, CutQ(r, Key(" " + name, '\''), '\''));
    Pieces(GRAPHICS, CutQ(r, Key(" " + name, '"'), '"'));
  }

  lemma Pieces(u: string, c: Cut)
    ensures c.Cut? ==> AttrList.Behind(u, c) == Cut(u + c.before, c.value, c.after)
                       && u + c.before + c.after == u + (c.before + c.after)
    ensures c.Missing? ==> AttrList.Behind(u, c) == Missing
  {
  }

  /** Dropping an attribute from behind another one that does not hold it. */
  lemma DropBehindAttr(a: Attr, r: string, name: string)
    requires NameOk(a.name) && ValueOk(a.value) && NameOk(name)
    requires a.name != name && !EndsWith(a.value, " " + name + "=")
    ensures DropText(Chunk(a) + r, name) == Chunk(a) + DropText(r, name)
  {
    hide CutQ, Chunk, EndsWith;
    DropPast(a, r, name);
    DoublePast(a, r, " " + name);
    CutBehind(Chunk(a), r, Key(" " + name, '"'), '"');
    Pieces(Chunk(a), CutQ(r, Key(" " + name, '"'), '"'));
  }

  /** No occurrence of a double-quoted key starts in a single-quoted attribute. */
  lemma DoublePast(a: Attr, r: string, k: string)
    requires NameOk(a.name) && ValueOk(a.value) && forall i :: 0 <= i < |k| ==> k[i] != '\''
    ensures forall j {:trigger At(Chunk(a) + r, j, Key(k, '"'))} ::
              0 <= j < |Chunk(a)| ==> !At(Chunk(a) + r, j, Key(k, '"'))
  {
    var c, s, p := Chunk(a), Chunk(a) + r, Key(k, '"');
    assert forall i :: 0 <= i < |p| ==> p[i] != '\'';
    forall j | 0 <= j < |c|
      ensures !At(s, j, p)
    {
      var e := |c| - 1;
      assert s[e] == '\'';
      if e - j < |p| {
        assert s[j + (e - j)] != p[e - j];
      } else {
        DoubleFree(a, r, j + |k| + 1);
        assert s[j + (|k| + 1)] != p[|k| + 1];
      }
    }
  }

  lemma DoubleFree(a: Attr, r: string, x: nat)
    requires NameOk(a.name) && ValueOk(a.value) && x < |Chunk(a)|
    ensures (Chunk(a) + r)[x] != '"'
  {
    if x < |Chunk(a)| - 1 && x != |a.name| + 2 { ChunkQuotes(a, r, x); }
  }

  /** Dropping the attribute that stands in front. */
  lemma DropFront(a: Attr, r: string)
    requires NameOk(a.name) && ValueOk(a.value)
    ensures DropText(Chunk(a) + r, a.name) == r
  {
    DropName(a, r);
  }

  lemma YesAndNo()
    ensures ValueOk("yes") && ValueOk("no") && !EndsWith("yes", " " + "port" + "=") && NameOk("autoport")
  {
    assert "yes" == ['y', 'e', 's'] && "no" == ['n', 'o'];
    NotSuffix("yes", " " + "port" + "=");
    Names();
  }

  /** The drops of a second listen edit remove exactly what the first one wrote, but for a port that the
      first one left standing. */
  lemma StrippedAgain(tag: string, listen: string, port: Int)
    requires TagShape(GRAPHICS, tag) && ValueOk(listen)
    ensures StrippedText(ListenTag(tag, listen, port))
            == if port > 0 then StrippedText(tag) else DropText(StrippedText(tag), "port")
  {
    hide TagShape, DropText, Chunk, ListenTag, EndsWith, NameOk, ValueOk;
    ListenTagText(tag, listen, port);
    Names();
    YesAndNo();
    HeadAndTail(StrippedText(tag));
    var r := Tail(StrippedText(tag));
    var l, n, y := Attr("listen", listen), Attr("autoport", "no"), Attr("autoport", "yes");
    if port > 0 {
      ItoaPlain(port);
      var p := Attr("port", Itoa(port));
      FixedBody(l, p, n, r);
      DropBehindHead(Chunk(l) + (Chunk(p) + (Chunk(n) + r)), "listen");
      DropFront(l, Chunk(p) + (Chunk(n) + r));
      DropBehindHead(Chunk(p) + (Chunk(n) + r), "port");
      DropFront(p, Chunk(n) + r);
      DropBehindHead(Chunk(n) + r, "autoport");
      DropFront(n, r);
    } else {
      AutoBody(l, y, r);
      DropBehindHead(Chunk(l) + (Chunk(y) + r), "listen");
      DropFront(l, Chunk(y) + r);
      DropBehindHead(Chunk(y) + r, "port");
      DropBehindAttr(y, r, "port");
      DropBehindHead(Chunk(y) + DropText(r, "port"), "autoport");
      DropFront(y, DropText(r, "port"));
      DropBehindHead(r, "port");
    }
  }

  lemma ItoaPlain(n: nat)
    ensures ValueOk(Itoa(n))
  {
    ItoaDigits(n);
  }

  lemma FixedBody(l: Attr, p: Attr, n: Attr, r: string)
    ensures Body([l, p, n], r) == Chunk(l) + (Chunk(p) + (Chunk(n) + r))
  {
    hide Chunk;
    BodyCons(l, [p, n], r);
    BodyCons(p, [n], r);
    BodyCons(n, [], r);
    assert [l] + [p, n] == [l, p, n] && [p] + [n] == [p, n] && [n] + [] == [n];
  }

  lemma AutoBody(l: Attr, y: Attr, r: string)
    ensures Body([l, y], r) == Chunk(l) + (Chunk(y) + r)
  {
    hide Chunk;
    BodyCons(l, [y], r);
    BodyCons(y, [], r);
    assert [l] + [y] == [l, y] && [y] + [] == [y];
  }

  /** On any tag: a second listen edit gives the same tag as it gives without the first one if and only if
      the first one fixed a port or left none standing (a port written in both quotes, or twice). */
  lemma ListenTagTwiceIff(tag: string, l1: string, p1: Int, l2: string, p2: Int)
    requires TagShape(GRAPHICS, tag) && ValueOk(l1)
    ensures TagShape(GRAPHICS, ListenTag(tag, l1, p1))
    ensures ListenTag(ListenTag(tag, l1, p1), l2, p2) == ListenTag(tag, l2, p2)
            <==> p1 > 0 || DropText(StrippedText(tag), "port") == StrippedText(tag)
  {
    ShapeAt(tag);
    hide TagShape, DropText, ListenTag, Body, StrippedText;
    ListenTagShape(tag, l1, p1);
    ShapeAt(ListenTag(tag, l1, p1));
    StrippedAgain(tag, l1, p1);
    ListenTagText(tag, l2, p2);
    ListenTagText(ListenTag(tag, l1, p1), l2, p2);
    var x, y := StrippedText(ListenTag(tag, l1, p1)), StrippedText(tag);
    HeadAndTail(x);
    HeadAndTail(y);
    SameBehind(ListenList(l2, p2), Tail(x), Tail(y));
  }

  lemma ShapeAt(t: string)
    requires TagShape(GRAPHICS, t)
    ensures At(t, 0, GRAPHICS)
  {
  }

  lemma SameBehind(x: seq<Attr>, r: string, z: string)
    ensures GRAPHICS + Body(x, r) == GRAPHICS + Body(x, z) <==> r == z
  {
    SameBody(x, r, z);
    SameTail(GRAPHICS, Body(x, r), Body(x, z));
  }

  lemma {:induction false} SameBody(x: seq<Attr>, r: string, z: string)
    ensures Body(x, r) == Body(x, z) <==> r == z
  {
    if x != [] {
      SameBody(x[1..], r, z);
      SameTail(Chunk(x[0]), Body(x[1..], r), Body(x[1..], z));
    }
  }

  lemma SameTail(u: string, r: string, z: string)
    ensures u + r == u + z <==> r == z
  {
    assert (u + r)[|u|..] == r && (u + z)[|u|..] == z;
  }

  /** A tag ends the same whatever is put in front. */
  lemma SelfClosingRest(u: string, r: string)
    requires u != "" && u[0] == '<' && u[|u| - 1] == '\'' && r != "" && r[|r| - 1] == '>'
    ensures SelfClosing(u + r) <==> 2 <= |r| && r[|r| - 2] == '/'
  {
    hide TrimSpace;
    var t := u + r;
    TrimNothing(t);
    var tail := "/>";
    assert tail == ['/', '>'];
    assert t[|t| - 2..] == [t[|t| - 2], t[|t| - 1]];
  }

  lemma ListNotEmpty(listen: string, port: Int)
    ensures ListenList(listen, port) != []
  {
  }

  lemma EndingOf(tag: string, listen: string, port: Int)
    requires TagShape(GRAPHICS, tag)
    ensures At(tag, 0, GRAPHICS) && TagShape(GRAPHICS, StrippedText(tag))
    ensures var r := Tail(StrippedText(tag));
      SelfClosing(ListenTag(tag, listen, port)) <==> 2 <= |r| && r[|r| - 2] == '/'
  {
    hide *;
    ShapeAt(tag);
    ListenTagText(tag, listen, port);
    var s := StrippedText(tag);
    HeadAndTail(s);
    ListNotEmpty(listen, port);
    var u, r := GRAPHICS + Body(ListenList(listen, port), ""), Tail(s);
    FrontEnds(ListenList(listen, port), r);
    assert |s| == |GRAPHICS| + |r| && r != "";
    SelfClosingRest(u, r);
  }

  lemma SameEnding(tag: string, l1: string, p1: Int, l2: string, p2: Int)
    requires TagShape(GRAPHICS, tag) && ListenTag(ListenTag(tag, l1, p1), l2, p2) == ListenTag(tag, l2, p2)
    ensures SelfClosing(ListenTag(tag, l1, p1)) <==> SelfClosing(ListenTag(tag, l2, p2))
  {
    hide *;
    EndingOf(tag, l1, p1);
    EndingOf(tag, l2, p2);
  }

  lemma FrontEnds(x: seq<Attr>, r: string)
    requires x != []
    ensures var u := GRAPHICS + Body(x, "");
      u != "" && u[0] == '<' && u[|u| - 1] == '\'' && u + r == GRAPHICS + Body(x, r)
  {
    GraphicsHead();
    assert GRAPHICS[0] == '<';
    hide *;
    BodyFront(x, r);
    FrontOf(GRAPHICS, Body(x, ""), r);
  }

  lemma FrontOf(h: string, b: string, r: string)
    requires h != "" && h[0] == '<' && b != "" && b[|b| - 1] == '\''
    ensures var u := h + b; u[0] == '<' && u[|u| - 1] == '\'' && u + r == h + (b + r)
  {
  }

  lemma {:induction false} BodyFront(x: seq<Attr>, r: string)
    ensures Body(x, r) == Body(x, "") + r
    ensures x != [] ==> Body(x, "") != "" && Body(x, "")[|Body(x, "")| - 1] == '\''
  {
    hide Chunk;
    if x != [] {
      BodyFront(x[1..], r);
      LastQuote(x[0]);
      var c, b := Chunk(x[0]), Body(x[1..], "");
      assert c + b + r == c + (b + r);
    }
  }

  // ---------- the marker behind the new attributes ----------

  lemma {:induction false} MarkerBehindList(x: seq<Attr>, r: string)
    requires Shaped(x) && forall i :: 0 <= i < |x| ==> Silent(x[i], "type")
    ensures Contains(Body(x, r), TYPE_VNC) <==> Contains(r, TYPE_VNC)
    ensures Contains(Body(x, r), "type=\"vnc\"") <==> Contains(r, "type=\"vnc\"")
  {
    hide At, IndexFrom, Chunk, Silent, NameOk, ValueOk;
    if x != [] {
      MarkerBehindList(x[1..], r);
      MarkerBehindAttr(x[0], Body(x[1..], r));
    }
  }

  lemma MarkerBehindAttr(a: Attr, r: string)
    requires NameOk(a.name) && ValueOk(a.value) && Silent(a, "type")
    ensures Contains(Chunk(a) + r, TYPE_VNC) <==> Contains(r, TYPE_VNC)
    ensures Contains(Chunk(a) + r, "type=\"vnc\"") <==> Contains(r, "type=\"vnc\"")
  {
    hide IndexFrom, Chunk, EndsWith;
    TypeName();
    var s := Chunk(a) + r;
    forall j | 0 <= j < |Chunk(a)|
      ensures !At(s, j, TYPE_VNC)
    {
      if At(s, j, TYPE_VNC) {
        MarkerChars(s, j);
        ChunkOccurrence(a, r, "type", j);
        SpaceSuffix(a.name, "type");
      }
    }
    IndexSkip(Chunk(a), r, TYPE_VNC);
    DoublePast(a, r, "type");
    forall j | 0 <= j < |Chunk(a)|
      ensures !At(s, j, "type=\"vnc\"")
    {
      if At(s, j, "type=\"vnc\"") { DoubleChars(s, j); }
    }
    IndexSkip(Chunk(a), r, "type=\"vnc\"");
  }

  lemma DoubleChars(s: string, j: nat)
    requires At(s, j, "type=\"vnc\"")
    ensures At(s, j, Key("type", '"'))
  {
    var m := "type=\"vnc\"";
    assert m == ['t', 'y', 'p', 'e', '=', '"', 'v', 'n', 'c', '"'];
    forall k | 0 <= k < 6 ensures s[j + k] == Key("type", '"')[k] { assert s[j + k] == m[k]; }
  }

  /** What the listen edit writes is no marker: the new tag is a VNC tag exactly when what the drops left is. */
  lemma ListenMarker(tag: string, listen: string, port: Int)
    requires TagShape(GRAPHICS, tag) && AddressOk(listen)
    ensures IsVncTag(ListenTag(tag, listen, port)) <==> IsVncTag(StrippedText(tag))
  {
    hide TagShape, ListenTag, StrippedText, Body, Contains;
    ListenTagText(tag, listen, port);
    HeadAndTail(StrippedText(tag));
    ListenListShaped(listen, port);
    ListenSilent(listen, port);
    var r := Tail(StrippedText(tag));
    MarkerBehindList(ListenList(listen, port), r);
    MarkerBehindHead(Body(ListenList(listen, port), r));
    MarkerBehindHead(r);
  }

  lemma OwnSilent(v: string)
    requires v == "" || v[|v| - 1] != '='
    ensures Silent(Attr("listen", v), "type") && Silent(Attr("port", v), "type") && Silent(Attr("autoport", v), "type")
  {
    NotSuffix("listen", "type"); NotSuffix("port", "type"); NotSuffix("autoport", "type");
    NotSuffix(v, "type" + "=");
  }

  lemma ListenSilent(listen: string, port: Int)
    requires AddressOk(listen)
    ensures forall i :: 0 <= i < |ListenList(listen, port)| ==> Silent(ListenList(listen, port)[i], "type")
  {
    hide Silent, Itoa;
    OwnSilent(listen); OwnSilent("yes"); OwnSilent("no");
    if port > 0 {
      ItoaDigits(port);
      OwnSilent(Itoa(port));
    }
  }

  lemma MarkerBehindHead(r: string)
    ensures IsVncTag(GRAPHICS + r) <==> Contains(r, TYPE_VNC) || Contains(r, "type=\"vnc\"")
  {
    hide IndexFrom;
    GraphicsHead();
    NoTInHead(r, TYPE_VNC);
    NoTInHead(r, "type=\"vnc\"");
    IndexSkip(GRAPHICS, r, TYPE_VNC);
    IndexSkip(GRAPHICS, r, "type=\"vnc\"");
  }

  lemma NoTInHead(r: string, pat: string)
    requires pat == TYPE_VNC || pat == "type=\"vnc\""
    ensures forall j {:trigger At(GRAPHICS + r, j, pat)} :: 0 <= j < |GRAPHICS| ==> !At(GRAPHICS + r, j, pat)
  {
    assert pat[0] == 't';
    assert GRAPHICS == ['<', 'g', 'r', 'a', 'p', 'h', 'i', 'c', 's'];
    forall j | 0 <= j < |GRAPHICS| ensures !At(GRAPHICS + r, j, pat) { assert (GRAPHICS + r)[j + 0] == GRAPHICS[j]; }
  }

  lemma RelistenTwice(w: string, l1: string, l2: string)
    requires AddressOk(l1)
    ensures Relisten(Relisten(w, l1), l2) == Relisten(w, l2)
  {
    hide ChildSpan, Replacement;
    if ChildSpan(w).Span? {
      RelistenChild(w, l1);
      var Span(cs, ce) := ChildSpan(w);
      var v := Relisten(w, l1);
      assert v[..cs] == w[..cs] && v[cs + |Replacement(l1)|..] == w[ce..];
    }
  }

  /** Replacing the child leaves everything up to the end of the rewritten tag. */
  lemma ReplaceKeepsFront(d: string, t: string, z: string, listen: string)
    requires OpenTag(d).Span? && TagShape(GRAPHICS, t)
    ensures var s := OpenTag(d).start;
            s <= |d| && var out := ReplaceListenChild(d[..s] + t + z, listen);
            s + |t| <= |out| && out[..s + |t|] == d[..s] + t
  {
    hide OpenTag, TagShape, IsVncTag, ListenChild, Replacement, Index;
    StartInside(d);
    var s := OpenTag(d).start;
    var out := d[..s] + t + z;
    Around(d, s, t, z);
    if IsVncTag(t) { SameStartIff(d, t, z); } else { SearchGoesOn(d, t, z); }
    StartInside(out);
  }

  /** So the tag a listen edit writes can be read off the document. */
  lemma ListenWritesTag(d: string, listen: string, port: Int)
    requires OpenTag(d).Span? && ValueOk(listen)
    ensures var Span(s, e) := OpenTag(d); var t := ListenTag(d[s..e], listen, port);
      && SetListenXML(d, listen, port).Ok? && TagShape(GRAPHICS, t)
      && var out := SetListenXML(d, listen, port).value;
      && s + |t| <= |out| && out[..s] == d[..s] && out[s..s + |t|] == t
  {
    hide OpenTag, ListenTag, TagShape, IsVncTag, ReplaceListenChild;
    StartInside(d);
    var Span(s, e) := OpenTag(d);
    ListenTagShape(d[s..e], listen, port);
    var t := ListenTag(d[s..e], listen, port);
    ReplaceKeepsFront(d, t, d[e..], listen);
    var out := SetListenXML(d, listen, port).value;
    assert out[..s + |t|][..s] == d[..s] && out[..s + |t|][s..] == t;
  }

  lemma ListenTwiceSame(d: string, l1: string, p1: Int, l2: string, p2: Int)
    requires OpenTag(d).Span? && AddressOk(l1) && AddressOk(l2)
    requires var tag := d[OpenTag(d).start..OpenTag(d).end];
      IsVncTag(ListenTag(tag, l1, p1)) && (p1 > 0 || DropText(StrippedText(tag), "port") == StrippedText(tag))
    ensures var once := SetListenXML(d, l1, p1);
      once.Ok? && SetListenXML(once.value, l2, p2) == SetListenXML(d, l2, p2)
  {
    hide OpenTag, TagShape, ListenTag, IsVncTag, SetListenXML, StrippedText, DropText, SelfClosing, Relisten;
    StartInside(d);
    var Span(s, e) := OpenTag(d);
    var tag, z := d[s..e], d[e..];
    var t1, t2 := ListenTag(tag, l1, p1), ListenTag(tag, l2, p2);
    ListenFrame(d, l1, p1);
    var z1 := Behind(t1, z, l1);
    var d1 := d[..s] + t1 + z1;
    ListenTagTwiceIff(tag, l1, p1, l2, p2);
    SameEnding(tag, l1, p1, l2, p2);
    ListenMarker(tag, l1, p1);
    ListenMarker(tag, l2, p2);
    Around(d, s, t1, z1);
    ListenFrame(d1, l2, p2);
    ListenFrame(d, l2, p2);
    RelistenTwice(z, l1, l2);
  }

  /** On any text with a console that stays one: a later listen edit overwrites an earlier one completely,
      as text, exactly when the earlier one fixed a port or left none standing. */
  lemma ListenLastWinsIff(d: string, l1: string, p1: Int, l2: string, p2: Int)
    requires OpenTag(d).Span? && AddressOk(l1) && AddressOk(l2)
    requires IsVncTag(ListenTag(d[OpenTag(d).start..OpenTag(d).end], l1, p1))
    ensures var once := SetListenXML(d, l1, p1); var tag := d[OpenTag(d).start..OpenTag(d).end];
      once.Ok? && (SetListenXML(once.value, l2, p2) == SetListenXML(d, l2, p2)
                   <==> p1 > 0 || DropText(StrippedText(tag), "port") == StrippedText(tag))
  {
    hide OpenTag, TagShape, ListenTag, IsVncTag, SetListenXML, StrippedText, DropText, SelfClosing, Relisten;
    StartInside(d);
    var Span(s, e) := OpenTag(d);
    var tag := d[s..e];
    var t1 := ListenTag(tag, l1, p1);
    ListenFrame(d, l1, p1);
    var d1 := d[..s] + t1 + Behind(t1, d[e..], l1);
    Around(d, s, t1, Behind(t1, d[e..], l1));
    assert SetListenXML(d, l1, p1) == Ok(d1) && OpenTag(d1) == Span(s, s + |t1|) && d1[s..s + |t1|] == t1;
    ListenTagShape(tag, l1, p1);
    ShapeAt(t1);
    if SetListenXML(d1, l2, p2) == SetListenXML(d, l2, p2) {
      ListenWritesTag(d, l2, p2);
      ListenWritesTag(d1, l2, p2);
      var out, t2, t3 := SetListenXML(d, l2, p2).value, ListenTag(tag, l2, p2), ListenTag(t1, l2, p2);
      HeadAndTail(t2);
      assert out[s..s + |t3|] == t3 && out[s..s + |t2|] == t2;
      SameTag(out, s, s + |t2|, t3);
      ListenTagTwiceIff(tag, l1, p1, l2, p2);
    } else if p1 > 0 || DropText(StrippedText(tag), "port") == StrippedText(tag) {
      ListenTwiceSame(d, l1, p1, l2, p2);
    }
  }

  lemma PasswordDropAgain(tag: string, pw: string)
    requires TagShape(GRAPHICS, tag) && ValueOk(pw)
    ensures DropText(PasswordTag(tag, pw), "passwd")
            == if pw != "" then DropText(tag, "passwd") else DropText(DropText(tag, "passwd"), "passwd")
  {
    hide TagShape, DropText, PasswordTag, Chunk;
    PasswordTagText(tag, pw);
    HeadAndTail(DropText(tag, "passwd"));
    var r := Tail(DropText(tag, "passwd"));
    Names();
    if pw != "" {
      var a := Attr("passwd", pw);
      BodyCons(a, [], r);
      assert [a] + [] == PasswordList(pw);
      DropBehindHead(Chunk(a) + r, "passwd");
      DropFront(a, r);
    }
  }

  /** On any text with a console that stays one: a later password edit overwrites an earlier one completely,
      as text, exactly when the earlier one set a password or cleared the last one. */
  lemma PasswordLastWinsIff(d: string, pw1: string, pw2: string)
    requires OpenTag(d).Span? && ValueOk(pw1) && ValueOk(pw2)
    requires IsVncTag(PasswordTag(d[OpenTag(d).start..OpenTag(d).end], pw1))
    ensures var once := SetPasswordXML(d, pw1); var cleared := DropText(d[OpenTag(d).start..OpenTag(d).end], "passwd");
      once.Ok? && (SetPasswordXML(once.value, pw2) == SetPasswordXML(d, pw2)
                   <==> pw1 != "" || DropText(cleared, "passwd") == cleared)
  {
    hide OpenTag, TagShape, IsVncTag, DropText, PasswordTag;
    StartInside(d);
    var Span(s, e) := OpenTag(d);
    var tag, z := d[s..e], d[e..];
    PasswordFrame(d, pw1);
    var t1 := PasswordTag(tag, pw1);
    Around(d, s, t1, z);
    var d1 := d[..s] + t1 + z;
    PasswordTagShape(tag, pw1);
    ShapeAt(t1);
    PasswordTwiceIff(tag, pw1, pw2);
    var t2, t3 := PasswordTag(tag, pw2), PasswordTag(t1, pw2);
    SameMiddle(d[..s], t2, t3, z);
    assert SetPasswordXML(d1, pw2) == Ok(d[..s] + t3 + z);
  }

  lemma SameMiddle(u: string, x: string, y: string, z: string)
    ensures u + x + z == u + y + z <==> x == y
  {
    if u + x + z == u + y + z {
      assert |x| == |y|;
      assert (u + x + z)[|u|..|u| + |x|] == x && (u + y + z)[|u|..|u| + |y|] == y;
    }
  }

  lemma PasswordTwiceIff(tag: string, pw1: string, pw2: string)
    requires TagShape(GRAPHICS, tag) && ValueOk(pw1) && ValueOk(pw2)
    ensures TagShape(GRAPHICS, PasswordTag(tag, pw1))
    ensures var cleared := DropText(tag, "passwd");
      PasswordTag(PasswordTag(tag, pw1), pw2) == PasswordTag(tag, pw2)
      <==> pw1 != "" || DropText(cleared, "passwd") == cleared
  {
    ShapeAt(tag);
    hide TagShape, DropText, PasswordTag, Body;
    PasswordTagShape(tag, pw1);
    PasswordDropAgain(tag, pw1);
    ShapeAt(PasswordTag(tag, pw1));
    PasswordTagText(tag, pw2);
    PasswordTagText(PasswordTag(tag, pw1), pw2);
    var x, y := DropText(PasswordTag(tag, pw1), "passwd"), DropText(tag, "passwd");
    HeadAndTail(x);
    HeadAndTail(y);
    SameBehind(PasswordList(pw2), Tail(x), Tail(y));
  }
}
