/**
 Finding the VNC console: which attribute lists vncOpenTag recognises, and why its search depends
 only on the text up to the end of the tag it finds.
*/
module VncMarker {
  import opened GoStrings
  import opened AttrList
  import opened VncXml

  // ---------- the VNC marker ----------

  const TYPE_VNC := "type='vnc'"

  predicate IsMarker(a: Attr) {
    EndsWith(a.name, "type") && a.value == "vnc"
  }

  /** A tag carries the marker vncOpenTag looks for. */
  predicate Marked(attrs: seq<Attr>) {
    exists i :: 0 <= i < |attrs| && IsMarker(attrs[i])
  }

  lemma MarkerChunk(a: Attr, r: string)
    requires NameOk(a.name) && ValueOk(a.value) && IsMarker(a)
    ensures At(Chunk(a) + r, |a.name| - 3, TYPE_VNC)
  {
    TypeName();
    SpaceSuffix(a.name, "type");
    NameHit(a, r, "type");
    var s, i := Chunk(a) + r, |a.name| - 3;
    forall k | 0 <= k < 10 ensures s[i + k] == TYPE_VNC[k] {
      if k < 6 { assert TYPE_VNC[k] == Key("type", '\'')[k]; }
      else { assert s[i + k] == (a.value + "'")[k - 6]; }
    }
  }

  lemma MarkerChars(s: string, j: nat)
    requires At(s, j, TYPE_VNC)
    ensures At(s, j, Key("type", '\''))
    ensures s[j + 6] == 'v' && s[j + 7] == 'n' && s[j + 8] == 'c' && s[j + 9] == '\''
  {
    forall k | 0 <= k < 6 ensures s[j + k] == Key("type", '\'')[k] { assert s[j + k] == TYPE_VNC[k]; }
    assert TYPE_VNC[6] == 'v' && TYPE_VNC[7] == 'n' && TYPE_VNC[8] == 'c' && TYPE_VNC[9] == '\'';
  }

  lemma TypeName()
    ensures NameOk("type")
  {
    assert "type" == ['t', 'y', 'p', 'e'];
  }

  lemma MarkerInChunk(a: Attr, attrs: seq<Attr>, tail: string, j: nat)
    requires NameOk(a.name) && ValueOk(a.value) && Shaped(attrs) && TailOk(tail)
    requires j < |Chunk(a)| && At(Chunk(a) + Body(attrs, tail), j, TYPE_VNC)
    ensures IsMarker(a)
  {
    var r := Body(attrs, tail);
    var s, c := Chunk(a) + r, Chunk(a);
    MarkerChars(s, j);
    TypeName();
    ChunkOccurrence(a, r, "type", j);
    SpaceSuffix(a.name, "type");
    assert attrs == [] ==> forall x :: |c| <= x < |s| ==> s[x] == tail[x - |c|];
    assert attrs != [] ==> s[|c|] == ' ';
    if j + 5 == |a.name| + 2 {
      assert forall x :: 0 <= x < |a.value| ==> s[j + 6 + x] == a.value[x];
      assert s[j + 6 + |a.value|] == '\'';
      assert |a.value| == 3;
    }
  }

  lemma {:induction false} MarkerBody(attrs: seq<Attr>, tail: string)
    requires Shaped(attrs) && TailOk(tail)
    ensures Contains(Body(attrs, tail), TYPE_VNC) <==> Marked(attrs)
  {
    var s := Body(attrs, tail);
    if attrs == [] {
      assert TYPE_VNC[5] == '\'';
      AbsentChar(tail, TYPE_VNC, 5);
    } else {
      var a, rest := attrs[0], attrs[1..];
      var r := Body(rest, tail);
      MarkerBody(rest, tail);
      MarkedFirst(attrs);
      hide IsMarker, IndexFrom, At, Body;
      assert s == Chunk(a) + r by { BodyCons(a, rest, tail); assert [a] + rest == attrs; }
      if IsMarker(a) { MarkerChunk(a, r); }
      else if Marked(rest) { AtShift(Chunk(a), r, TYPE_VNC, Index(r, TYPE_VNC)); }
      var j := Index(s, TYPE_VNC);
      if 0 <= j < |Chunk(a)| { MarkerInChunk(a, rest, tail, j); }
      else if j >= 0 { AtShift(Chunk(a), r, TYPE_VNC, j - |Chunk(a)|); }
    }
  }

  lemma MarkedFirst(attrs: seq<Attr>)
    requires attrs != []
    ensures Marked(attrs) <==> IsMarker(attrs[0]) || Marked(attrs[1..])
  {
    hide IsMarker;
    if i :| 0 <= i < |attrs[1..]| && IsMarker(attrs[1..][i]) { assert IsMarker(attrs[i + 1]); }
    if i :| 0 <= i < |attrs| && IsMarker(attrs[i]) { assert i > 0 ==> IsMarker(attrs[1..][i - 1]); }
  }

  /** vncOpenTag's test on a rendered tag, in terms of its attributes. */
  lemma MarkerIff(attrs: seq<Attr>, tail: string)
    requires Shaped(attrs) && TailOk(tail)
    ensures IsVncTag(Tag(GRAPHICS, attrs, tail)) <==> Marked(attrs)
  {
    var t, b := Tag(GRAPHICS, attrs, tail), Body(attrs, tail);
    MarkerBody(attrs, tail);
    TypeName();
    GraphicsHead();
    HeadSkips(GRAPHICS, attrs, tail, "type");
    forall j | 0 <= j < |GRAPHICS|
      ensures !At(t, j, TYPE_VNC)
    {
      if At(t, j, TYPE_VNC) {
        assert At(t, j, Key("type", '\'')) by {
          forall k | 0 <= k < 6 ensures t[j + k] == Key("type", '\'')[k] { assert t[j + k] == TYPE_VNC[k]; }
        }
      }
    }
    IndexSkip(GRAPHICS, b, TYPE_VNC);
    NoDoubleQuote(attrs, tail);
    var other := "type=\"vnc\"";
    assert other[5] == '"';
    AbsentChar(t, other, 5);
  }

  // ---------- locality of the search ----------

  lemma TagHere(head: string, test: string -> bool, d: string, off: nat, s: nat)
    requires HeadOk(head) && off <= s <= |d| && IndexFrom(d, head, off) == s
    ensures TagFrom(head, test, d, off) == TagFrom(head, test, d, s)
  {
    Here(d, head, s);
    hide IndexFrom, CharFrom, HeadOk, At;
  }

  lemma Here(d: string, head: string, s: nat)
    requires s <= |d| && At(d, s, head)
    ensures IndexFrom(d, head, s) == s
  {
  }

  lemma TagPast(head: string, test: string -> bool, d: string, off: nat, abs: nat, gt: nat)
    requires HeadOk(head) && off <= abs <= |d| && IndexFrom(d, head, off) == abs
    requires gt < |d| && CharFrom(d, '>', abs) == gt && !test(d[abs..gt + 1])
    ensures TagFrom(head, test, d, off) == TagFrom(head, test, d, gt + 1)
  {
    hide IndexFrom, CharFrom, HeadOk, At;
  }

  lemma HeadStarts(head: string)
    requires HeadOk(head)
    ensures 0 < |head| && head[0] == '<' && forall k :: 1 <= k < |head| ==> head[k] != '<'
  {
  }

  /** The search reaches the same tag whatever stands behind that tag's head. */
  lemma {:induction false} TagReach(head: string, test: string -> bool, d: string, d2: string, off: nat, s: nat, e: nat)
    requires HeadOk(head) && off <= |d| && TagFrom(head, test, d, off) == Span(s, e)
    requires s <= |d2| && d2[..s] == d[..s] && At(d, s, head) && At(d2, s, head)
    ensures TagFrom(head, test, d2, off) == TagFrom(head, test, d2, s)
    decreases |d| - off
  {
    hide IndexFrom, At, CharFrom, TagFrom;
    TagUnfold(head, test, d, off, s, e);
    HeadStarts(head);
    SameFirst(d, d2, off, s, head);
    hide HeadOk;
    var abs := IndexFrom(d, head, off);
    if abs == s {
      TagHere(head, test, d2, off, s);
    } else {
      var gt := CharFrom(d, '>', abs);
      SameClose(d, d2, s, abs);
      TagReach(head, test, d, d2, gt + 1, s, e);
      TagPast(head, test, d2, off, abs, gt);
    }
  }

  /** The search for a tag depends only on the text up to the end of the tag itself. */
  lemma TagLocal(head: string, test: string -> bool, d: string, d2: string, s: nat, e: nat, t: string)
    requires HeadOk(head) && TagFrom(head, test, d, 0) == Span(s, e) && TagShape(head, t) && test(t)
    requires s + |t| <= |d2| && d2[..s] == d[..s] && d2[s..s + |t|] == t
    ensures TagFrom(head, test, d2, 0) == Span(s, s + |t|)
  {
    hide IndexFrom, At, CharFrom, TagFrom, HeadOk;
    TagFound(head, test, d, 0);
    AtSlice(d, s, e, head);
    AtSlice(d2, s, s + |t|, head);
    TagReach(head, test, d, d2, 0, s, e);
    OwnClose(head, d2, s, t);
    hide TagShape;
    var gt := s + |t| - 1;
    assert d2[s..gt + 1] == t;
    TagIs(head, test, d2, s, gt);
  }

  lemma TagIs(head: string, test: string -> bool, d: string, s: nat, gt: nat)
    requires HeadOk(head) && gt < |d| && At(d, s, head)
    requires CharFrom(d, '>', s) == gt && test(d[s..gt + 1])
    ensures TagFrom(head, test, d, s) == Span(s, gt + 1)
  {
    assert IndexFrom(d, head, s) == s;
  }

  lemma OpenTagLocal(d: string, d2: string, t: string)
    requires OpenTag(d).Span? && TagShape(GRAPHICS, t) && IsVncTag(t)
    requires var s := OpenTag(d).start; s + |t| <= |d2| && d2[..s] == d[..s] && d2[s..s + |t|] == t
    ensures OpenTag(d2) == Span(OpenTag(d).start, OpenTag(d).start + |t|)
  {
    GraphicsHead();
    TagLocal(GRAPHICS, IsVncTag, d, d2, OpenTag(d).start, OpenTag(d).end, t);
  }

  lemma OwnClose(head: string, d: string, s: nat, t: string)
    requires s + |t| <= |d| && d[s..s + |t|] == t && TagShape(head, t)
    ensures CharFrom(d, '>', s) == s + |t| - 1
  {
    forall x | s <= x < s + |t| ensures d[x] == t[x - s] {}
    CharFromIs(d, '>', s, s + |t| - 1);
  }

  lemma SameClose(d: string, d2: string, s: nat, from: nat)
    requires from < s <= |d| && s <= |d2| && d2[..s] == d[..s]
    requires 0 <= CharFrom(d, '>', from) < s
    ensures CharFrom(d2, '>', from) == CharFrom(d, '>', from)
    ensures d2[from..CharFrom(d, '>', from) + 1] == d[from..CharFrom(d, '>', from) + 1]
  {
    var gt := CharFrom(d, '>', from);
    forall x | 0 <= x < s ensures d2[x] == d[x] { assert d2[x] == d2[..s][x]; }
    CharFromIs(d2, '>', from, gt);
  }

  lemma AtSlice(d: string, s: nat, e: nat, pat: string)
    requires s <= e <= |d| && At(d[s..e], 0, pat)
    ensures At(d, s, pat)
  {
    forall k | 0 <= k < |pat| ensures d[s + k] == pat[k] { assert d[s..e][0 + k] == pat[k]; }
  }

  lemma CharFromIs(s: string, c: char, from: nat, i: nat)
    requires from <= i < |s| && s[i] == c
    requires forall j :: from <= j < i ==> s[j] != c
    ensures CharFrom(s, c, from) == i
  {
  }

  /** Two texts that agree before `s` and both have `pat` at `s` have the same first occurrence up to
      `s`: `<` opens `pat` and occurs nowhere else in it. */
  lemma SameFirst(d: string, d2: string, off: nat, s: nat, pat: string)
    requires off <= s <= |d| && s <= |d2| && d[..s] == d2[..s]
    requires At(d, s, pat) && At(d2, s, pat)
    requires 0 < |pat| && pat[0] == '<' && forall k :: 1 <= k < |pat| ==> pat[k] != '<'
    ensures IndexFrom(d2, pat, off) == IndexFrom(d, pat, off) <= s
  {
    assert d[s + 0] == '<' && d2[s + 0] == '<';
    forall j | off <= j < s
      ensures At(d, j, pat) <==> At(d2, j, pat)
    {
      assert forall x :: 0 <= x < s ==> d[x] == d[..s][x] == d2[..s][x] == d2[x];
      if j + |pat| > s { assert pat[s - j] != '<'; }
    }
    var i, i2 := IndexFrom(d, pat, off), IndexFrom(d2, pat, off);
    assert 0 <= i <= s && 0 <= i2 <= s;
    assert i2 < s ==> At(d, i2, pat);
    assert i < s ==> At(d2, i, pat);
  }
}
