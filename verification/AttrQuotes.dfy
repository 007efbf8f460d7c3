/** The other quote: tags whose attributes stand in double quotes read, drop and search the same. */
module AttrQuotes {
  import opened GoStrings
  import opened AttrList
  import opened AttrLaws
  import opened VncXml
  import opened VncMarker
  import VncDoc

  // ---------- exchanging the quotes ----------

  function Swap(c: char): char {
    if c == '\'' then '"' else if c == '"' then '\'' else c
  }

  function Swapped(s: string): (t: string)
    ensures |t| == |s| && forall i :: 0 <= i < |s| ==> t[i] == Swap(s[i])
  {
    seq(|s|, i requires 0 <= i < |s| => Swap(s[i]))
  }

  lemma SwappedParts(x: string, y: string)
    ensures Swapped(x + y) == Swapped(x) + Swapped(y)
  {
  }

  lemma SwappedSlice(s: string, a: nat, b: nat)
    requires a <= b <= |s|
    ensures Swapped(s)[a..b] == Swapped(s[a..b])
  {
  }

  lemma SwappedPlain(s: string)
    requires forall i :: 0 <= i < |s| ==> s[i] != '\'' && s[i] != '"'
    ensures Swapped(s) == s
  {
  }

  lemma SwapSame(c: char, d: char)
    ensures Swap(c) == Swap(d) <==> c == d
  {
  }

  lemma SwappedAt(s: string, i: int, pat: string)
    ensures At(Swapped(s), i, Swapped(pat)) <==> At(s, i, pat)
  {
    hide Swap;
    if 0 <= i && i + |pat| <= |s| {
      forall k | 0 <= k < |pat| ensures Swapped(s)[i + k] == Swapped(pat)[k] <==> s[i + k] == pat[k] {
        SwapSame(s[i + k], pat[k]);
      }
    }
  }

  lemma SwappedIndex(s: string, pat: string)
    ensures Index(Swapped(s), Swapped(pat)) == Index(s, pat)
  {
    hide IndexFrom, At, Swapped;
    var t, p := Swapped(s), Swapped(pat);
    var i, j := Index(s, pat), Index(t, p);
    SwappedAt(s, i, pat);
    SwappedAt(s, j, pat);
  }

  lemma SwappedChar(s: string, c: char)
    ensures CharFrom(Swapped(s), Swap(c), 0) == CharFrom(s, c, 0)
  {
    hide Swap;
    var t := Swapped(s);
    forall i | 0 <= i < |s| ensures t[i] == Swap(c) <==> s[i] == c { SwapSame(s[i], c); }
    var i, j := CharFrom(s, c, 0), CharFrom(t, Swap(c), 0);
  }

  function SwappedCut(c: Cut): Cut {
    match c case Missing => Missing case Cut(b, v, a) => Cut(Swapped(b), Swapped(v), Swapped(a))
  }

  /** The search for a key in one quote is the search for it in the other. */
  lemma CutSwaps(tag: string, key: string, q: char)
    ensures CutQ(Swapped(tag), Swapped(key), Swap(q)) == SwappedCut(CutQ(tag, key, q))
  {
    hide CutQ, Swapped, Swap, CharFrom, Index;
    var i := Index(tag, key);
    SwappedIndex(tag, key);
    CutIs(tag, key, q, i);
    CutIs(Swapped(tag), Swapped(key), Swap(q), i);
    if i >= 0 {
      var k := i + |key|;
      SwappedSlice(tag, 0, i);
      SwappedSlice(tag, k, |tag|);
      Slices(Swapped(tag), i, k);
      Slices(tag, i, k);
      CutOffSwaps(tag[..i], tag[k..], q);
    }
  }

  lemma Slices(t: string, i: nat, k: nat)
    requires i <= k <= |t|
    ensures t[0..i] == t[..i] && t[k..|t|] == t[k..]
  {
  }

  lemma CutOffSwaps(before: string, rest: string, q: char)
    ensures CutOff(Swapped(before), Swapped(rest), Swap(q)) == SwappedCut(CutOff(before, rest, q))
  {
    hide Swapped, Swap, CharFrom;
    SwappedChar(rest, q);
    var j := CharFrom(rest, q, 0);
    if j >= 0 {
      SwappedSlice(rest, 0, j);
      SwappedSlice(rest, j + 1, |rest|);
      Slices(Swapped(rest), j, j + 1);
      Slices(rest, j, j + 1);
    }
  }

  lemma SwappedKey(k: string, q: char)
    requires forall i :: 0 <= i < |k| ==> k[i] != '\'' && k[i] != '"'
    ensures Swapped(Key(k, q)) == Key(k, Swap(q))
  {
    SwappedPlain(k);
    var key := Key(k, q);
    assert forall i :: 0 <= i < |k| ==> key[i] == k[i];
  }

  // ---------- tags in double quotes ----------

  function DoubleBody(attrs: seq<Attr>, tail: string): string {
    if attrs == [] then tail
    else " " + attrs[0].name + "=\"" + attrs[0].value + "\"" + DoubleBody(attrs[1..], tail)
  }

  function DoubleTag(head: string, attrs: seq<Attr>, tail: string): string {
    head + DoubleBody(attrs, tail)
  }

  lemma DoubleChunk(a: Attr)
    requires NameOk(a.name) && ValueOk(a.value)
    ensures Swapped(Chunk(a)) == " " + a.name + "=\"" + a.value + "\""
  {
    SwappedPlain(a.name);
    SwappedPlain(a.value);
    var c, d := Chunk(a), " " + a.name + "=\"" + a.value + "\"";
    assert |c| == |d|;
    forall i | 0 <= i < |c| ensures Swap(c[i]) == d[i] {
      if 1 <= i <= |a.name| { assert c[i] == a.name[i - 1]; }
      else if |a.name| + 3 <= i < |c| - 1 { assert c[i] == a.value[i - |a.name| - 3]; }
    }
  }

  lemma {:induction false} DoubleBodyIs(attrs: seq<Attr>, tail: string)
    requires Shaped(attrs) && TailOk(tail)
    ensures DoubleBody(attrs, tail) == Swapped(Body(attrs, tail))
  {
    if attrs == [] {
      SwappedPlain(tail);
    } else {
      DoubleBodyIs(attrs[1..], tail);
      DoubleChunk(attrs[0]);
      hide Swapped, Chunk;
      SwappedParts(Chunk(attrs[0]), Body(attrs[1..], tail));
    }
  }

  lemma DoubleTagIs(head: string, attrs: seq<Attr>, tail: string)
    requires HeadOk(head) && Shaped(attrs) && TailOk(tail)
    ensures DoubleTag(head, attrs, tail) == Swapped(Tag(head, attrs, tail))
  {
    DoubleBodyIs(attrs, tail);
    SwappedPlain(head);
    hide Swapped, Body, DoubleBody;
    SwappedParts(head, Body(attrs, tail));
  }

  lemma {:induction false} ReadPlain(attrs: seq<Attr>, key: string)
    requires Shaped(attrs)
    ensures Swapped(ReadFirst(attrs, key)) == ReadFirst(attrs, key)
  {
    hide EndsWith, Swapped;
    if attrs == [] {
      SwappedPlain("");
    } else if EndsWith(attrs[0].name, key) {
      SwappedPlain(attrs[0].value);
    } else if EndsWith(attrs[0].value, key + "=") {
      SwappedPlain("");
      if |attrs| > 1 { SwappedPlain(" " + attrs[1].name + "="); }
    } else {
      ReadPlain(attrs[1..], key);
    }
  }

  /** Reading an attribute off a tag in double quotes is ReadFirst as well. */
  lemma ReadDouble(head: string, attrs: seq<Attr>, tail: string, key: string)
    requires HeadOk(head) && Shaped(attrs) && TailOk(tail) && NameOk(key)
    ensures AttrText(DoubleTag(head, attrs, tail), key) == ReadFirst(attrs, key)
  {
    hide CutQ, Swapped, Key, DoubleTag, Tag, ReadFirst, Shaped, HeadOk, TailOk;
    var t := Tag(head, attrs, tail);
    DoubleTagIs(head, attrs, tail);
    ReadRefines(head, attrs, tail, key);
    ReadPlain(attrs, key);
    NoDoubleKey(head, attrs, tail, key);
    SwappedKey(key, '\'');
    SwappedKey(key, '"');
    CutSwaps(t, Key(key, '\''), '\'');
    CutSwaps(t, Key(key, '"'), '"');
    CutMissing(t, Key(key, '"'), '"');
    SwappedPlain("");
  }

  lemma CutMissing(t: string, key: string, q: char)
    requires Index(t, key) == -1
    ensures CutQ(t, key, q) == Missing
  {
  }

  /** Dropping one is DropFirst. */
  lemma DropDouble(head: string, attrs: seq<Attr>, tail: string, name: string)
    requires HeadOk(head) && Shaped(attrs) && TailOk(tail) && NameOk(name)
    ensures Shaped(DropFirst(attrs, name))
    ensures DropText(DoubleTag(head, attrs, tail), name) == DoubleTag(head, DropFirst(attrs, name), tail)
  {
    SpacedKey(name);
    hide CutQ, Swapped, Key, DoubleTag, Tag, DropFirst, Shaped, HeadOk, TailOk;
    var t, k := Tag(head, attrs, tail), " " + name;
    VncDoc.DropShaped(attrs, name);
    DoubleTagIs(head, attrs, tail);
    DoubleTagIs(head, DropFirst(attrs, name), tail);
    DropRefines(head, attrs, tail, name);
    NoDoubleKey(head, attrs, tail, k);
    SwappedKey(k, '\'');
    SwappedKey(k, '"');
    CutSwaps(t, Key(k, '\''), '\'');
    CutSwaps(t, Key(k, '"'), '"');
    CutMissing(t, Key(k, '"'), '"');
    var c := CutQ(t, Key(k, '\''), '\'');
    if c.Cut? { SwappedParts(c.before, c.after); }
  }

  lemma SpacedKey(name: string)
    requires NameOk(name)
    ensures var k := " " + name; forall i :: 0 <= i < |k| ==> k[i] != '\'' && k[i] != '"'
  {
  }

  /** The marker counts in double quotes too. */
  lemma MarkerDouble(attrs: seq<Attr>, tail: string)
    requires Shaped(attrs) && TailOk(tail)
    ensures IsVncTag(DoubleTag(GRAPHICS, attrs, tail)) <==> exists i :: 0 <= i < |attrs| && IsMarker(attrs[i])
  {
    hide Swapped, DoubleTag, Tag, IsMarker, Index;
    GraphicsHead();
    DoubleTagIs(GRAPHICS, attrs, tail);
    MarkerIff(attrs, tail);
    MarkersSwap();
    SwappedIndex(Tag(GRAPHICS, attrs, tail), "type='vnc'");
    SwappedIndex(Tag(GRAPHICS, attrs, tail), "type=\"vnc\"");
  }

  lemma MarkersSwap()
    ensures Swapped("type='vnc'") == "type=\"vnc\"" && Swapped("type=\"vnc\"") == "type='vnc'"
  {
    assert "type='vnc'" == ['t', 'y', 'p', 'e', '=', '\'', 'v', 'n', 'c', '\''];
    assert "type=\"vnc\"" == ['t', 'y', 'p', 'e', '=', '"', 'v', 'n', 'c', '"'];
  }
}
