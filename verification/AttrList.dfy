/**
 The structured view of an element's opening tag: a head such as `<graphics`, a list of
 single-quoted attributes each preceded by one space (the form libvirt prints), and a tail
 (`>`, `/>`, ...).  The text functions of vnc.go are proved to compute exactly the structured
 functions below on every well-formed list, with no side condition on the values.
*/
module AttrList {
  import opened GoStrings

  datatype Attr = Attr(name: string, value: string)

  /** Neither a quote nor an angle bracket. */
  predicate Plain(c: char) {
    c != '\'' && c != '"' && c != '<' && c != '>'
  }

  predicate NameOk(n: string) {
    0 < |n| && forall i :: 0 <= i < |n| ==> Plain(n[i]) && n[i] != ' ' && n[i] != '='
  }

  predicate ValueOk(v: string) {
    forall i :: 0 <= i < |v| ==> Plain(v[i])
  }

  predicate Shaped(attrs: seq<Attr>) {
    forall i :: 0 <= i < |attrs| ==> NameOk(attrs[i].name) && ValueOk(attrs[i].value)
  }

  /** As XML requires: also no attribute twice. */
  predicate WellFormed(attrs: seq<Attr>) {
    && Shaped(attrs)
    && forall i, j :: 0 <= i < j < |attrs| ==> attrs[i].name != attrs[j].name
  }

  predicate HeadOk(h: string) {
    && 0 < |h| && h[0] == '<'
    && forall i :: 1 <= i < |h| ==> Plain(h[i]) && h[i] != ' ' && h[i] != '='
  }

  predicate TailOk(t: string) {
    && 0 < |t| && t[|t| - 1] == '>'
    && forall i :: 0 <= i < |t| - 1 ==> Plain(t[i])
  }

  function Chunk(a: Attr): string {
    " " + a.name + "='" + a.value + "'"
  }

  function Body(attrs: seq<Attr>, tail: string): string {
    if attrs == [] then tail else Chunk(attrs[0]) + Body(attrs[1..], tail)
  }

  function Tag(head: string, attrs: seq<Attr>, tail: string): string {
    head + Body(attrs, tail)
  }

  // ---------- the text functions of vnc.go ----------

  /** The text searched for: a name (or a space and a name), `=` and the opening quote. */
  function Key(k: string, q: char): string {
    k + "=" + [q]
  }

  /** The text around a quoted value found behind `key`. */
  datatype Cut = Missing | Cut(before: string, value: string, after: string)

  /** The common part of one round of the loops of tagAttr and tagDropAttr. */
  function CutQ(tag: string, key: string, q: char): Cut {
    var i := Index(tag, key);
    if i < 0 then Missing else
    var rest := tag[i + |key|..];
    var j := CharFrom(rest, q, 0);
    if j < 0 then Missing else Cut(tag[..i], rest[..j], rest[j + 1..])
  }

  /** One round of tagAttr's loop over the quote characters. */
  function AttrQ(tag: string, attr: string, q: char): Option<string> {
    match CutQ(tag, Key(attr, q), q)
    case Missing => None
    case Cut(_, value, _) => Some(value)
  }

  /** What tagAttr returns. */
  function AttrText(tag: string, attr: string): string {
    match AttrQ(tag, attr, '\'')
    case Some(v) => v
    case None =>
      match AttrQ(tag, attr, '"')
      case Some(v) => v
      case None => ""
  }

  /** One round of tagDropAttr's loop over the quote characters. */
  function DropQ(tag: string, attr: string, q: char): Option<string> {
    match CutQ(tag, Key(" " + attr, q), q)
    case Missing => None
    case Cut(before, _, after) => Some(before + after)
  }

  /** What tagDropAttr returns. */
  function DropText(tag: string, attr: string): string {
    match DropQ(tag, attr, '\'')
    case Some(t) => t
    case None =>
      match DropQ(tag, attr, '"')
      case Some(t) => t
      case None => tag
  }

  /** tagAttr: the loop over the two quote characters, with its early return. */
  method TagAttr(tag: string, attr: string) returns (v: string)
    ensures v == AttrText(tag, attr)
  {
    for n := 0 to 2
      invariant n > 0 ==> AttrQ(tag, attr, '\'').None?
      invariant n > 1 ==> AttrQ(tag, attr, '"').None?
    {
      var q := if n == 0 then '\'' else '"';
      var c := CutQ(tag, Key(attr, q), q);
      if c.Cut? { return c.value; }
    }
    v := "";
  }

  /** tagDropAttr: the same loop, splicing the attribute out. */
  method TagDropAttr(tag: string, attr: string) returns (t: string)
    ensures t == DropText(tag, attr)
  {
    for n := 0 to 2
      invariant n > 0 ==> DropQ(tag, attr, '\'').None?
      invariant n > 1 ==> DropQ(tag, attr, '"').None?
    {
      var q := if n == 0 then '\'' else '"';
      var c := CutQ(tag, Key(" " + attr, q), q);
      if c.Cut? { return c.before + c.after; }
    }
    t := tag;
  }

  // ---------- their structured counterparts ----------

  /** What reading `key` off a rendered list yields: the first name *ending* in key wins, and a
      value ending in `key=` makes the reader pick up the text up to the next quote. */
  function ReadFirst(attrs: seq<Attr>, key: string): string {
    if attrs == [] then ""
    else if EndsWith(attrs[0].name, key) then attrs[0].value
    else if EndsWith(attrs[0].value, key + "=") then
      if |attrs| == 1 then "" else " " + attrs[1].name + "="
    else ReadFirst(attrs[1..], key)
  }

  /** What dropping `name` off a rendered list yields: a value ending in ` name=` swallows the
      next attribute's name, so its value is merged with the next one's. */
  function DropFirst(attrs: seq<Attr>, name: string): seq<Attr> {
    if attrs == [] then []
    else if attrs[0].name == name then attrs[1..]
    else if EndsWith(attrs[0].value, " " + name + "=") then
      if |attrs| == 1 then attrs
      else [Attr(attrs[0].name, attrs[0].value[..|attrs[0].value| - |name| - 2] + attrs[1].value)] + attrs[2..]
    else [attrs[0]] + DropFirst(attrs[1..], name)
  }

  /** Attribute lookup as XML means it. */
  function Lookup(attrs: seq<Attr>, name: string): string {
    if attrs == [] then ""
    else if attrs[0].name == name then attrs[0].value
    else Lookup(attrs[1..], name)
  }

  /** Attribute deletion as XML means it. */
  function Remove(attrs: seq<Attr>, name: string): seq<Attr> {
    if attrs == [] then []
    else if attrs[0].name == name then attrs[1..]
    else [attrs[0]] + Remove(attrs[1..], name)
  }

  // ---------- where a key is found ----------

  /** A search key without its quote: a name, or a name with the leading space of tagDropAttr. */
  predicate KeyOk(k: string) {
    0 < |k| && (forall i :: 0 <= i < |k| ==> Plain(k[i]) && k[i] != '=') && (forall i :: 1 <= i < |k| ==> k[i] != ' ')
  }

  lemma EndsAt(s: string, i: nat, suffix: string, e: nat)
    requires e <= |s| && e == i + |suffix|
    ensures At(s, i, suffix) <==> s[i..e] == suffix
  {
    if At(s, i, suffix) {
      forall k | 0 <= k < |suffix| ensures s[i..e][k] == suffix[k] {}
    }
    if s[i..e] == suffix {
      forall k | 0 <= k < |suffix| ensures s[i + k] == suffix[k] { assert s[i + k] == s[i..e][k]; }
    }
  }

  /** Inside a rendered attribute, quotes stand only around the value. */
  lemma ChunkQuotes(a: Attr, r: string, x: int)
    requires NameOk(a.name) && ValueOk(a.value) && 0 <= x < |Chunk(a)| - 1 && x != |a.name| + 2
    ensures (Chunk(a) + r)[x] != '\'' && (Chunk(a) + r)[x] != '"'
  {
    var c, open := Chunk(a), |a.name| + 2;
    assert (c + r)[x] == c[x];
    if x < open {
      assert c[x] == (" " + a.name + "=")[x];
    } else {
      assert c[x] == a.value[x - open - 1];
    }
  }

  /** An occurrence of `k='` starting inside a rendered attribute ends at one of its quotes. */
  lemma ChunkOccurrence(a: Attr, r: string, k: string, j: nat)
    requires NameOk(a.name) && ValueOk(a.value) && KeyOk(k)
    requires j < |Chunk(a)| && At(Chunk(a) + r, j, Key(k, '\''))
    ensures var e := j + |k| + 1;
      || (e == |a.name| + 2 && EndsWith(" " + a.name, k))
      || (e == |Chunk(a)| - 1 && EndsWith(a.value, k + "="))
  {
    var c, s, p := Chunk(a), Chunk(a) + r, Key(k, '\'');
    var open, close, e := |a.name| + 2, |c| - 1, j + |k| + 1;
    assert s[open] == '\'' && s[close] == '\'';
    assert p[|k| + 1] == '\'' && p[|k|] == '=';
    assert s[j + (|k| + 1)] == '\'';
    forall x | j <= x < e ensures s[x] == (k + "=")[x - j] && s[x] != '\'' {
      assert s[j + (x - j)] == p[x - j];
    }
    assert e <= close;
    if e < close && e != open { ChunkQuotes(a, r, e); }
    if e == open {
      assert s[..open] == " " + a.name + "=";
      assert (" " + a.name)[j..] == k by {
        assert forall x :: j <= x < open - 1 ==> (" " + a.name)[x] == s[x];
      }
    } else {
      assert j > open;
      var v := a.value[j - open - 1..];
      assert v == k + "=" by {
        assert |v| == |k| + 1;
        forall x | 0 <= x < |v| ensures v[x] == (k + "=")[x] {
          assert s[j + x] == c[j + x] == a.value[j + x - open - 1];
        }
      }
    }
  }

  /** The first occurrence of `k='` in a rendered attribute followed by anything. */
  lemma ChunkIndex(a: Attr, r: string, k: string)
    requires NameOk(a.name) && ValueOk(a.value) && KeyOk(k)
    ensures Index(Chunk(a) + r, Key(k, '\'')) ==
            if EndsWith(" " + a.name, k) then 1 + |a.name| - |k|
            else if EndsWith(a.value, k + "=") then |Chunk(a)| - |k| - 2
            else if Index(r, Key(k, '\'')) < 0 then -1
            else |Chunk(a)| + Index(r, Key(k, '\''))
  {
    var c, s, p := Chunk(a), Chunk(a) + r, Key(k, '\'');
    forall j | 0 <= j < |c| && At(s, j, p)
      ensures j + |k| + 1 == |a.name| + 2 ==> EndsWith(" " + a.name, k)
      ensures j + |k| + 1 != |a.name| + 2 ==> j + |k| + 2 == |c| && EndsWith(a.value, k + "=")
    {
      ChunkOccurrence(a, r, k, j);
    }
    if EndsWith(" " + a.name, k) {
      NameHit(a, r, k);
      IndexIs(s, p, 1 + |a.name| - |k|);
    } else if EndsWith(a.value, k + "=") {
      ValueHit(a, r, k);
      IndexIs(s, p, |c| - |k| - 2);
    } else {
      IndexSkip(c, r, p);
    }
  }

  lemma NameHit(a: Attr, r: string, k: string)
    requires EndsWith(" " + a.name, k)
    ensures At(Chunk(a) + r, 1 + |a.name| - |k|, Key(k, '\''))
  {
    var s, p, i, n := Chunk(a) + r, Key(k, '\''), 1 + |a.name| - |k|, " " + a.name;
    forall x | 0 <= x < |p| ensures s[i + x] == p[x] {
      if x < |k| { assert s[i + x] == n[i + x] == n[i..][x] == k[x]; }
    }
  }

  lemma ValueHit(a: Attr, r: string, k: string)
    requires EndsWith(a.value, k + "=")
    ensures At(Chunk(a) + r, |Chunk(a)| - |k| - 2, Key(k, '\''))
  {
    var s, p, i, from := Chunk(a) + r, Key(k, '\''), |Chunk(a)| - |k| - 2, |a.value| - |k| - 1;
    forall x | 0 <= x < |p| ensures s[i + x] == p[x] {
      if x <= |k| { assert s[i + x] == a.value[from + x] == a.value[from..][x] == p[x]; }
    }
  }

  // ---------- the refinement ----------

  lemma NextQuote(a: Attr, r: string)
    requires NameOk(a.name) && ValueOk(a.value)
    ensures CharFrom(Chunk(a) + r, '\'', 0) == |a.name| + 2
    ensures (Chunk(a) + r)[|a.name| + 3..] == a.value + "'" + r
  {
    var s := Chunk(a) + r;
    assert s[|a.name| + 2] == '\'';
    forall x | 0 <= x < |a.name| + 2 ensures s[x] != '\'' { ChunkQuotes(a, r, x); }
    CharIs(s, '\'', |a.name| + 2);
  }

  lemma CloseQuote(v: string, r: string)
    requires ValueOk(v)
    ensures CharFrom(v + "'" + r, '\'', 0) == |v|
  {
    CharIs(v + "'" + r, '\'', |v|);
  }

  lemma NoDoubleQuote(attrs: seq<Attr>, tail: string)
    requires Shaped(attrs) && TailOk(tail)
    ensures '"' !in Body(attrs, tail)
  {
    if attrs != [] {
      NoDoubleQuote(attrs[1..], tail);
      var a := attrs[0];
      assert '"' !in Chunk(a) by {
        assert '"' !in a.name && '"' !in a.value;
      }
    }
  }

  lemma TailIndex(tail: string, k: string)
    requires TailOk(tail)
    ensures Index(tail, Key(k, '\'')) == -1
  {
    assert (Key(k, '\''))[|k| + 1] == '\'';
    AbsentChar(tail, Key(k, '\''), |k| + 1);
  }

  lemma CutIs(tag: string, key: string, q: char, i: int)
    requires Index(tag, key) == i
    ensures i < 0 ==> CutQ(tag, key, q) == Missing
    ensures i >= 0 ==> i + |key| <= |tag|
    ensures i >= 0 ==> CutQ(tag, key, q) == CutOff(tag[..i], tag[i + |key|..], q)
  {
    hide IndexFrom, CharFrom;
  }

  function CutOff(before: string, rest: string, q: char): Cut {
    var j := CharFrom(rest, q, 0);
    if j < 0 then Missing else Cut(before, rest[..j], rest[j + 1..])
  }

  lemma CutOffBehind(u: string, before: string, rest: string, q: char)
    ensures CutOff(u + before, rest, q) == Behind(u, CutOff(before, rest, q))
  {
  }

  function Behind(u: string, c: Cut): Cut {
    match c case Missing => Missing case Cut(b, v, a) => Cut(u + b, v, a)
  }

  lemma SliceBehind(u: string, r: string, i: nat, n: nat)
    requires i <= n <= |r|
    ensures (u + r)[..|u| + i] == u + r[..i] && (u + r)[|u| + n..] == r[n..]
  {
  }

  lemma CutShift(u: string, r: string, key: string, q: char)
    requires Index(u + r, key) == if Index(r, key) < 0 then -1 else |u| + Index(r, key)
    ensures CutQ(u + r, key, q) == Behind(u, CutQ(r, key, q))
  {
    hide *;
    var i, j := Index(r, key), Index(u + r, key);
    CutIs(r, key, q, i);
    CutIs(u + r, key, q, j);
    if i >= 0 {
      var n := i + |key|;
      SliceBehind(u, r, i, n);
      CutOffBehind(u, r[..i], r[n..], q);
      assert j + |key| == |u| + n;
    } else {
      NothingBehind(u);
    }
  }

  /** Cutting behind text in which the key does not start. */
  lemma CutBehind(u: string, r: string, key: string, q: char)
    requires forall j {:trigger At(u + r, j, key)} :: 0 <= j < |u| ==> !At(u + r, j, key)
    ensures CutQ(u + r, key, q) == Behind(u, CutQ(r, key, q))
  {
    hide *;
    IndexSkip(u, r, key);
    CutShift(u, r, key, q);
  }

  lemma NothingBehind(u: string)
    ensures Behind(u, Missing) == Missing
  {
  }

  lemma ReadBehind(u: string, r: string, key: string)
    requires forall j {:trigger At(u + r, j, Key(key, '\''))} :: 0 <= j < |u| ==> !At(u + r, j, Key(key, '\''))
    ensures AttrQ(u + r, key, '\'') == AttrQ(r, key, '\'')
  {
    CutBehind(u, r, Key(key, '\''), '\'');
  }

  lemma DropBehind(u: string, r: string, name: string)
    requires forall j {:trigger At(u + r, j, Key(" " + name, '\''))} ::
               0 <= j < |u| ==> !At(u + r, j, Key(" " + name, '\''))
    ensures DropQ(r, name, '\'').None? ==> DropQ(u + r, name, '\'').None?
    ensures DropQ(r, name, '\'').Some? ==> DropQ(u + r, name, '\'') == Some(u + DropQ(r, name, '\'').value)
  {
    hide CutQ, Key;
    var p := Key(" " + name, '\'');
    CutBehind(u, r, p, '\'');
    var c := CutQ(r, p, '\'');
    if c.Cut? { assert u + c.before + c.after == u + (c.before + c.after); }
  }

  lemma BodyCons(a: Attr, attrs: seq<Attr>, tail: string)
    ensures Body([a] + attrs, tail) == Chunk(a) + Body(attrs, tail)
  {
    assert ([a] + attrs)[1..] == attrs;
  }

  lemma ReadName(a: Attr, r: string, key: string)
    requires NameOk(a.name) && ValueOk(a.value) && NameOk(key) && EndsWith(a.name, key)
    ensures AttrQ(Chunk(a) + r, key, '\'') == Some(a.value)
  {
    SpaceSuffix(a.name, key);
    ChunkIndex(a, r, key);
    NextQuote(a, r);
    CloseQuote(a.value, r);
    assert (a.value + "'" + r)[..|a.value|] == a.value;
  }

  /** The key sits at the end of `a`'s value: the reader continues behind its closing quote. */
  lemma ReadValue(a: Attr, r: string, key: string)
    requires NameOk(a.name) && ValueOk(a.value) && NameOk(key)
    requires !EndsWith(a.name, key) && EndsWith(a.value, key + "=")
    ensures AttrQ(Chunk(a) + r, key, '\'') ==
            var j := CharFrom(r, '\'', 0); if j < 0 then None else Some(r[..j])
  {
    SpaceSuffix(a.name, key);
    ChunkIndex(a, r, key);
    assert (Chunk(a) + r)[|Chunk(a)|..] == r;
  }

  lemma ReadPast(a: Attr, r: string, key: string)
    requires NameOk(a.name) && ValueOk(a.value) && NameOk(key)
    requires !EndsWith(a.name, key) && !EndsWith(a.value, key + "=")
    ensures AttrQ(Chunk(a) + r, key, '\'') == AttrQ(r, key, '\'')
  {
    var s, p := Chunk(a) + r, Key(key, '\'');
    SpaceSuffix(a.name, key);
    forall j | 0 <= j < |Chunk(a)|
      ensures !At(s, j, p)
    {
      if At(s, j, p) { ChunkOccurrence(a, r, key, j); }
    }
    ReadBehind(Chunk(a), r, key);
  }

  lemma {:induction false} ReadBody(attrs: seq<Attr>, tail: string, key: string)
    requires Shaped(attrs) && TailOk(tail) && NameOk(key)
    ensures match AttrQ(Body(attrs, tail), key, '\'')
            case Some(v) => v == ReadFirst(attrs, key)
            case None => ReadFirst(attrs, key) == ""
  {
    if attrs == [] {
      TailIndex(tail, key);
    } else {
      var a, rest := attrs[0], attrs[1..];
      var r := Body(rest, tail);
      if EndsWith(a.name, key) {
        ReadName(a, r, key);
      } else if EndsWith(a.value, key + "=") {
        ReadValue(a, r, key);
        FirstQuote(rest, tail);
      } else {
        ReadPast(a, r, key);
        ReadBody(rest, tail, key);
      }
    }
  }

  lemma FirstQuote(attrs: seq<Attr>, tail: string)
    requires Shaped(attrs) && TailOk(tail)
    ensures var s := Body(attrs, tail); var j := CharFrom(s, '\'', 0);
      if attrs == [] then j == -1
      else j == |attrs[0].name| + 2 && s[..j] == " " + attrs[0].name + "="
  {
    if attrs != [] {
      NextQuote(attrs[0], Body(attrs[1..], tail));
    }
  }

  lemma SpaceSuffix(n: string, key: string)
    requires NameOk(key)
    ensures EndsWith(" " + n, key) <==> EndsWith(n, key)
  {
    var m := " " + n;
    if |key| <= |n| {
      assert n[|n| - |key|..] == m[|m| - |key|..];
    } else {
      assert key[0] != m[0];
    }
  }

  lemma SpaceName(n: string, name: string)
    requires NameOk(n) && NameOk(name)
    ensures EndsWith(" " + n, " " + name) <==> n == name
  {
    var m, k := " " + n, " " + name;
    if EndsWith(m, k) {
      assert m[|m| - |k|] == m[|m| - |k|..][0] == ' ';
      assert |m| == |k|;
      assert n == m[1..] && name == k[1..];
    }
  }

  lemma DropName(a: Attr, r: string)
    requires NameOk(a.name) && ValueOk(a.value)
    ensures DropQ(Chunk(a) + r, a.name, '\'') == Some(r)
  {
    SpaceName(a.name, a.name);
    ChunkIndex(a, r, " " + a.name);
    NextQuote(a, r);
    CloseQuote(a.value, r);
    assert (a.value + "'" + r)[|a.value| + 1..] == r;
    assert (Chunk(a) + r)[..0] + r == r;
  }

  lemma DropValue(a: Attr, r: string, name: string)
    requires NameOk(a.name) && ValueOk(a.value) && NameOk(name)
    requires a.name != name && EndsWith(a.value, " " + name + "=")
    ensures DropQ(Chunk(a) + r, name, '\'') ==
            var j := CharFrom(r, '\'', 0);
            if j < 0 then None else Some((Chunk(a) + r)[..|Chunk(a)| - |name| - 3] + r[j + 1..])
  {
    SpaceName(a.name, name);
    ChunkIndex(a, r, " " + name);
    assert (Chunk(a) + r)[|Chunk(a)|..] == r;
  }

  lemma DropPast(a: Attr, r: string, name: string)
    requires NameOk(a.name) && ValueOk(a.value) && NameOk(name)
    requires a.name != name && !EndsWith(a.value, " " + name + "=")
    ensures DropQ(r, name, '\'').None? ==> DropQ(Chunk(a) + r, name, '\'').None?
    ensures DropQ(r, name, '\'').Some? ==>
              DropQ(Chunk(a) + r, name, '\'') == Some(Chunk(a) + DropQ(r, name, '\'').value)
  {
    var s, p := Chunk(a) + r, Key(" " + name, '\'');
    SpaceName(a.name, name);
    forall j | 0 <= j < |Chunk(a)|
      ensures !At(s, j, p)
    {
      if At(s, j, p) { ChunkOccurrence(a, r, " " + name, j); }
    }
    DropBehind(Chunk(a), r, name);
  }

  lemma DropBodyMerge(a: Attr, b: Attr, rest: seq<Attr>, tail: string, name: string)
    requires NameOk(a.name) && ValueOk(a.value) && NameOk(b.name) && ValueOk(b.value) && NameOk(name)
    requires a.name != name && EndsWith(a.value, " " + name + "=")
    ensures DropQ(Chunk(a) + (Chunk(b) + Body(rest, tail)), name, '\'')
            == Some(Body(DropFirst([a, b] + rest, name), tail))
  {
    var r := Body(rest, tail);
    var s := Chunk(b) + r;
    SuffixLength(a.value, " " + name + "=");
    var merged := Attr(a.name, a.value[..|a.value| - |name| - 2] + b.value);
    DropValue(a, s, name);
    DropMerge(a, b, r, name);
    BodyCons(merged, rest, tail);
    MergedFirst(a, b, rest, name, merged);
    hide *;
  }

  lemma SuffixLength(v: string, suffix: string)
    requires EndsWith(v, suffix)
    ensures |suffix| <= |v|
  {
  }

  lemma MergedFirst(a: Attr, b: Attr, rest: seq<Attr>, name: string, merged: Attr)
    requires a.name != name && EndsWith(a.value, " " + name + "=") && |a.value| >= |name| + 2
    requires merged == Attr(a.name, a.value[..|a.value| - |name| - 2] + b.value)
    ensures DropFirst([a, b] + rest, name) == [merged] + rest
  {
    hide EndsWith;
    assert ([a, b] + rest)[2..] == rest && ([a, b] + rest)[1] == b;
  }

  lemma {:induction false} DropBody(attrs: seq<Attr>, tail: string, name: string)
    requires Shaped(attrs) && TailOk(tail) && NameOk(name)
    ensures match DropQ(Body(attrs, tail), name, '\'')
            case Some(t) => t == Body(DropFirst(attrs, name), tail)
            case None => DropFirst(attrs, name) == attrs
  {
    if attrs == [] {
      TailIndex(tail, " " + name);
      return;
    }
    var a, rest := attrs[0], attrs[1..];
    var r := Body(rest, tail);
    if a.name == name {
      DropName(a, r);
    } else if !EndsWith(a.value, " " + name + "=") {
      DropPast(a, r, name);
      DropBody(rest, tail, name);
      BodyCons(a, DropFirst(rest, name), tail);
    } else if rest == [] {
      DropValue(a, r, name);
      FirstQuote(rest, tail);
    } else {
      DropBodyMerge(a, rest[0], rest[1..], tail, name);
      assert [a, rest[0]] + rest[1..] == attrs;
    }
  }

  /** The text left when the match sits in `a`'s value: `a`'s value runs into `b`'s. */
  lemma DropMerge(a: Attr, b: Attr, r: string, name: string)
    requires NameOk(a.name) && ValueOk(a.value) && NameOk(b.name) && ValueOk(b.value)
    requires EndsWith(a.value, " " + name + "=")
    ensures var s, i := Chunk(b) + r, |Chunk(a)| - |name| - 3;
      && CharFrom(s, '\'', 0) == |b.name| + 2
      && (Chunk(a) + s)[..i] + s[|b.name| + 3..]
         == Chunk(Attr(a.name, a.value[..|a.value| - |name| - 2] + b.value)) + r
  {
    NextQuote(b, r);
    var s, i := Chunk(b) + r, |Chunk(a)| - |name| - 3;
    assert (Chunk(a) + s)[..i] == " " + a.name + "='" + a.value[..|a.value| - |name| - 2];
  }

  /** A head never contains the start of a key's occurrence. */
  lemma HeadSkips(head: string, attrs: seq<Attr>, tail: string, k: string)
    requires HeadOk(head) && Shaped(attrs) && TailOk(tail) && KeyOk(k)
    ensures forall j {:trigger At(head + Body(attrs, tail), j, Key(k, '\''))} ::
              0 <= j < |head| ==> !At(head + Body(attrs, tail), j, Key(k, '\''))
  {
    var b, p := Body(attrs, tail), Key(k, '\'');
    var s := head + b;
    forall j | 0 <= j < |head|
      ensures !At(s, j, p)
    {
      var x, q := |head| - j, |k| + 1;
      assert p[q] == '\'';
      if attrs == [] {
        assert j + q < |s| ==> s[j + q] != '\'';
      } else {
        assert s[|head|] == b[0] == ' ';
        assert 1 <= x < |p| ==> p[x] != ' ';
        assert forall y :: 0 <= y < |head| ==> s[y] != '\'';
      }
    }
  }

  lemma NoDoubleKey(head: string, attrs: seq<Attr>, tail: string, k: string)
    requires HeadOk(head) && Shaped(attrs) && TailOk(tail)
    ensures Index(Tag(head, attrs, tail), Key(k, '"')) == -1
  {
    NoDoubleQuote(attrs, tail);
    assert Key(k, '"')[|k| + 1] == '"';
    AbsentChar(Tag(head, attrs, tail), Key(k, '"'), |k| + 1);
  }

  /** Reading any attribute off any rendered tag is exactly ReadFirst. */
  lemma ReadRefines(head: string, attrs: seq<Attr>, tail: string, key: string)
    requires HeadOk(head) && Shaped(attrs) && TailOk(tail) && NameOk(key)
    ensures AttrText(Tag(head, attrs, tail), key) == ReadFirst(attrs, key)
  {
    HeadSkips(head, attrs, tail, key);
    ReadBehind(head, Body(attrs, tail), key);
    ReadBody(attrs, tail, key);
    NoDoubleKey(head, attrs, tail, key);
  }

  /** Dropping any attribute from any rendered tag is exactly DropFirst. */
  lemma DropRefines(head: string, attrs: seq<Attr>, tail: string, name: string)
    requires HeadOk(head) && Shaped(attrs) && TailOk(tail) && NameOk(name)
    ensures DropText(Tag(head, attrs, tail), name) == Tag(head, DropFirst(attrs, name), tail)
  {
    HeadSkips(head, attrs, tail, " " + name);
    DropBehind(head, Body(attrs, tail), name);
    DropBody(attrs, tail, name);
    NoDoubleKey(head, attrs, tail, " " + name);
  }
}
