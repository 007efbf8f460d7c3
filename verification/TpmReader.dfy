/** What the TPM reader says of any device, and what enabling and disabling do to one that is there. */
module TpmReader {
  import opened GoStrings
  import opened AttrList
  import opened VncXml
  import opened VncMarker
  import opened VncDoc
  import VncText
  import opened TpmXml
  import opened TpmLaws

  // ---------- the element ----------

  /** An opening tag of a TPM, with any attributes. */
  function TpmTag(a: seq<Attr>, tail: string): string {
    Tag(TPM, a, tail)
  }

  lemma TpmTagChars(a: seq<Attr>, tail: string)
    requires Shaped(a) && (tail == ">" || tail == "/>")
    ensures var m := TpmTag(a, tail);
      && OneTag(m) && 5 <= |m| && m[1] == 't' && !IsWord(m[4]) && At(m, 0, TPM)
      && (m[|m| - 2] == '/' <==> tail == "/>") && (tail == "/>" ==> 6 <= |m|)
  {
    DeviceHeads();
    TagIsOne(TPM, a, tail);
    VncText.BodyFront(a, tail);
    assert TPM == ['<', 't', 'p', 'm'];
    var b := Body(a, "");
    assert TpmTag(a, tail) == TPM + b + tail by { Assoc(TPM, b, tail); }
    if a != [] { BodySpace(a); }
  }

  lemma BodySpace(a: seq<Attr>)
    requires a != []
    ensures Body(a, "") != "" && Body(a, "")[0] == ' '
  {
  }

  /** The first `<tpm` of a text that mentions none in front. */
  lemma FirstThere(u: string, m: string, z: string)
    requires NoTpm(u) && OneTag(m) && At(m, 0, TPM)
    ensures IndexFrom(u + m + z, TPM, 0) == |u|
  {
    hide IndexFrom, NoTpm;
    var w := u + m + z;
    TpmLiterals();
    assert w[|u|] == m[0];
    assert w[|u|..|u| + |m|] == m && At(w, |u|, TPM) by {
      AtShift(u, m + z, TPM, 0);
      AtFront(m, z, TPM, 0);
      Assoc(u, m, z);
    }
    forall j | 0 <= j < |u| ensures !At(w, j, TPM) {
      if j + 4 <= |u| {
        NoneInside(u, j);
        AtFront(u, m + z, TPM, j);
        Assoc(u, m, z);
      } else {
        NotAt(w, j, TPM, |u| - j);
      }
    }
    IndexFromIs(w, TPM, 0, |u|);
  }

  lemma NoneInside(u: string, j: nat)
    requires NoTpm(u)
    ensures !At(u, j, TPM)
  {
    hide IndexFrom;
  }

  /** Where the opening tag closes. */
  lemma OpenCloses(u: string, m: string, z: string)
    requires OneTag(m) && 5 <= |m|
    ensures var w := u + m + z;
      && CharFrom(w, '>', |u| + 4) == |u| + |m| - 1 && w[|u| + 4] == m[4] && w[|u| + |m| - 2] == m[|m| - 2]
      && forall x :: |u| < x < |u| + |m| ==> w[x] != '<'
  {
    hide CharFrom;
    var w := u + m + z;
    assert w[|u|..|u| + |m|] == m;
    OneTagSpan(w, |u|, m);
    assert forall x :: |u| <= x < |u| + |m| ==> w[x] == m[x - |u|];
    CharFromIs(w, '>', |u| + 4, |u| + |m| - 1);
  }

  /** The element ends at the first `</tpm>` behind its opening tag. */
  lemma CloseThere(u: string, m: string, inner: string, r: string)
    requires OneTag(m) && 5 <= |m| && Index(inner, CLOSE_TPM) == -1
    ensures IndexFrom(u + m + (inner + CLOSE_TPM + r), CLOSE_TPM, |u| + 4) == |u| + |m| + |inner|
  {
    TpmLiterals();
    hide *;
    var z := inner + CLOSE_TPM + r;
    var w, cs := u + m + z, |u| + |m| + |inner|;
    OpenCloses(u, m, z);
    CloseAt(u + m, inner, r);
    forall j | |u| + 4 <= j < cs ensures !At(w, j, CLOSE_TPM) {
      if j < |u| + |m| { NotAt(w, j, CLOSE_TPM, 0); } else { NoCloseIn(u + m, inner, r, j - |u + m|); }
    }
    IndexFromIs(w, CLOSE_TPM, |u| + 4, cs);
  }

  lemma CloseAt(x: string, inner: string, r: string)
    ensures At(x + (inner + CLOSE_TPM + r), |x| + |inner|, CLOSE_TPM)
  {
    hide CLOSE_TPM, At;
    Itself(CLOSE_TPM, r);
    Assoc(inner, CLOSE_TPM, r);
    AtShift(inner, CLOSE_TPM + r, CLOSE_TPM, 0);
    AtShift(x, inner + CLOSE_TPM + r, CLOSE_TPM, |inner|);
  }

  lemma NoCloseIn(x: string, inner: string, r: string, k: nat)
    requires Index(inner, CLOSE_TPM) == -1 && k < |inner|
    ensures !At(x + (inner + CLOSE_TPM + r), |x| + k, CLOSE_TPM)
  {
    TpmLiterals();
    hide CLOSE_TPM, At, Index;
    NoneOf(inner, CLOSE_TPM, CLOSE_TPM + r, k);
    Assoc(inner, CLOSE_TPM, r);
    AtShift(x, inner + CLOSE_TPM + r, CLOSE_TPM, k);
  }

  lemma Itself(p: string, r: string)
    ensures At(p + r, 0, p)
  {
  }

  /** A pattern with its only `<` in front does not start in a text without it, in front of a `<`. */
  lemma NoneOf(x: string, pat: string, z: string, j: nat)
    requires Index(x, pat) == -1 && j < |x| && z != "" && z[0] == '<'
    requires 0 < |pat| && forall k :: 1 <= k < |pat| ==> pat[k] != '<'
    ensures !At(x + z, j, pat)
  {
    hide IndexFrom;
    if j + |pat| <= |x| {
      assert !At(x, j, pat);
      AtFront(x, z, pat, j);
    } else {
      NotAt(x + z, j, pat, |x| - j);
    }
  }

  /** An element whose name only begins like it is none. */
  lemma LongerName(w: string, p: nat)
    requires p + 4 < |w| && var c := w[p + 4]; 'a' <= c <= 'z' || 'A' <= c <= 'Z' || '0' <= c <= '9' || c == '_'
    ensures ElementEnd(w, p) == -1
  {
    TpmLiterals();
  }

  // ---------- the match ----------

  lemma BlanksFront(u: string, z: string)
    ensures BlanksBefore(u + z, |u|) == BlanksBefore(u, |u|)
    ensures var s := BlanksBefore(u, |u|); forall i :: 0 <= i < |u[s..]| ==> IsBlank(u[s..][i])
  {
    hide BlanksBefore, IsBlank;
    assert forall i :: 0 <= i < |u| ==> (u + z)[i] == u[i];
    BlanksIs(u + z, |u|, BlanksBefore(u, |u|));
  }

  lemma SpaceBehind(x: string, r: string)
    ensures SpaceAfter(x + r, |x|) == |x| + SpaceAfter(r, 0)
    ensures forall i :: 0 <= i < SpaceAfter(r, 0) ==> IsReSpace(r[i])
  {
    hide SpaceAfter, IsReSpace;
    assert forall i :: 0 <= i < |r| ==> (x + r)[|x| + i] == r[i];
    SpaceIs(x + r, |x|, |x| + SpaceAfter(r, 0));
  }

  lemma FindIs(w: string, p: nat, e: nat)
    requires ElementFrom(w, 0) == p && p + 4 <= |w| && ElementEnd(w, p) == e && e <= |w| && p <= |w|
    ensures FindTpm(w) == Span(BlanksBefore(w, p), SpaceAfter(w, e))
  {
    hide ElementFrom, ElementEnd, BlanksBefore, SpaceAfter;
  }

  /** The whole match: blanks, the element, and the space behind it. */
  lemma MatchOf(u: string, e: string, r: string)
    requires 4 <= |e| && ElementFrom(u + e + r, 0) == |u| && ElementEnd(u + e + r, |u|) == |u| + |e|
    ensures var s, f := BlanksBefore(u, |u|), SpaceAfter(r, 0);
      && FindTpm(u + e + r) == Span(s, |u| + |e| + f)
      && (u + e + r)[s..|u| + |e| + f] == u[s..] + e + r[..f]
      && (forall i :: 0 <= i < |u[s..]| ==> IsBlank(u[s..][i])) && forall i :: 0 <= i < f ==> IsReSpace(r[i])
  {
    hide *;
    FindIs(u + e + r, |u|, |u| + |e|);
    BlanksFront(u, e + r);
    Assoc(u, e, r);
    SpaceBehind(u + e, r);
    Middle(u, e, r, BlanksBefore(u, |u|), SpaceAfter(r, 0));
  }

  lemma Middle(u: string, e: string, r: string, s: nat, f: nat)
    requires s <= |u| && f <= |r|
    ensures (u + e + r)[s..|u| + |e| + f] == u[s..] + e + r[..f]
  {
  }

  /** The definition of the element, once its tags are found. */
  lemma Opens(w: string, p: nat, gt: int, c: int)
    requires p + 4 < |w| && IndexFrom(w, TPM, 0) == p && !IsWord(w[p + 4])
    requires CharFrom(w, '>', p + 4) == gt && IndexFrom(w, CLOSE_TPM, p + 4) == c
    requires p + 4 <= gt && 0 <= c
    ensures w[gt - 1] != '/' ==> ElementFrom(w, 0) == p && ElementEnd(w, p) == c + 6
  {
    hide IndexFrom, CharFrom, IsWord;
    TpmLiterals();
  }

  lemma OpensEmpty(w: string, p: nat, gt: int)
    requires p + 4 < |w| && IndexFrom(w, TPM, 0) == p && !IsWord(w[p + 4])
    requires CharFrom(w, '>', p + 4) == gt && p + 4 < gt && w[gt - 1] == '/'
    ensures ElementFrom(w, 0) == p && ElementEnd(w, p) == gt + 1
  {
    hide IndexFrom, CharFrom, IsWord;
    TpmLiterals();
  }

  lemma OpensAt(u: string, m: string, inner: string, r: string)
    requires NoTpm(u) && OneTag(m) && 5 <= |m| && At(m, 0, TPM) && !IsWord(m[4]) && m[|m| - 2] != '/'
    requires Index(inner, CLOSE_TPM) == -1
    ensures var w := u + m + (inner + CLOSE_TPM + r);
      && |u| + 4 <= |w| && ElementFrom(w, 0) == |u| && ElementEnd(w, |u|) == |u| + |m| + |inner| + 6
  {
    hide *;
    FirstThere(u, m, inner + CLOSE_TPM + r);
    OpenCloses(u, m, inner + CLOSE_TPM + r);
    CloseThere(u, m, inner, r);
    Opens(u + m + (inner + CLOSE_TPM + r), |u|, |u| + |m| - 1, |u| + |m| + |inner|);
  }

  lemma ElementThere(u: string, a: seq<Attr>, inner: string, r: string)
    requires NoTpm(u) && Shaped(a) && Index(inner, CLOSE_TPM) == -1
    ensures var e := TpmTag(a, ">") + inner + CLOSE_TPM;
      4 <= |e| && ElementFrom(u + e + r, 0) == |u| && ElementEnd(u + e + r, |u|) == |u| + |e|
  {
    TpmLiterals();
    assert ">" != "/>";
    hide *;
    TpmTagChars(a, ">");
    Shift(u, TpmTag(a, ">"), inner, CLOSE_TPM, r);
    OpensAt(u, TpmTag(a, ">"), inner, r);
  }

  lemma Shift(u: string, m: string, x: string, c: string, r: string)
    ensures u + (m + x + c) + r == u + m + (x + c + r)
  {
  }

  lemma EmptyElementThere(u: string, a: seq<Attr>, r: string)
    requires NoTpm(u) && Shaped(a)
    ensures var e := TpmTag(a, "/>");
      4 <= |e| && ElementFrom(u + e + r, 0) == |u| && ElementEnd(u + e + r, |u|) == |u| + |e|
  {
    hide *;
    var m := TpmTag(a, "/>");
    TpmTagChars(a, "/>");
    FirstThere(u, m, r);
    OpenCloses(u, m, r);
    OpensEmpty(u + m + r, |u|, |u| + |m| - 1);
  }

  // ---------- reading ----------

  lemma ModelReads(z: string, a: seq<Attr>, tail: string, y: string)
    requires Shaped(a) && (tail == ">" || tail == "/>") && forall i :: 0 <= i < |z| ==> IsBlank(z[i])
    ensures FirstTag(z + TpmTag(a, tail) + y) == Some(z + TpmTag(a, tail))
    ensures AttrText(z + TpmTag(a, tail), "model") == ReadFirst(a, "model")
  {
    hide AttrText, FirstTag, OneTag, ReadFirst;
    DeviceHeads();
    ModelOk();
    assert "model"[0] == 'm';
    TpmTagChars(a, tail);
    TagInFront(z, TpmTag(a, tail), y);
    BlankFront(z, TpmTag(a, tail), "model");
    ReadRefines(TPM, a, tail, "model");
  }

  /** No backend starts in the blanks and the opening tag. */
  lemma NoBackendInFront(z: string, m: string, y: string, j: nat)
    requires (forall i :: 0 <= i < |z| ==> IsBlank(z[i])) && OneTag(m) && m[1] == 't' && j < |z| + |m|
    ensures !At(z + m + y, j, BACKEND)
  {
    assert BACKEND[0] == '<' && BACKEND[1] == 'b';
    var w := z + m + y;
    if j < |z| { assert w[j] == z[j]; NotAt(w, j, BACKEND, 0); }
    else if j == |z| { assert w[j + 1] == m[1]; NotAt(w, j, BACKEND, 1); }
    else { assert w[j] == m[j - |z|]; NotAt(w, j, BACKEND, 0); }
  }

  lemma BackendReads(z: string, m: string, gap: string, b: seq<Attr>, btail: string, y: string)
    requires (forall i :: 0 <= i < |z| ==> IsBlank(z[i])) && OneTag(m) && m[1] == 't' && '<' !in gap
    requires Shaped(b) && TailOk(btail)
    ensures var w := z + m + (gap + Tag(BACKEND, b, btail) + y); var i := Index(w, BACKEND);
      && i == |z| + |m| + |gap|
      && FirstTag(w[i..]) == Some(Tag(BACKEND, b, btail))
      && AttrText(Tag(BACKEND, b, btail), "version") == ReadFirst(b, "version")
  {
    hide IndexFrom, AttrText, FirstTag, Tag, OneTag, ReadFirst;
    DeviceHeads();
    BackendOk();
    TagIsOne(BACKEND, b, btail);
    var t := Tag(BACKEND, b, btail);
    var zm, w, i := z + m, z + m + (gap + t + y), |z| + |m| + |gap|;
    assert At(t, 0, BACKEND) by { TagStarts(b, btail); }
    Assoc(gap, t, y);
    Assoc(zm, gap, t + y);
    assert w == (zm + gap) + (t + y);
    AtFront(t, y, BACKEND, 0);
    AtShift(zm + gap, t + y, BACKEND, 0);
    forall j | 0 <= j < i ensures !At(w, j, BACKEND) {
      if j < |zm| { NoBackendInFront(z, m, gap + t + y, j); }
      else { assert BACKEND[0] == '<' && w[j] == gap[j - |zm|]; NotAt(w, j, BACKEND, 0); }
    }
    IndexIs(w, BACKEND, i);
    assert w[i..] == t + y;
    TagInFront("", t, y);
    assert "" + t == t;
    ReadRefines(BACKEND, b, btail, "version");
  }

  lemma TagStarts(b: seq<Attr>, btail: string)
    ensures At(Tag(BACKEND, b, btail), 0, BACKEND)
  {
    hide Body;
  }

  lemma NoBackend(z: string, m: string, inner: string, sp: string)
    requires (forall i :: 0 <= i < |z| ==> IsBlank(z[i])) && OneTag(m) && m[1] == 't'
    requires Index(inner, BACKEND) == -1 && '<' !in sp
    ensures Index(z + m + (inner + CLOSE_TPM + sp), BACKEND) == -1
  {
    hide IndexFrom, OneTag;
    assert BACKEND == ['<', 'b', 'a', 'c', 'k', 'e', 'n', 'd'];
    TpmLiterals();
    var zm, y := z + m, inner + CLOSE_TPM + sp;
    var w := zm + y;
    Assoc(inner, CLOSE_TPM, sp);
    forall j | 0 <= j < |w| ensures !At(w, j, BACKEND) {
      if j < |zm| {
        NoBackendInFront(z, m, y, j);
      } else {
        var k := j - |zm|;
        AtShift(zm, y, BACKEND, k);
        if k < |inner| { NoneOf(inner, BACKEND, CLOSE_TPM + sp, k); }
        else if k == |inner| { assert y[k + 1] == CLOSE_TPM[1]; NotAt(y, k, BACKEND, 1); }
        else if k < |inner| + 6 { assert y[k] == CLOSE_TPM[k - |inner|]; NotAt(y, k, BACKEND, 0); }
        else { assert y[k] == sp[k - |inner| - 6]; NotAt(y, k, BACKEND, 0); }
      }
    }
    NoneAnywhere(w, BACKEND);
  }

  lemma NoneAnywhere(w: string, pat: string)
    requires 0 < |pat| && forall j {:trigger At(w, j, pat)} :: 0 <= j < |w| ==> !At(w, j, pat)
    ensures Index(w, pat) == -1
  {
  }

  /** InfoXML, from what it finds in the match. */
  lemma InfoOf(d: string, s: nat, f: nat, tag: string)
    requires FindTpm(d) == Span(s, f) && s <= f <= |d| && FirstTag(d[s..f]) == Some(tag)
    ensures var m := d[s..f]; var i := Index(m, BACKEND);
      && InfoXML(d).present && InfoXML(d).model == AttrText(tag, "model")
      && (i < 0 ==> InfoXML(d).version == "")
      && (i >= 0 ==> i <= |m|)
      && (i >= 0 ==> forall t :: FirstTag(m[i..]) == Some(t) ==> InfoXML(d).version == AttrText(t, "version"))
  {
    hide FindTpm, FirstTag, AttrText, IndexFrom;
  }

  lemma SpaceFree(r: string, f: nat)
    requires f <= |r| && forall i :: 0 <= i < f ==> IsReSpace(r[i])
    ensures '<' !in r[..f] && '>' !in r[..f]
  {
  }

  lemma Texts()
    ensures TPM == "<tpm" && CLOSE_TPM == "</tpm>" && BACKEND == "<backend"
  {
  }

  /** A device with a backend, configured by hand in any way: its own model and version. */
  lemma InfoWithBackend(u: string, a: seq<Attr>, gap: string, b: seq<Attr>, btail: string, rest: string, r: string)
    requires NoTpm(u) && Shaped(a) && Shaped(b) && TailOk(btail) && '<' !in gap
    requires Index(gap + Tag("<backend", b, btail) + rest, "</tpm>") == -1
    ensures InfoXML(u + (Tag("<tpm", a, ">") + (gap + Tag("<backend", b, btail) + rest) + "</tpm>") + r)
            == TpmInfo(true, ReadFirst(a, "model"), ReadFirst(b, "version"))
  {
    Texts();
    hide Index, ElementFrom, ElementEnd, NoTpm, ReadFirst, FirstTag, AttrText, InfoXML, FindTpm, CLOSE_TPM, OneTag;
    hide BlanksBefore, SpaceAfter, IsBlank, IsReSpace, Tag;
    var m, t := TpmTag(a, ">"), Tag(BACKEND, b, btail);
    var inner := gap + t + rest;
    var e := m + inner + CLOSE_TPM;
    TpmTagChars(a, ">");
    ElementThere(u, a, inner, r);
    MatchOf(u, e, r);
    var s, f := BlanksBefore(u, |u|), SpaceAfter(r, 0);
    var z, sp := u[s..], r[..f];
    var y := rest + CLOSE_TPM + sp;
    Regrouped(z, m, gap, t, rest, CLOSE_TPM, sp);
    ModelReads(z, a, ">", gap + t + y);
    BackendReads(z, m, gap, b, btail, y);
    InfoOf(u + e + r, s, |u| + |e| + f, z + m);
  }

  lemma Regrouped(z: string, m: string, g: string, t: string, x: string, c: string, sp: string)
    ensures z + (m + (g + t + x) + c) + sp == z + m + (g + t + (x + c + sp))
  {
  }

  /** A device without one. */
  lemma InfoWithoutBackend(u: string, a: seq<Attr>, inner: string, r: string)
    requires NoTpm(u) && Shaped(a) && Index(inner, "</tpm>") == -1 && Index(inner, "<backend") == -1
    ensures InfoXML(u + (Tag("<tpm", a, ">") + inner + "</tpm>") + r) == TpmInfo(true, ReadFirst(a, "model"), "")
  {
    Texts();
    hide Index, ElementFrom, ElementEnd, NoTpm, ReadFirst, FirstTag, AttrText, InfoXML, FindTpm, CLOSE_TPM, OneTag;
    hide BlanksBefore, SpaceAfter, IsBlank, IsReSpace, Tag;
    var m := TpmTag(a, ">");
    var e := m + inner + CLOSE_TPM;
    TpmTagChars(a, ">");
    ElementThere(u, a, inner, r);
    MatchOf(u, e, r);
    var s, f := BlanksBefore(u, |u|), SpaceAfter(r, 0);
    var z, sp := u[s..], r[..f];
    SpaceFree(r, f);
    Shift(z, m, inner, CLOSE_TPM, sp);
    ModelReads(z, a, ">", inner + CLOSE_TPM + sp);
    NoBackend(z, m, inner, sp);
    InfoOf(u + e + r, s, |u| + |e| + f, z + m);
  }

  /** And an empty element. */
  lemma InfoEmpty(u: string, a: seq<Attr>, r: string)
    requires NoTpm(u) && Shaped(a)
    ensures InfoXML(u + Tag("<tpm", a, "/>") + r) == TpmInfo(true, ReadFirst(a, "model"), "")
  {
    hide Index, ElementFrom, ElementEnd, NoTpm, ReadFirst, FirstTag, AttrText, InfoXML, FindTpm, OneTag;
    hide BlanksBefore, SpaceAfter, IsBlank, IsReSpace, Tag;
    var m := TpmTag(a, "/>");
    TpmTagChars(a, "/>");
    EmptyElementThere(u, a, r);
    MatchOf(u, m, r);
    var s, f := BlanksBefore(u, |u|), SpaceAfter(r, 0);
    SpaceFree(r, f);
    ModelReads(u[s..], a, "/>", r[..f]);
    NoBackendAtAll(u[s..], m, r[..f]);
    InfoOf(u + m + r, s, |u| + |m| + f, u[s..] + m);
  }

  lemma NoBackendAtAll(z: string, m: string, sp: string)
    requires (forall i :: 0 <= i < |z| ==> IsBlank(z[i])) && OneTag(m) && m[1] == 't' && '<' !in sp
    ensures Index(z + m + sp, BACKEND) == -1
  {
    hide IndexFrom, OneTag;
    assert BACKEND[0] == '<';
    var w := z + m + sp;
    forall j | 0 <= j < |w| ensures !At(w, j, BACKEND) {
      if j < |z| + |m| { NoBackendInFront(z, m, sp, j); }
      else { assert w[j] == sp[j - |z| - |m|]; NotAt(w, j, BACKEND, 0); }
    }
    NoneAnywhere(w, BACKEND);
  }

  // ---------- writing ----------

  /** A document that has a device already is left as it is, and one that has none by a removal. */
  lemma LeftAlone(d: string)
    ensures InfoXML(d).present ==> SetTpmXML(d, true) == Ok(d)
    ensures !InfoXML(d).present ==> SetTpmXML(d, false) == Ok(d)
  {
    hide FindTpm, RemoveTpm, LastIndex;
  }

  /** Disabling takes out the device, however it was configured, with the blanks before it and the space
      behind it, and nothing else. */
  lemma RemovesDevice(u: string, blanks: string, a: seq<Attr>, inner: string, space: string, r: string)
    requires NoTpm(u + blanks) && NoTpm(space + r) && Shaped(a) && Index(inner, "</tpm>") == -1
    requires forall i :: 0 <= i < |blanks| ==> blanks[i] == ' ' || blanks[i] == '\t'
    requires forall i :: 0 <= i < |space| ==> space[i] in {' ', '\t', '\n', '\r', '\U{000C}'}
    requires u == "" || (u[|u| - 1] != ' ' && u[|u| - 1] != '\t')
    requires r == "" || r[0] !in {' ', '\t', '\n', '\r', '\U{000C}'}
    ensures SetTpmXML(u + blanks + (Tag("<tpm", a, ">") + inner + "</tpm>") + (space + r), false) == Ok(u + r)
  {
    Texts();
    BlanksEnd(u, blanks);
    SpaceStart(space, r);
    hide *;
    DeviceRemoved(u + blanks, a, inner, space + r);
    assert (u + blanks)[..|u|] == u && (space + r)[|space|..] == r;
  }

  lemma DeviceRemoved(u: string, a: seq<Attr>, inner: string, r: string)
    requires NoTpm(u) && NoTpm(r) && Shaped(a) && Index(inner, CLOSE_TPM) == -1
    ensures SetTpmXML(u + (Tag(TPM, a, ">") + inner + CLOSE_TPM) + r, false)
            == Ok(u[..BlanksBefore(u, |u|)] + r[SpaceAfter(r, 0)..])
  {
    hide Index, ElementFrom, ElementEnd, NoTpm, FindTpm, CLOSE_TPM, OneTag, AttrText, FirstTag, RemoveTpm;
    hide BlanksBefore, SpaceAfter, Tag, LastIndex;
    var e := TpmTag(a, ">") + inner + CLOSE_TPM;
    TpmTagChars(a, ">");
    ElementThere(u, a, inner, r);
    MatchOf(u, e, r);
    RemoveOnce(u, e, r, BlanksBefore(u, |u|), SpaceAfter(r, 0));
  }

  lemma {:induction false} BlanksEnd(u: string, blanks: string)
    requires forall i :: 0 <= i < |blanks| ==> blanks[i] == ' ' || blanks[i] == '\t'
    requires u == "" || (u[|u| - 1] != ' ' && u[|u| - 1] != '\t')
    ensures BlanksBefore(u + blanks, |u + blanks|) == |u|
  {
    var w, s := u + blanks, BlanksBefore(u + blanks, |u + blanks|);
    assert u == "" || w[|u| - 1] == u[|u| - 1];
    assert forall i :: |u| <= i < |w| ==> w[i] == blanks[i - |u|];
  }

  lemma SpaceStart(space: string, r: string)
    requires forall i :: 0 <= i < |space| ==> space[i] in {' ', '\t', '\n', '\r', '\U{000C}'}
    requires r == "" || r[0] !in {' ', '\t', '\n', '\r', '\U{000C}'}
    ensures SpaceAfter(space + r, 0) == |space|
  {
    var w, f := space + r, SpaceAfter(space + r, 0);
    assert forall i :: 0 <= i < |space| ==> w[i] == space[i];
    assert r == "" || w[|space|] == r[0];
  }

  lemma RemoveOnce(u: string, e: string, r: string, s: nat, f: nat)
    requires s <= |u| && f <= |r| && FindTpm(u + e + r) == Span(s, |u| + |e| + f) && NoTpm(r)
    ensures RemoveTpm(u + e + r) == u[..s] + r[f..]
  {
    hide FindTpm, NoTpm;
    var w := u + e + r;
    Outside(u, e, r, s, f);
    Behind(r, f);
    assert RemoveTpm(w) == w[..s] + RemoveTpm(w[|u| + |e| + f..]);
    hide RemoveTpm;
    AbsentTpm(r[f..]);
  }

  lemma Outside(u: string, e: string, r: string, s: nat, f: nat)
    requires s <= |u| && f <= |r|
    ensures var w := u + e + r; w[..s] == u[..s] && w[|u| + |e| + f..] == r[f..]
  {
  }

  lemma Behind(r: string, f: nat)
    requires f <= |r| && NoTpm(r)
    ensures NoTpm(r[f..])
  {
    hide IndexFrom;
    assert r == r[..f] + r[f..];
    if Index(r[f..], TPM) >= 0 { AtShift(r[..f], r[f..], TPM, Index(r[f..], TPM)); }
  }
}
