/** What adding and removing the TPM device promises. */
module TpmLaws {
  import opened GoStrings
  import opened AttrList
  import opened VncXml
  import opened VncMarker
  import opened VncDoc
  import opened VncLaws
  import opened TpmXml

  predicate NoTpm(w: string) {
    Index(w, TPM) == -1
  }

  lemma Parts()
    ensures OneTag(ModelTag()) && TagShape(TPM, ModelTag()) && OneTag(BackendTag()) && TagShape(BACKEND, BackendTag())
    ensures CLOSE_TPM[1] == '/' && 6 <= |ModelTag()| && ModelTag()[4] == ' ' && ModelTag()[|ModelTag()| - 2] == '\''
    ensures BackendTag()[1] == 'b' && GAP[0] == '\n' && |GAP| == 7 && |GAP2| == 5
    ensures forall i :: 0 <= i < 7 ==> GAP[i] != '<' && GAP[i] != '>'
    ensures forall i :: 0 <= i < 5 ==> GAP2[i] != '<' && GAP2[i] != '>'
  {
    DeviceTags();
    TagIsOne(TPM, [Attr("model", "tpm-crb")], ">");
    TagIsOne(BACKEND, [Attr("type", "emulator"), Attr("version", "2.0")], "/>");
    ModelText();
    BackendText();
    assert GAP == ['\n', ' ', ' ', ' ', ' ', ' ', ' '] && GAP2 == ['\n', ' ', ' ', ' ', ' '];
  }

  /** Where the parts of an element built like the added one lie. */
  predicate Laid(w: string, s: nat, m: string, b: string) {
    var bs, cs := s + |m| + 7, s + |m| + 7 + |b| + 5;
    && cs + 6 <= |w| && w[s..s + |m|] == m && w[s + |m|..bs] == GAP
    && w[bs..bs + |b|] == b && w[bs + |b|..cs] == GAP2 && w[cs..cs + 6] == CLOSE_TPM
  }

  lemma ElementLaid(u: string, r: string)
    ensures |Element()| == |ModelTag()| + 7 + |BackendTag()| + 5 + 6
    ensures Laid(u + Element() + r, |u|, ModelTag(), BackendTag())
  {
    hide ModelTag, BackendTag;
    Parts();
    TpmLiterals();
  }

  lemma NotAt(w: string, j: nat, pat: string, k: nat)
    requires k < |pat| && (j + k < |w| ==> w[j + k] != pat[k])
    ensures !At(w, j, pat)
  {
  }

  lemma LaidTags(w: string, s: nat, m: string, b: string)
    requires Laid(w, s, m, b) && OneTag(m) && OneTag(b)
    ensures var bs := s + |m| + 7;
      && w[bs + 1] == b[1]
      && (forall x :: s < x < s + |m| ==> w[x] != '<') && (forall x :: bs < x < bs + |b| ==> w[x] != '<')
  {
    hide CLOSE_TPM, GAP, GAP2;
    var bs := s + |m| + 7;
    OneTagSpan(w, s, m);
    OneTagSpan(w, bs, b);
    assert w[bs + 1] == w[bs..bs + |b|][1];
  }

  lemma LaidGaps(w: string, s: nat, m: string, b: string)
    requires Laid(w, s, m, b)
    ensures var bs := s + |m| + 7;
      && (forall x :: s + |m| <= x < bs ==> w[x] != '<') && (forall x :: bs + |b| <= x < bs + |b| + 5 ==> w[x] != '<')
  {
    hide CLOSE_TPM, GAP, GAP2, ModelTag, BackendTag, OneTag, TagShape;
    Parts();
    var bs := s + |m| + 7;
    assert w[s + |m|..s + |m| + |GAP|] == GAP && w[bs + |b|..bs + |b| + |GAP2|] == GAP2;
    GapSpan(w, s + |m|, GAP);
    GapSpan(w, bs + |b|, GAP2);
  }

  lemma LaidChars(w: string, s: nat, m: string, b: string)
    requires Laid(w, s, m, b) && OneTag(m) && OneTag(b)
    ensures var bs, cs := s + |m| + 7, s + |m| + 7 + |b| + 5;
      && w[bs + 1] == b[1] && forall j :: s < j < cs && j != bs ==> w[j] != '<'
  {
    LaidTags(w, s, m, b);
    LaidGaps(w, s, m, b);
    hide Laid, OneTag;
  }

  lemma GapSpan(w: string, s: nat, g: string)
    requires s + |g| <= |w| && w[s..s + |g|] == g && forall i :: 0 <= i < |g| ==> g[i] != '<'
    ensures forall x :: s <= x < s + |g| ==> w[x] != '<'
  {
    assert forall x :: s <= x < s + |g| ==> w[x] == g[x - s];
  }

  lemma LaidClose(w: string, s: nat, m: string, b: string)
    requires Laid(w, s, m, b)
    ensures At(w, s + |m| + 7 + |b| + 5, CLOSE_TPM)
  {
    hide At, GAP, GAP2;
    var cs := s + |m| + 7 + |b| + 5;
    TpmLiterals();
    EndsAt(w, cs, CLOSE_TPM, cs + 6);
  }

  /** The first `</tpm>` behind the opening tag is the element's own. */
  lemma CloseFirst(w: string, s: nat, m: string, b: string)
    requires Laid(w, s, m, b) && OneTag(m) && OneTag(b) && |m| >= 6 && b[1] == 'b'
    ensures IndexFrom(w, CLOSE_TPM, s + 4) == s + |m| + 7 + |b| + 5
  {
    TpmLiterals();
    LaidChars(w, s, m, b);
    LaidClose(w, s, m, b);
    hide IndexFrom, At, Laid, OneTag, CLOSE_TPM;
    var bs, cs := s + |m| + 7, s + |m| + 7 + |b| + 5;
    forall j | s + 4 <= j < cs
      ensures !At(w, j, CLOSE_TPM)
    {
      NotAt(w, j, CLOSE_TPM, if j == bs then 1 else 0);
    }
    IndexFromIs(w, CLOSE_TPM, s + 4, cs);
  }

  lemma OpenFirst(w: string, s: nat, m: string)
    requires s + |m| <= |w| && w[s..s + |m|] == m && OneTag(m) && 6 <= |m|
    ensures CharFrom(w, '>', s + 4) == s + |m| - 1 && w[s + 4] == m[4] && w[s + |m| - 2] == m[|m| - 2]
  {
    OneTagSpan(w, s, m);
    assert forall x :: s <= x < s + |m| ==> w[x] == m[x - s];
    CharFromIs(w, '>', s + 4, s + |m| - 1);
  }

  /** The regular expression matches the added element as a whole. */
  lemma ElementEndsThere(u: string, r: string)
    ensures ElementEnd(u + Element() + r, |u|) == |u| + |Element()|
  {
    hide ModelTag, BackendTag, IndexFrom, Element, CharFrom;
    Parts();
    TpmLiterals();
    var w, m, b := u + Element() + r, ModelTag(), BackendTag();
    ElementLaid(u, r);
    OpenFirst(w, |u|, m);
    CloseFirst(w, |u|, m, b);
  }

  lemma OneTagSpan(w: string, s: nat, t: string)
    requires s + |t| <= |w| && w[s..s + |t|] == t && OneTag(t)
    ensures w[s] == '<' && w[s + |t| - 1] == '>'
    ensures forall x :: s < x < s + |t| ==> w[x] != '<'
    ensures forall x :: s <= x < s + |t| - 1 ==> w[x] != '>'
  {
    assert forall x :: s <= x < s + |t| ==> w[x] == t[x - s];
  }

  lemma IndexFromIs(s: string, pat: string, from: nat, i: nat)
    requires from <= i <= |s| && At(s, i, pat)
    requires forall j {:trigger At(s, j, pat)} :: from <= j < i ==> !At(s, j, pat)
    ensures IndexFrom(s, pat, from) == i
  {
  }

  /** In front of the added element no other one is found. */
  lemma ElementFoundThere(u: string, r: string)
    requires NoTpm(u)
    ensures ElementFrom(u + "    " + Element() + r, 0) == |u| + 4
  {
    hide ModelTag, BackendTag, IndexFrom, ElementEnd, Element, At, NoTpm;
    var x := u + "    ";
    var w := x + Element() + r;
    ElementEndsThere(x, r);
    ElementStarts(x, r);
    NoneInFront(u, Element() + r);
    assert u + "    " + (Element() + r) == w;
    IndexFromIs(w, TPM, 0, |x|);
  }

  lemma ElementStarts(x: string, r: string)
    ensures At(x + Element() + r, |x|, TPM)
  {
    hide ModelTag, BackendTag;
    Parts();
    var w, m := x + Element() + r, ModelTag();
    assert w[|x|..|x| + |m|] == m;
    AtSlice(w, |x|, |x| + |m|, TPM);
  }

  /** No `<tpm` starts in front of what follows the four spaces. */
  lemma NoneInFront(u: string, z: string)
    requires NoTpm(u)
    ensures var w := u + "    " + z;
      forall j {:trigger At(w, j, TPM)} :: 0 <= j < |u| + 4 ==> !At(w, j, TPM)
  {
    hide IndexFrom;
    TpmLiterals();
    var w := u + "    " + z;
    assert w == u + ("    " + z);
    forall j | 0 <= j < |u| + 4
      ensures !At(w, j, TPM)
    {
      if j + 4 <= |u| { AtFront(u, "    " + z, TPM, j); }
      else if j < |u| { assert w[j + (|u| - j)] == ' ' && IsBlank(' '); NotAt(w, j, TPM, |u| - j); }
      else { assert w[j + 0] == ' '; NotAt(w, j, TPM, 0); }
    }
  }

  lemma AddedText(u: string, v: string)
    ensures u + TPM_DEVICE + v == u + "    " + Element() + ("\n" + v) && |TPM_DEVICE| == |Element()| + 5
  {
    hide Element, TPM_DEVICE;
    DeviceText();
  }

  lemma AddedBlanks(u: string, r: string)
    ensures BlanksBefore(u + "    " + r, |u| + 4) == BlanksBefore(u, |u|)
  {
    var w := u + "    " + r;
    assert w[|u|] == ' ' && w[|u| + 1] == ' ' && w[|u| + 2] == ' ' && w[|u| + 3] == ' ';
    assert forall i :: 0 <= i < |u| ==> w[i] == u[i];
    BlanksIs(w, |u| + 4, BlanksBefore(u, |u|));
  }

  /** The match on a document to which the device was just added. */
  lemma AddedMatch(u: string, v: string)
    requires NoTpm(u) && 0 < |v| && !IsReSpace(v[0])
    ensures FindTpm(u + TPM_DEVICE + v) == Span(BlanksBefore(u, |u|), |u| + |TPM_DEVICE|)
  {
    hide Element, ElementFrom, ElementEnd, IndexFrom, TPM_DEVICE, BlanksBefore, SpaceAfter;
    AddedText(u, v);
    AddedElement(u, "\n" + v);
    AddedBlanks(u, Element() + ("\n" + v));
    AddedSpace(u + "    " + Element(), v);
    Assoc(u + "    ", Element(), "\n" + v);
  }

  lemma Assoc(x: string, y: string, z: string)
    ensures x + y + z == x + (y + z)
  {
  }

  lemma AddedSpace(x: string, v: string)
    requires 0 < |v| && !IsReSpace(v[0])
    ensures SpaceAfter(x + ("\n" + v), |x|) == |x| + 1
  {
    hide SpaceAfter;
    var w := x + ("\n" + v);
    assert w[|x|] == '\n' && w[|x| + 1] == v[0];
    SpaceIs(w, |x|, |x| + 1);
  }

  lemma AddedElement(u: string, r: string)
    requires NoTpm(u)
    ensures var w := u + "    " + Element() + r;
      ElementFrom(w, 0) == |u| + 4 && ElementEnd(w, |u| + 4) == |u| + 4 + |Element()|
  {
    hide Element, ElementFrom, ElementEnd;
    ElementFoundThere(u, r);
    ElementEndsThere(u + "    ", r);
  }

  lemma {:induction false} BlanksIs(w: string, p: nat, s: nat)
    requires s <= p <= |w| && (forall i :: s <= i < p ==> IsBlank(w[i])) && (s == 0 || !IsBlank(w[s - 1]))
    ensures BlanksBefore(w, p) == s
  {
    var b := BlanksBefore(w, p);
  }

  lemma SpaceIs(w: string, e: nat, f: nat)
    requires e <= f <= |w| && (forall i :: e <= i < f ==> IsReSpace(w[i])) && (f == |w| || !IsReSpace(w[f]))
    ensures SpaceAfter(w, e) == f
  {
    var g := SpaceAfter(w, e);
  }

  // ---------- reading the added device ----------

  lemma BlankFront(z: string, t: string, key: string)
    requires (forall i :: 0 <= i < |z| ==> IsBlank(z[i])) && NameOk(key) && key[0] != '\t'
    ensures AttrText(z + t, key) == AttrText(t, key)
  {
    hide At, CutQ;
    forall q: char, j | 0 <= j < |z|
      ensures !At(z + t, j, Key(key, q))
    {
      assert (z + t)[j] == z[j] && IsBlank(z[j]);
      NotAt(z + t, j, Key(key, q), 0);
    }
    CutBehind(z, t, Key(key, '\''), '\'');
    CutBehind(z, t, Key(key, '"'), '"');
  }

  lemma ReadModel()
    ensures NameOk("model") && "model"[0] == 'm' && AttrText(ModelTag(), "model") == "tpm-crb"
  {
    DeviceTags();
    assert "model" == ['m', 'o', 'd', 'e', 'l'];
    ReadRefines(TPM, [Attr("model", "tpm-crb")], ">", "model");
    WholeSuffix("model");
  }

  lemma ReadVersion()
    ensures AttrText(BackendTag(), "version") == "2.0"
  {
    DeviceTags();
    assert "version" == ['v', 'e', 'r', 's', 'i', 'o', 'n'];
    var attrs := [Attr("type", "emulator"), Attr("version", "2.0")];
    ReadRefines(BACKEND, attrs, "/>", "version");
    NotSuffix("type", "version");
    NotSuffix("emulator", "version" + "=");
    WholeSuffix("version");
    assert attrs[1..] == [Attr("version", "2.0")];
  }

  lemma TagInFront(z: string, t: string, r: string)
    requires (forall i :: 0 <= i < |z| ==> z[i] != '>') && OneTag(t)
    ensures FirstTag(z + t + r) == Some(z + t)
  {
    var m := z + t + r;
    assert forall x :: |z| <= x < |z| + |t| ==> m[x] == t[x - |z|];
    CharIs(m, '>', |z| + |t| - 1);
    assert m[..|z| + |t|] == z + t;
  }

  lemma BackendFound(z: string, r: string)
    requires forall i :: 0 <= i < |z| ==> IsBlank(z[i])
    ensures Index(z + Element() + r, BACKEND) == |z| + |ModelTag()| + 7
    ensures (z + Element() + r)[|z| + |ModelTag()| + 7..] == BackendTag() + (GAP2 + CLOSE_TPM + r)
  {
    hide ModelTag, BackendTag, At, IndexFrom, Index, BACKEND, CLOSE_TPM, Element;
    var bs := |z| + |ModelTag()| + 7;
    BackendThere(z, r);
    NoneBeforeBackend(z, r);
    IndexIs(z + Element() + r, BACKEND, bs);
  }

  lemma BackendThere(z: string, r: string)
    ensures At(z + Element() + r, |z| + |ModelTag()| + 7, BACKEND)
    ensures (z + Element() + r)[|z| + |ModelTag()| + 7..] == BackendTag() + (GAP2 + CLOSE_TPM + r)
  {
    hide ModelTag, BackendTag, At, BACKEND, CLOSE_TPM;
    var m, b := ModelTag(), BackendTag();
    var w, bs := z + Element() + r, |z| + |m| + 7;
    Parts();
    assert w[bs..bs + |b|] == b;
    AtSlice(w, bs, bs + |b|, BACKEND);
  }

  lemma NoneBeforeBackend(z: string, r: string)
    requires forall i :: 0 <= i < |z| ==> IsBlank(z[i])
    ensures var w := z + Element() + r;
      forall j {:trigger At(w, j, BACKEND)} :: 0 <= j < |z| + |ModelTag()| + 7 ==> !At(w, j, BACKEND)
  {
    hide ModelTag, BackendTag, At, BACKEND, CLOSE_TPM, GAP, GAP2;
    var m := ModelTag();
    var w, bs := z + Element() + r, |z| + |m| + 7;
    Parts();
    ElementLaid(z, r);
    LaidChars(w, |z|, m, BackendTag());
    BackendHead();
    forall j | 0 <= j < bs
      ensures !At(w, j, BACKEND)
    {
      if j < |z| { assert w[j] == z[j] && IsBlank(z[j]); }
      if j == |z| { assert w[j + 1] == m[1]; }
      NotAt(w, j, BACKEND, if j == |z| then 1 else 0);
    }
  }

  lemma BackendHead()
    ensures |BACKEND| == 8 && BACKEND[0] == '<' && BACKEND[1] == 'b' && ModelTag()[1] == 't'
  {
    ModelText();
  }

  lemma InfoOfMatch(z: string)
    requires forall i :: 0 <= i < |z| ==> IsBlank(z[i])
    ensures var m := z + Element() + "\n";
      && FirstTag(m) == Some(z + ModelTag()) && AttrText(z + ModelTag(), "model") == "tpm-crb"
      && Index(m, BACKEND) >= 0
      && FirstTag(m[Index(m, BACKEND)..]) == Some(BackendTag()) && AttrText(BackendTag(), "version") == "2.0"
  {
    hide ModelTag, BackendTag, At, IndexFrom, Index, AttrText, FirstTag;
    Parts();
    ReadModel();
    ReadVersion();
    BlankFront(z, ModelTag(), "model");
    BackendFound(z, "\n");
    TagInFront(z, ModelTag(), GAP + BackendTag() + GAP2 + CLOSE_TPM + "\n");
    TagInFront("", BackendTag(), GAP2 + CLOSE_TPM + "\n");
    ElementSplit(z);
    assert "" + BackendTag() + (GAP2 + CLOSE_TPM + "\n") == BackendTag() + (GAP2 + CLOSE_TPM + "\n");
    assert "" + BackendTag() == BackendTag();
  }

  lemma ElementSplit(z: string)
    ensures z + Element() + "\n" == z + ModelTag() + (GAP + BackendTag() + GAP2 + CLOSE_TPM + "\n")
  {
    hide ModelTag, BackendTag;
  }

  // ---------- add, read, remove ----------

  /** What is left of `u` without the spaces and tabs at its end. */
  function TrimBlanks(u: string): string {
    u[..BlanksBefore(u, |u|)]
  }

  lemma DevicesSplit(d: string)
    requires LastIndex(d, CLOSE_DEVICES) >= 0 && NoTpm(d)
    ensures var i := LastIndex(d, CLOSE_DEVICES);
      NoTpm(d[..i]) && NoTpm(d[i..]) && d[i..][0] == '<' && d == d[..i] + d[i..]
  {
    hide IndexFrom;
    TpmLiterals();
    var i := LastIndex(d, CLOSE_DEVICES);
    var u, v := d[..i], d[i..];
    assert d == u + v && d[i + 0] == CLOSE_DEVICES[0];
    if Index(u, TPM) >= 0 { AtFront(u, v, TPM, Index(u, TPM)); }
    if Index(v, TPM) >= 0 { AtShift(u, v, TPM, Index(v, TPM)); }
  }

  /** Adding the device to a document without one: it reads back as the device that was asked for. */
  lemma AddReads(d: string)
    requires NoTpm(d) && LastIndex(d, CLOSE_DEVICES) >= 0
    ensures var i := LastIndex(d, CLOSE_DEVICES);
      && SetTpmXML(d, true) == Ok(d[..i] + TPM_DEVICE + d[i..])
      && InfoXML(d[..i] + TPM_DEVICE + d[i..]) == TpmInfo(true, "tpm-crb", "2.0")
  {
    hide TPM_DEVICE, ElementFrom, AttrText, FirstTag, Index, IndexFrom, Element, LastIndexBelow;
    DevicesSplit(d);
    AbsentTpm(d);
    var i := LastIndex(d, CLOSE_DEVICES);
    var u, v := d[..i], d[i..];
    AddedMatch(u, v);
    AddedMatchText(u, v);
    var z := u[BlanksBefore(u, |u|)..] + "    ";
    InfoOfMatch(z);
  }

  lemma AbsentTpm(w: string)
    requires NoTpm(w)
    ensures FindTpm(w) == NoSpan && RemoveTpm(w) == w
  {
  }

  lemma AddedMatchText(u: string, v: string)
    ensures var s := BlanksBefore(u, |u|); var z := u[s..] + "    ";
      && (u + TPM_DEVICE + v)[s..|u| + |TPM_DEVICE|] == z + Element() + "\n"
      && forall i :: 0 <= i < |z| ==> IsBlank(z[i])
  {
    hide Element, TPM_DEVICE;
    DeviceText();
    var s := BlanksBefore(u, |u|);
    var z := u[s..] + "    ";
    forall i | 0 <= i < |z| ensures IsBlank(z[i]) {
      if i < |u| - s { assert z[i] == u[s + i]; } else { assert z[i] == ' '; }
    }
    assert (u + TPM_DEVICE + v)[s..|u| + |TPM_DEVICE|] == u[s..] + TPM_DEVICE;
    assert u[s..] + ("    " + Element() + "\n") == u[s..] + "    " + Element() + "\n";
  }

  /** Removing what was just added gives back the original, less exactly the spaces and tabs in
      front of its last `</devices>`. */
  lemma RemoveAfterAdd(d: string)
    requires NoTpm(d) && LastIndex(d, CLOSE_DEVICES) >= 0
    ensures var i := LastIndex(d, CLOSE_DEVICES);
      && SetTpmXML(d, true).Ok?
      && SetTpmXML(SetTpmXML(d, true).value, false) == Ok(TrimBlanks(d[..i]) + d[i..])
  {
    AddReads(d);
    DevicesSplit(d);
    var i := LastIndex(d, CLOSE_DEVICES);
    hide TPM_DEVICE, InfoXML, Index, LastIndex, NoTpm, RemoveTpm, BlanksBefore;
    RemovesAdded(d[..i], d[i..]);
  }

  lemma RemovesAdded(u: string, v: string)
    requires NoTpm(u) && NoTpm(v) && 0 < |v| && !IsReSpace(v[0])
    ensures RemoveTpm(u + TPM_DEVICE + v) == TrimBlanks(u) + v
  {
    hide TPM_DEVICE, FindTpm, BlanksBefore, NoTpm;
    AddedMatch(u, v);
    AbsentTpm(v);
    var s, w := BlanksBefore(u, |u|), u + TPM_DEVICE + v;
    assert s <= |u|;
    assert w[..s] == u[..s] && w[|u| + |TPM_DEVICE|..] == v;
  }

  /** Once trimmed, adding and removing the device is the identity. */
  lemma AddRemoveFixpoint(d: string)
    requires NoTpm(d) && LastIndex(d, CLOSE_DEVICES) >= 0
    ensures var i := LastIndex(d, CLOSE_DEVICES); var d2 := TrimBlanks(d[..i]) + d[i..];
      && SetTpmXML(d2, true).Ok? && SetTpmXML(SetTpmXML(d2, true).value, false) == Ok(d2)
  {
    hide TPM_DEVICE, ElementFrom, AttrText, FirstTag, IndexFrom, LastIndexBelow, FindTpm, SetTpmXML;
    DevicesSplit(d);
    var i := LastIndex(d, CLOSE_DEVICES);
    var u, v := TrimBlanks(d[..i]), d[i..];
    var d2 := u + v;
    TrimmedDevices(d);
    RemoveAfterAdd(d2);
    assert d2[..|u|] == u && d2[|u|..] == v;
    BlanksIs(u, |u|, |u|);
    assert TrimBlanks(u) == u;
    assert LastIndex(d2, CLOSE_DEVICES) == |u|;
  }

  lemma TrimmedDevices(d: string)
    requires NoTpm(d) && LastIndex(d, CLOSE_DEVICES) >= 0
    ensures var i := LastIndex(d, CLOSE_DEVICES); var u := TrimBlanks(d[..i]);
      && NoTpm(u + d[i..]) && LastIndex(u + d[i..], CLOSE_DEVICES) == |u|
      && (|u| == 0 || !IsBlank(u[|u| - 1]))
  {
    hide IndexFrom, LastIndexBelow;
    TpmLiterals();
    DevicesSplit(d);
    var i := LastIndex(d, CLOSE_DEVICES);
    var u, v := TrimBlanks(d[..i]), d[i..];
    var w := u + v;
    forall j | 0 <= j < |w|
      ensures !At(w, j, TPM)
    {
      if j + 4 <= |u| {
        AtFront(u, v, TPM, j);
        AtFront(u, d[|u|..], TPM, j);
        assert u + d[|u|..] == d;
      } else if j < |u| {
        assert w[j + (|u| - j)] == '<' && TPM[|u| - j] != '<';
      } else {
        AtShift(u, v, TPM, j - |u|);
      }
    }
    assert At(v, 0, CLOSE_DEVICES) by { AtShift(d[..i], v, CLOSE_DEVICES, 0); }
    AtShift(u, v, CLOSE_DEVICES, 0);
    forall j | |u| < j
      ensures !At(w, j, CLOSE_DEVICES)
    {
      AtShift(u, v, CLOSE_DEVICES, j - |u|);
      AtShift(d[..i], v, CLOSE_DEVICES, j - |u|);
    }
  }
}
