/** internal/virsh/tpm.go: the TPM device in raw domain XML. */
module TpmXml {
  import opened GoStrings
  import opened AttrList
  import opened VncXml
  import VncDoc

  const TPM := "<tpm"
  const CLOSE_TPM := "</tpm>"
  const BACKEND := "<backend"
  const CLOSE_DEVICES := "</devices>"

  const LINE1 := "    " + "<tpm model='tpm-crb'>" + "\n"
  const LINE2 := "      " + "<backend type='emulator' version='2.0'/>" + "\n"
  const LINE3 := "    " + "</tpm>" + "\n"

  /** tpmDevice. */
  const TPM_DEVICE := LINE1 + LINE2 + LINE3

  // ---------- tpmDeviceRe, by hand ----------

  /** RE2's `\s`. */
  predicate IsReSpace(c: char) { c == ' ' || c == '\t' || c == '\n' || c == '\r' || c == '\U{000C}' }

  /** RE2's word characters, for `\b`. */
  predicate IsWord(c: char) { 'a' <= c <= 'z' || 'A' <= c <= 'Z' || '0' <= c <= '9' || c == '_' }

  /** The end of the element whose `<tpm` stands at `p`: `\b`, then `[^>]*\/>`, or else the first
      `</tpm>`; -1 if neither is there. */
  function ElementEnd(w: string, p: nat): (e: int)
    requires p + |TPM| <= |w|
    ensures e == -1 || p + |TPM| < e <= |w|
  {
    var q := p + |TPM|;
    if q < |w| && IsWord(w[q]) then -1 else
    var gt := CharFrom(w, '>', q);
    if gt > q && w[gt - 1] == '/' then gt + 1 else
    var c := IndexFrom(w, CLOSE_TPM, q);
    if c >= 0 then c + |CLOSE_TPM| else -1
  }

  /** The first `<tpm` at or after `from` that opens a complete element. */
  function ElementFrom(w: string, from: nat): (p: int)
    requires from <= |w|
    ensures p == -1 || (from <= p && At(w, p, TPM) && ElementEnd(w, p) > 0)
    ensures forall j {:trigger At(w, j, TPM)} ::
        from <= j && (p == -1 || j < p) && At(w, j, TPM) ==> ElementEnd(w, j) == -1
    decreases |w| - from
  {
    var p := IndexFrom(w, TPM, from);
    if p < 0 then -1
    else if ElementEnd(w, p) > 0 then p
    else ElementFrom(w, p + 1)
  }

  /** Back over `[ \t]*`. */
  function BlanksBefore(w: string, p: nat): (s: nat)
    requires p <= |w|
    ensures s <= p && (forall i :: s <= i < p ==> IsBlank(w[i])) && (s == 0 || !IsBlank(w[s - 1]))
  {
    if p > 0 && IsBlank(w[p - 1]) then BlanksBefore(w, p - 1) else p
  }

  /** Forward over `\s*\n?`. */
  function SpaceAfter(w: string, e: nat): (f: nat)
    requires e <= |w|
    ensures e <= f <= |w| && (forall i :: e <= i < f ==> IsReSpace(w[i])) && (f == |w| || !IsReSpace(w[f]))
    decreases |w| - e
  {
    if e < |w| && IsReSpace(w[e]) then SpaceAfter(w, e + 1) else e
  }

  /** tpmDeviceRe.FindStringIndex: the leftmost match. */
  function FindTpm(w: string): (r: Span)
    ensures r.Span? ==> r.start < r.end <= |w|
  {
    var p := ElementFrom(w, 0);
    if p < 0 then NoSpan else Span(BlanksBefore(w, p), SpaceAfter(w, ElementEnd(w, p)))
  }

  /** tpmDeviceRe.ReplaceAllString(w, ""). */
  function RemoveTpm(w: string): string {
    match FindTpm(w)
    case NoSpan => w
    case Span(s, e) => w[..s] + RemoveTpm(w[e..])
  }

  // ---------- reading and writing ----------

  datatype TpmInfo = TpmInfo(present: bool, model: string, version: string)

  /** The tag starting at the front of `m`. */
  function FirstTag(m: string): Option<string> {
    var i := CharFrom(m, '>', 0);
    if i >= 0 then Some(m[..i + 1]) else None
  }

  /** tpmInfoXML. */
  function InfoXML(d: string): TpmInfo {
    match FindTpm(d)
    case NoSpan => TpmInfo(false, "", "")
    case Span(s, e) =>
      var m := d[s..e];
      var model := AttrText(match FirstTag(m) case Some(t) => t case None => m, "model");
      var i := Index(m, BACKEND);
      var version :=
        if i < 0 then "" else
        match FirstTag(m[i..]) case Some(t) => AttrText(t, "version") case None => "";
      TpmInfo(true, model, version)
  }

  /** setTPMXML. */
  function SetTpmXML(d: string, enabled: bool): Result<string> {
    var present := InfoXML(d).present;
    if enabled && present then Ok(d)
    else if enabled then
      var i := LastIndex(d, CLOSE_DEVICES);
      if i < 0 then NoDevice else Ok(d[..i] + TPM_DEVICE + d[i..])
    else if present then Ok(RemoveTpm(d))
    else Ok(d)
  }

  // ---------- the match in front of arbitrary text ----------

  lemma TpmLiterals()
    ensures |TPM| == 4 && |CLOSE_TPM| == 6 && |CLOSE_DEVICES| == 10
    ensures TPM[0] == '<' && forall k :: 1 <= k < 4 ==> TPM[k] != '<' && TPM[k] != '>' && !IsBlank(TPM[k])
    ensures CLOSE_TPM[0] == '<' && CLOSE_TPM[1] == '/' && CLOSE_TPM[5] == '>'
    ensures forall k :: 1 <= k < 5 ==> CLOSE_TPM[k] != '<' && CLOSE_TPM[k] != '>'
    ensures CLOSE_DEVICES[0] == '<' && CLOSE_DEVICES[1] == '/'
  {
    assert TPM == ['<', 't', 'p', 'm'];
    assert CLOSE_TPM == ['<', '/', 't', 'p', 'm', '>'];
    assert CLOSE_DEVICES == ['<', '/', 'd', 'e', 'v', 'i', 'c', 'e', 's', '>'];
  }

  /** Between any two `<` there is a `>`: no tag opens inside another. */
  predicate WellNested(w: string) {
    forall i, j :: 0 <= i < j < |w| && w[i] == '<' && w[j] == '<' ==> exists k :: i < k < j && w[k] == '>'
  }

  /** Every `<` is closed within the text. */
  predicate AllClosed(u: string) {
    forall i :: 0 <= i < |u| && u[i] == '<' ==> exists k :: i < k < |u| && u[k] == '>'
  }

  /** No occurrence straddles the end of a closed text when the pattern has its only `>` at the end, if any. */
  lemma NoStraddle(u: string, r: string, pat: string, j: int)
    requires AllClosed(u) && 0 < |pat| && pat[0] == '<' && forall k :: 0 <= k < |pat| - 1 ==> pat[k] != '>'
    requires 0 <= j < |u| < j + |pat|
    ensures !At(u + r, j, pat)
  {
    var s := u + r;
    if u[j] == '<' {
      var k :| j < k < |u| && u[k] == '>';
      assert s[j + (k - j)] != pat[k - j];
    } else {
      assert s[j + 0] != pat[0];
    }
  }

  lemma AtFront(u: string, r: string, pat: string, j: int)
    requires 0 <= j && j + |pat| <= |u|
    ensures At(u + r, j, pat) <==> At(u, j, pat)
  {
    assert forall x :: 0 <= x < |u| ==> (u + r)[x] == u[x];
  }

  // ---------- the element that is added ----------

  function ModelTag(): string { Tag(TPM, [Attr("model", "tpm-crb")], ">") }

  function BackendTag(): string { Tag(BACKEND, [Attr("type", "emulator"), Attr("version", "2.0")], "/>") }

  const GAP := "\n      "
  const GAP2 := "\n    "

  function Element(): string {
    ModelTag() + GAP + BackendTag() + GAP2 + CLOSE_TPM
  }

  lemma ModelText()
    ensures ModelTag() == "<tpm model='tpm-crb'>"
  {
    var m := Attr("model", "tpm-crb");
    BodyCons(m, [], ">");
    assert [m] + [] == [m];
    assert Chunk(m) == " model='tpm-crb'" by {
      assert " " + "model" + "='" == " model='";
      assert " model='" + "tpm-crb" + "'" == " model='tpm-crb'";
    }
    assert TPM + (" model='tpm-crb'" + ">") == "<tpm model='tpm-crb'>";
  }

  lemma BackendText()
    ensures BackendTag() == "<backend type='emulator' version='2.0'/>"
  {
    hide Chunk, Body;
    var t, v := Attr("type", "emulator"), Attr("version", "2.0");
    VncDoc.BodyTwo(t, v, "/>");
    BackendChunks();
    assert BACKEND + " type='emulator'" == "<backend type='emulator'";
    assert " version='2.0'" + "/>" == " version='2.0'/>";
    Outer(BACKEND, " type='emulator'", " version='2.0'", "/>");
    assert "<backend type='emulator'" + " version='2.0'/>" == "<backend type='emulator' version='2.0'/>";
  }

  lemma Outer(a: string, b: string, c: string, d: string)
    ensures a + ((b + c) + d) == (a + b) + (c + d)
  {
  }

  lemma BackendChunks()
    ensures Chunk(Attr("type", "emulator")) == " type='emulator'"
    ensures Chunk(Attr("version", "2.0")) == " version='2.0'"
  {
    assert " " + "type" + "='" == " type='" && " " + "version" + "='" == " version='";
    assert " type='" + "emulator" + "'" == " type='emulator'";
    assert " version='" + "2.0" + "'" == " version='2.0'";
  }

  lemma Line1Text()
    ensures LINE1 == "    " + ModelTag() + "\n"
  {
    ModelText();
    hide ModelTag;
  }

  lemma Line2Text()
    ensures LINE2 == "      " + BackendTag() + "\n"
  {
    BackendText();
    hide BackendTag;
  }

  lemma DeviceText()
    ensures TPM_DEVICE == "    " + Element() + "\n"
  {
    hide ModelTag, BackendTag;
    Line1Text();
    Line2Text();
    var m, b := ModelTag(), BackendTag();
    assert LINE3 == "    " + CLOSE_TPM + "\n";
    assert GAP == "\n" + "      " && GAP2 == "\n" + "    ";
    Regroup("    ", m, "\n", "      ", b, CLOSE_TPM);
  }

  lemma Regroup(a: string, m: string, n: string, c: string, b: string, e: string)
    ensures (a + m + n) + (c + b + n) + (a + e + n) == a + (m + (n + c) + b + (n + a) + e) + n
  {
  }

  lemma DeviceTags()
    ensures HeadOk(TPM) && HeadOk(BACKEND) && TailOk(">") && TailOk("/>")
    ensures Shaped([Attr("model", "tpm-crb")]) && Shaped([Attr("type", "emulator"), Attr("version", "2.0")])
  {
    DeviceHeads();
    ModelOk();
    BackendOk();
    hide NameOk, ValueOk, HeadOk, TailOk;
  }

  lemma DeviceHeads()
    ensures HeadOk(TPM) && HeadOk(BACKEND) && TailOk(">") && TailOk("/>")
  {
    assert TPM == ['<', 't', 'p', 'm'];
    assert BACKEND == ['<', 'b', 'a', 'c', 'k', 'e', 'n', 'd'];
  }

  lemma ModelOk()
    ensures NameOk("model") && ValueOk("tpm-crb")
  {
    assert "model" == ['m', 'o', 'd', 'e', 'l'] && "tpm-crb" == ['t', 'p', 'm', '-', 'c', 'r', 'b'];
  }

  lemma BackendOk()
    ensures NameOk("type") && ValueOk("emulator") && NameOk("version") && ValueOk("2.0")
  {
    assert "type" == ['t', 'y', 'p', 'e'] && "emulator" == ['e', 'm', 'u', 'l', 'a', 't', 'o', 'r'];
    assert "version" == ['v', 'e', 'r', 's', 'i', 'o', 'n'] && "2.0" == ['2', '.', '0'];
  }
}
