/** internal/virsh/vnc.go: reading and editing the VNC console in raw domain XML. */
module VncXml {
  import opened GoStrings
  import opened AttrList

  datatype Span = NoSpan | Span(start: nat, end: nat)
  datatype Result<+T> = Ok(value: T) | NoDevice

  const GRAPHICS := "<graphics"
  const CLOSE_GRAPHICS := "</graphics>"
  const LISTEN := "<listen"

  predicate IsVncTag(t: string) {
    Contains(t, "type='vnc'") || Contains(t, "type=\"vnc\"")
  }

  lemma GraphicsHead()
    ensures HeadOk(GRAPHICS)
  {
    assert GRAPHICS == ['<', 'g', 'r', 'a', 'p', 'h', 'i', 'c', 's'];
  }

  /** A tag opens with `head` and has its only `>` at the end. */
  predicate TagShape(head: string, t: string) {
    && At(t, 0, head) && 0 < |t|
    && t[|t| - 1] == '>'
    && forall i :: 0 <= i < |t| - 1 ==> t[i] != '>'
  }

  /** The first tag at or after `off` that has the given head and passes the test. */
  function TagFrom(head: string, test: string -> bool, d: string, off: nat): (r: Span)
    requires HeadOk(head) && off <= |d|
    ensures r.Span? ==> off <= r.start < r.end <= |d|
    decreases |d| - off
  {
    var abs := IndexFrom(d, head, off);
    if abs < 0 then NoSpan else
    var gt := CharFrom(d, '>', abs);
    if gt < 0 then NoSpan else
    var tagEnd := gt + 1;
    if test(d[abs..tagEnd]) then Span(abs, tagEnd) else TagFrom(head, test, d, tagEnd)
  }

  lemma TagFound(head: string, test: string -> bool, d: string, off: nat)
    requires HeadOk(head) && off <= |d| && TagFrom(head, test, d, off).Span?
    ensures var r := TagFrom(head, test, d, off); TagShape(head, d[r.start..r.end]) && test(d[r.start..r.end])
  {
    hide *;
    var Span(s, e) := TagFrom(head, test, d, off);
    TagFoundAt(head, test, d, off, s, e);
  }

  lemma {:induction false} TagFoundAt(head: string, test: string -> bool, d: string, off: nat, s: nat, e: nat)
    requires HeadOk(head) && off <= |d| && TagFrom(head, test, d, off) == Span(s, e)
    ensures TagShape(head, d[s..e]) && test(d[s..e])
    decreases |d| - off
  {
    hide *;
    TagUnfold(head, test, d, off, s, e);
    var abs := IndexFrom(d, head, off);
    var gt := CharFrom(d, '>', abs);
    if abs == s {
      TagShapeFound(head, d, s, e - 1);
      assert e - 1 + 1 == e;
    } else {
      TagFoundAt(head, test, d, gt + 1, s, e);
    }
  }

  /** One round of the search. */
  lemma TagUnfold(head: string, test: string -> bool, d: string, off: nat, s: nat, e: nat)
    requires HeadOk(head) && off <= |d| && TagFrom(head, test, d, off) == Span(s, e)
    ensures var abs := IndexFrom(d, head, off);
      && off <= abs <= s < e <= |d| && 0 <= CharFrom(d, '>', abs) && At(d, abs, head)
      && var gt := CharFrom(d, '>', abs);
      && (abs == s ==> e == gt + 1 && test(d[s..e]))
      && (abs != s ==> !test(d[abs..gt + 1]) && TagFrom(head, test, d, gt + 1) == Span(s, e) && gt + 1 <= s)
  {
    hide IndexFrom, CharFrom, HeadOk;
    var abs := IndexFrom(d, head, off);
  }

  lemma HeadChars(head: string, d: string, abs: nat)
    requires HeadOk(head) && At(d, abs, head)
    ensures forall x :: abs <= x < abs + |head| ==> d[x] != ' ' && d[x] != '>'
  {
    forall x | abs <= x < abs + |head| ensures d[x] != ' ' && d[x] != '>' {
      assert d[abs + (x - abs)] == head[x - abs];
    }
  }

  lemma TagShapeFound(head: string, d: string, abs: nat, gt: nat)
    requires HeadOk(head) && At(d, abs, head) && abs <= gt < |d| && d[gt] == '>'
    requires forall j :: abs <= j < gt ==> d[j] != '>'
    ensures TagShape(head, d[abs..gt + 1])
  {
    HeadChars(head, d, abs);
    assert d[abs..gt + 1][..|head|] == d[abs..abs + |head|];
  }

  /** The first VNC `<graphics ...>` opening tag. */
  function OpenTag(d: string): (r: Span)
    ensures r.Span? ==> r.start < r.end <= |d| && TagShape(GRAPHICS, d[r.start..r.end]) && IsVncTag(d[r.start..r.end])
  {
    GraphicsHead();
    var r := TagFrom(GRAPHICS, IsVncTag, d, 0);
    if r.Span? then TagFound(GRAPHICS, IsVncTag, d, 0); r else r
  }

  /** vncOpenTag: the loop that advances `off` past every non-VNC `<graphics>` tag. */
  method VncOpenTag(d: string) returns (tag: string, start: nat, end: nat, found: bool)
    ensures found == OpenTag(d).Span?
    ensures found ==> OpenTag(d) == Span(start, end) && tag == d[start..end]
    ensures !found ==> tag == "" && start == 0 && end == 0
  {
    GraphicsHead();
    var off := 0;
    while true
      invariant off <= |d| && OpenTag(d) == TagFrom(GRAPHICS, IsVncTag, d, off)
      decreases |d| - off
    {
      var abs := IndexFrom(d, GRAPHICS, off);
      if abs < 0 { return "", 0, 0, false; }
      var gt := CharFrom(d, '>', abs);
      if gt < 0 { return "", 0, 0, false; }
      var tagEnd := gt + 1;
      var t := d[abs..tagEnd];
      if IsVncTag(t) { return t, abs, tagEnd, true; }
      off := tagEnd;
    }
  }

  // ---------- the <listen> child ----------

  predicate SelfClosing(tag: string) {
    EndsWith(TrimSpace(tag), "/>")
  }

  /** The first `<listen ...>` tag of an element body. */
  function ChildIn(body: string): Span {
    var i := Index(body, LISTEN);
    if i < 0 then NoSpan else
    var j := CharFrom(body, '>', i);
    if j < 0 then NoSpan else Span(i, j + 1)
  }

  /** vncListenChild, as offsets into `w`, the text after the opening tag. */
  function ChildSpan(w: string): (r: Span)
    ensures r.Span? ==> r.start < r.end <= |w| && At(w, r.start, LISTEN)
  {
    var close := Index(w, CLOSE_GRAPHICS);
    if close < 0 then NoSpan else
    var r := ChildIn(w[..close]);
    assert r.Span? ==> At(w, r.start, LISTEN);
    r
  }

  /** vncListenChild. */
  function ListenChild(d: string, tag: string, end: nat): string
    requires end <= |d|
  {
    if SelfClosing(tag) then "" else
    match ChildSpan(d[end..])
    case NoSpan => ""
    case Span(s, e) => d[end..][s..e]
  }

  // ---------- readers ----------

  datatype Info = Info(found: bool, hasPassword: bool, listen: string)
  datatype Port = Port(port: Int, auto: bool)

  /** vncGraphicsInfo: the child's address wins over the attribute. */
  function GraphicsInfo(d: string): Info {
    match OpenTag(d)
    case NoSpan => Info(false, false, "")
    case Span(s, e) =>
      var tag := d[s..e];
      var child := ListenChild(d, tag, e);
      var addr := if child != "" then AttrText(child, "address") else "";
      Info(true, AttrText(tag, "passwd") != "", if addr != "" then addr else AttrText(tag, "listen"))
  }

  /** The port an attribute value stands for; 0 for none. */
  function PortNumber(v: string): (p: Int)
    ensures p >= 0 && forall n: Int :: n > 0 ==> (p == n <==> Atoi(v) == Some(n))
  {
    match Atoi(v) case Some(p) => if p > 0 then p else 0 case None => 0
  }

  /** vncGraphicsPort. */
  function GraphicsPort(d: string): Port {
    match OpenTag(d)
    case NoSpan => Port(0, false)
    case Span(s, e) =>
      var tag := d[s..e];
      Port(PortNumber(AttrText(tag, "port")), AttrText(tag, "autoport") != "no")
  }

  /** The password on the console's tag, "" without one. */
  function ConsolePassword(d: string): string {
    match OpenTag(d)
    case NoSpan => ""
    case Span(s, e) => AttrText(d[s..e], "passwd")
  }

  /** The reader says whether there is one. */
  lemma PasswordSeen(d: string)
    ensures GraphicsInfo(d).hasPassword <==> ConsolePassword(d) != ""
    ensures GraphicsInfo(d).found <==> OpenTag(d).Span?
    ensures !GraphicsInfo(d).found ==> ConsolePassword(d) == "" && GraphicsInfo(d).listen == ""
  {
    hide AttrText, ListenChild, OpenTag;
  }

  // ---------- writers ----------

  function ListenAttrs(listen: string, port: Int): string {
    " listen='" + listen + "'" +
    (if port > 0 then " port='" + Itoa(port) + "' autoport='no'" else " autoport='yes'")
  }

  lemma KeyBehindHead(tag: string, attr: string, q: char)
    requires At(tag, 0, GRAPHICS)
    ensures var i := Index(tag, Key(" " + attr, q)); i < 0 || i >= |GRAPHICS|
  {
    GraphicsHead();
    HeadChars(GRAPHICS, tag, 0);
    var c := Key(" " + attr, q)[0];
  }

  /** Every match of ` attr=` lies behind the head, so slicing the head off cannot fail. */
  lemma DropKeepsHead(tag: string, attr: string)
    requires At(tag, 0, GRAPHICS)
    ensures At(DropText(tag, attr), 0, GRAPHICS)
  {
    KeyBehindHead(tag, attr, '\'');
    KeyBehindHead(tag, attr, '"');
  }

  /** The new opening tag of setGraphicsListenXML. */
  function ListenTag(tag: string, listen: string, port: Int): string
    requires At(tag, 0, GRAPHICS)
  {
    DropKeepsHead(tag, "listen");
    var t1 := DropText(tag, "listen");
    DropKeepsHead(t1, "port");
    var t2 := DropText(t1, "port");
    DropKeepsHead(t2, "autoport");
    var stripped := DropText(t2, "autoport");
    GRAPHICS + ListenAttrs(listen, port) + stripped[|GRAPHICS|..]
  }

  function Replacement(listen: string): string {
    "<listen type='address' address='" + listen + "'/>"
  }

  /** The second half of setGraphicsListenXML: re-locate the element in the rewritten document, find
      its child, then find the child's text again and replace it. */
  function ReplaceListenChild(out: string, listen: string): string {
    match OpenTag(out)
    case NoSpan => out
    case Span(start2, end2) =>
      var child := ListenChild(out, out[start2..end2], end2);
      if child == "" then out else
      var idx := Index(out[end2..], child);
      if idx < 0 then out else
      var abs := end2 + idx;
      out[..abs] + Replacement(listen) + out[abs + |child|..]
  }

  /** setGraphicsListenXML. */
  function SetListenXML(d: string, listen: string, port: Int): Result<string> {
    match OpenTag(d)
    case NoSpan => NoDevice
    case Span(start, end) =>
      Ok(ReplaceListenChild(d[..start] + ListenTag(d[start..end], listen, port) + d[end..], listen))
  }

  /** The new opening tag of setGraphicsPasswordXML. */
  function PasswordTag(tag: string, pw: string): string
    requires At(tag, 0, GRAPHICS)
  {
    DropKeepsHead(tag, "passwd");
    var stripped := DropText(tag, "passwd");
    if pw == "" then stripped else GRAPHICS + " passwd='" + pw + "'" + stripped[|GRAPHICS|..]
  }

  /** setGraphicsPasswordXML. */
  function SetPasswordXML(d: string, pw: string): Result<string> {
    match OpenTag(d)
    case NoSpan => NoDevice
    case Span(start, end) => Ok(d[..start] + PasswordTag(d[start..end], pw) + d[end..])
  }
}
