/**
 The reconcilers' protocol on the documents themselves: what a loop checks is what the readers of
 vnc.go and tpm.go find in the text, what it defines is the edited text of its dump.  Every step
 refines a step of the item protocol, so every interleaving converges to a document that satisfies
 every pin.
*/
module TextProtocol {
  import opened GoStrings
  import AttrList
  import VncStore
  import opened VncXml
  import opened VncDoc
  import opened VncLaws
  import opened VncTheorems
  import opened TpmXml
  import opened Pages
  import opened Protocol

  /** What is pinned for one VM across the four stores. */
  datatype VmPins = VmPins(password: string, listen: string, port: Int, tpm: bool, devices: set<Item>)

  predicate PinsOk(pins: VmPins) {
    && (pins.password != "" ==> CleanPassword(pins.password))
    && (pins.listen != "" ==> AddressOk(pins.listen))
    && forall x :: x in pins.devices ==> x.Usb? || x.Pci?
  }

  function One(b: bool, x: Item): set<Item> { if b then {x} else {} }

  function Items(pins: VmPins): set<Item> {
    One(pins.password != "", Password) + One(pins.listen != "", Listen) + One(pins.tpm, Tpm) + pins.devices
  }

  function Found(password: bool, listen: bool, tpm: bool, devices: set<Item>): set<Item> {
    One(password, Password) + One(listen, Listen) + One(tpm, Tpm) + devices
  }

  lemma FoundMore(p: bool, l: bool, t: bool, d: set<Item>, x: Item)
    ensures forall m :: Found(true, m, t, d) - {Listen} == Found(p, l, t, d) + {Password} - {Listen}
    ensures Found(p, true, t, d) == Found(p, l, t, d) + {Listen}
    ensures Found(p, l, true, d) == Found(p, l, t, d) + {Tpm}
    ensures Found(p, l, t, d + {x}) == Found(p, l, t, d) + {x}
  {
  }

  /** A persistent config: its text, and the passthrough devices encoding/xml would find in it. */
  datatype Config = Config(text: string, devices: set<Item>)

  /** The drift test of the VNC reconciler. */
  predicate ListenHolds(listen: string, port: Int, text: string) {
    GraphicsInfo(text).listen == listen && !VncStore.PortDrifted(port, GraphicsPort(text))
  }

  /** What the four loops' checks find. */
  function Present(pins: VmPins, c: Config): set<Item> {
    Found(GraphicsInfo(c.text).hasPassword, ListenHolds(pins.listen, pins.port, c.text), InfoXML(c.text).present,
        c.devices)
  }

  function Text(r: Result<string>, old_: string): string {
    match r case Ok(t) => t case NoDevice => old_
  }

  /** The edit a loop makes to its dump for one missing item. */
  function Edit(pins: VmPins, x: Item, c: Config): Config {
    match x
    case Password => c.(text := Text(SetPasswordXML(c.text, pins.password), c.text))
    case Listen => c.(text := Text(SetListenXML(c.text, pins.listen, pins.port), c.text))
    case Tpm => c.(text := Text(SetTpmXML(c.text, true), c.text))
    case _ => c.(devices := c.devices + {x})
  }

  ghost predicate GoodConfig(c: Config) {
    && (exists page: Page :: page.Good() && page.Text() == c.text)
    && forall x :: x in c.devices ==> x.Usb? || x.Pci?
  }

  // ---------- one edit ----------

  /** An edit adds exactly its item, as the checks see it, and leaves a good document; only a password
      edit may change something else they see, which is the address. */
  lemma EditAdds(pins: VmPins, x: Item, c: Config)
    requires PinsOk(pins) && x in Items(pins) && GoodConfig(c)
    ensures GoodConfig(Edit(pins, x, c)) && Edited(x, Present(pins, c), Present(pins, Edit(pins, x, c)))
  {
    hide InfoXML, GraphicsInfo, GraphicsPort, SetPasswordXML, SetListenXML, SetTpmXML, Page.Good, Page.Text,
        Found, CleanPassword, AddressOk;
    var page: Page :| page.Good() && page.Text() == c.text;
    var t := c.text;
    FoundMore(GraphicsInfo(t).hasPassword, ListenHolds(pins.listen, pins.port, t), InfoXML(t).present, c.devices, x);
    match x
    case Password => PasswordAdds(pins, page);
    case Listen => ListenAdds(pins, page);
    case Tpm => TpmAdds(page);
    case _ =>
  }

  lemma Parts(page: Page)
    requires page.Good()
    ensures page.Doc().Valid() && Clean(page.attrs) && page.Text() == page.Doc().Text()
  {
  }

  lemma PasswordAdds(pins: VmPins, page: Page)
    requires page.Good() && pins.password != "" && CleanPassword(pins.password)
    ensures var q := page.WithPassword(pins.password); var d, e := page.Text(), q.Text();
      && q.Good() && SetPasswordXML(d, pins.password) == Ok(e) && GraphicsInfo(e).hasPassword
      && InfoXML(e).present == InfoXML(d).present
  {
    hide InfoXML, GraphicsInfo, GraphicsPort, SetPasswordXML, Page.Good, CleanPassword, Quiet, Clean, Doc.Valid,
        Doc.Text, AttrList.DropFirst, AttrList.ReadFirst;
    PasswordStaysGood(page, pins.password);
    Parts(page);
    Loopback();
    EditsRead(page.Doc(), pins.password, "127.0.0.1", 0);
    assert page.WithPassword(pins.password).Doc() == page.Doc().WithPassword(pins.password);
  }

  lemma ListenAdds(pins: VmPins, page: Page)
    requires page.Good() && AddressOk(pins.listen)
    ensures var q := page.WithListen(pins.listen, pins.port); var d, e := page.Text(), q.Text();
      && q.Good() && SetListenXML(d, pins.listen, pins.port) == Ok(e) && ListenHolds(pins.listen, pins.port, e)
      && GraphicsInfo(e).hasPassword == GraphicsInfo(d).hasPassword
      && InfoXML(e).present == InfoXML(d).present
  {
    hide InfoXML, GraphicsInfo, GraphicsPort, SetListenXML, Page.Good, AddressOk, Quiet, Clean, Doc.Valid, Doc.Text,
        ListenList, Stripped, Relisten, AttrList.ReadFirst;
    ListenStaysGood(page, pins.listen, pins.port);
    Parts(page);
    SplitOf(page);
    AddressPlain(pins.listen);
    ListenSplit(page, pins.listen, pins.port);
    NoPasswordClean();
    EditsRead(page.Doc(), "", pins.listen, pins.port);
  }

  lemma AddressPlain(listen: string)
    requires AddressOk(listen)
    ensures AttrList.ValueOk(listen)
  {
  }

  lemma SplitOf(page: Page)
    requires page.Good()
    ensures page.Split()
  {
  }

  /** The console reads the same before and after a TPM is added behind it. */
  lemma TpmReads(page: Page)
    requires page.Good() && !InfoXML(page.Text()).present && page.WithTpm().Good()
    ensures GraphicsInfo(page.WithTpm().Text()) == GraphicsInfo(page.Text())
    ensures GraphicsPort(page.WithTpm().Text()) == GraphicsPort(page.Text())
  {
    hide InfoXML, GraphicsInfo, GraphicsPort, Clean, Doc.Valid, Doc.Text, LastIndex, TPM_DEVICE, AttrList.ReadFirst,
        ChildSpan;
    var q := page.WithTpm();
    ReaderRefines(page.Doc());
    ReaderRefines(q.Doc());
    if !page.Doc().Empty() {
      ChildInFront(page.inner, page.outer);
      ChildInFront(page.inner, q.outer);
      SameChild(page.inner, page.outer, q.outer);
    }
  }

  lemma SameChild(inner: string, y: string, z: string)
    requires ChildSpan(inner + y) == ChildSpan(inner) && ChildSpan(inner + z) == ChildSpan(inner)
    ensures ChildAddress(inner + y) == ChildAddress(inner + z)
  {
    hide ChildSpan, AttrList.AttrText;
    if ChildSpan(inner).Span? {
      var Span(s, e) := ChildSpan(inner);
      assert (inner + y)[s..e] == inner[s..e] && (inner + z)[s..e] == inner[s..e];
    }
  }

  lemma TpmAdds(page: Page)
    requires page.Good()
    ensures var r := SetTpmXML(page.Text(), true);
      && r.Ok? && InfoXML(r.value).present
      && (exists q: Page :: q.Good() && q.Text() == r.value)
      && GraphicsInfo(r.value) == GraphicsInfo(page.Text()) && GraphicsPort(r.value) == GraphicsPort(page.Text())
  {
    if !InfoXML(page.Text()).present {
      hide InfoXML, GraphicsInfo, GraphicsPort, SetTpmXML, Page.Good, Page.Text;
      TpmPage(page);
      GoodDevices(page);
      TpmReads(page);
      assert page.WithTpm().Good() && page.WithTpm().Text() == SetTpmXML(page.Text(), true).value;
    }
  }

  // ---------- the loops on documents ----------

  datatype TextPhase = Free | Chose(item: Item) | Held(item: Item, snap: Config)

  datatype TextState = TextState(config: Config, vnc: TextPhase, tpm: TextPhase, usb: TextPhase, pci: TextPhase) {
    function Of(l: Loop): TextPhase {
      match l
      case VncLoop => vnc
      case TpmLoop => tpm
      case UsbLoop => usb
      case PciLoop => pci
    }

    function With(l: Loop, p: TextPhase): TextState {
      match l
      case VncLoop => this.(vnc := p)
      case TpmLoop => this.(tpm := p)
      case UsbLoop => this.(usb := p)
      case PciLoop => this.(pci := p)
    }
  }

  predicate Choose(pins: VmPins, l: Loop, s: TextState, t: TextState) {
    && s.Of(l).Free? && t.Of(l).Chose?
    && var x := t.Of(l).item;
      x in Items(pins) && Owner(x) == l && x !in Present(pins, s.config) && t == s.With(l, Chose(x))
  }

  predicate DumpXml(l: Loop, s: TextState, t: TextState) {
    Rewrites(l) && s.Of(l).Chose? && t == s.With(l, Held(s.Of(l).item, s.config))
  }

  predicate DefineXml(pins: VmPins, l: Loop, s: TextState, t: TextState) {
    s.Of(l).Held? && t == s.With(l, Free).(config := Edit(pins, s.Of(l).item, s.Of(l).snap))
  }

  predicate AttachDevice(pins: VmPins, l: Loop, s: TextState, t: TextState) {
    !Rewrites(l) && s.Of(l).Chose? && t == s.With(l, Free).(config := Edit(pins, s.Of(l).item, s.config))
  }

  predicate TextStepOf(pins: VmPins, l: Loop, s: TextState, t: TextState) {
    Choose(pins, l, s, t) || DumpXml(l, s, t) || DefineXml(pins, l, s, t) || AttachDevice(pins, l, s, t)
  }

  ghost predicate TextPhaseOk(pins: VmPins, l: Loop, p: TextPhase) {
    match p
    case Free => true
    case Chose(x) => x in Items(pins) && Owner(x) == l
    case Held(x, c) => x in Items(pins) && Owner(x) == l && Rewrites(l) && GoodConfig(c)
  }

  ghost predicate TextValid(pins: VmPins, s: TextState) {
    && PinsOk(pins) && GoodConfig(s.config)
    && TextPhaseOk(pins, VncLoop, s.vnc) && TextPhaseOk(pins, TpmLoop, s.tpm)
    && TextPhaseOk(pins, UsbLoop, s.usb) && TextPhaseOk(pins, PciLoop, s.pci)
  }

  ghost predicate TextStep(pins: VmPins, s: TextState, t: TextState) {
    exists l :: TextStepOf(pins, l, s, t)
  }

  ghost predicate IsTextRun(pins: VmPins, run: seq<TextState>) {
    && 0 < |run| && TextValid(pins, run[0])
    && forall i :: 0 <= i < |run| - 1 ==> TextStep(pins, run[i], run[i + 1])
  }

  // ---------- refinement ----------

  function AbsPhase(pins: VmPins, p: TextPhase): Phase {
    match p
    case Free => Idle
    case Chose(x) => Decided(x)
    case Held(x, c) => Dumped(x, Present(pins, c))
  }

  function Abs(pins: VmPins, s: TextState): State {
    State(Present(pins, s.config), AbsPhase(pins, s.vnc), AbsPhase(pins, s.tpm), AbsPhase(pins, s.usb),
        AbsPhase(pins, s.pci))
  }

  lemma AbsWith(pins: VmPins, s: TextState, l: Loop, p: TextPhase, c: Config)
    ensures Abs(pins, s).Of(l) == AbsPhase(pins, s.Of(l))
    ensures Abs(pins, s.With(l, p)) == Abs(pins, s).With(l, AbsPhase(pins, p))
    ensures Abs(pins, s.(config := c)) == Abs(pins, s).(config := Present(pins, c))
  {
  }

  lemma AbsValid(pins: VmPins, s: TextState)
    requires TextValid(pins, s)
    ensures Protocol.Valid(Items(pins), Abs(pins, s))
  {
    hide Present, Items, GoodConfig;
  }

  /** Every step on documents is a step on items, and leaves good documents. */
  lemma TextStepRefines(pins: VmPins, l: Loop, s: TextState, t: TextState)
    requires TextValid(pins, s) && TextStepOf(pins, l, s, t)
    ensures TextValid(pins, t) && StepOf(Items(pins), l, Abs(pins, s), Abs(pins, t))
  {
    hide Present, Items, GoodConfig, Edit, PinsOk;
    var p := s.Of(l);
    AbsWith(pins, s, l, t.Of(l), t.config);
    AbsWith(pins, s.With(l, t.Of(l)), l, t.Of(l), t.config);
    if DefineXml(pins, l, s, t) { EditAdds(pins, p.item, p.snap); }
    else if AttachDevice(pins, l, s, t) { EditAdds(pins, p.item, s.config); }
  }

  lemma NextTextStep(pins: VmPins, s: TextState) returns (l: Loop, t: TextState)
    requires TextValid(pins, s) && (!s.vnc.Free? || !s.tpm.Free? || !s.usb.Free? || !s.pci.Free?
        || !(Items(pins) <= Present(pins, s.config)))
    ensures TextStepOf(pins, l, s, t)
  {
    hide Present, Items, GoodConfig, Edit, PinsOk;
    if busy :| !s.Of(busy).Free? {
      l := busy;
      var p := s.Of(l);
      t := if p.Held? then s.With(l, Free).(config := Edit(pins, p.item, p.snap))
           else if Rewrites(l) then s.With(l, Held(p.item, s.config))
           else s.With(l, Free).(config := Edit(pins, p.item, s.config));
    } else {
      assert s.Of(VncLoop).Free? && s.Of(TpmLoop).Free? && s.Of(UsbLoop).Free? && s.Of(PciLoop).Free?;
      var x :| x in Items(pins) && x !in Present(pins, s.config);
      l := Owner(x);
      t := s.With(l, Chose(x));
    }
  }

  // ---------- whole runs ----------

  lemma {:induction false} TextRunAbstract(pins: VmPins, run: seq<TextState>)
    requires IsTextRun(pins, run)
    ensures TextValid(pins, run[|run| - 1])
    ensures IsRun(Items(pins), seq(|run|, i requires 0 <= i < |run| => Abs(pins, run[i])))
    decreases |run|
  {
    hide Present, Items, Abs, TextValid, StepOf, TextStepOf;
    AbsValid(pins, run[0]);
    var n := |run|;
    if n > 1 {
      var front := run[..n - 1];
      forall i | 0 <= i < n - 2 ensures TextStep(pins, front[i], front[i + 1])
          { assert TextStep(pins, run[i], run[i + 1]); }
      TextRunAbstract(pins, front);
      assert TextStep(pins, run[n - 2], run[n - 2 + 1]);
      var l :| TextStepOf(pins, l, run[n - 2], run[n - 1]);
      TextStepRefines(pins, l, run[n - 2], run[n - 1]);
      var a := seq(n, i requires 0 <= i < n => Abs(pins, run[i]));
      var b := seq(n - 1, i requires 0 <= i < n - 1 => Abs(pins, front[i]));
      forall i | 0 <= i < n - 1 ensures Step(Items(pins), a[i], a[i + 1]) {
        if i < n - 2 { assert Step(Items(pins), b[i], b[i + 1]); }
      }
    }
  }

  /** However the four loops interleave on a VM's document, from whatever dumps were in flight when
      writing stopped: the run is no longer than the measure, and when it can go no further the
      readers find every pinned item in the text. */
  lemma TextRunsConverge(pins: VmPins, run: seq<TextState>)
    requires IsTextRun(pins, run)
    ensures |run| - 1 <= Measure(Items(pins), Abs(pins, run[0]))
    ensures var last := run[|run| - 1];
      (forall l, t :: !TextStepOf(pins, l, last, t)) ==>
        && (pins.password != "" ==> GraphicsInfo(last.config.text).hasPassword)
        && (pins.listen != "" ==>
              && GraphicsInfo(last.config.text).listen == pins.listen
              && var now := GraphicsPort(last.config.text);
                 if pins.port > 0 then now == Port(pins.port, false) else now.auto)
        && (pins.tpm ==> InfoXML(last.config.text).present)
        && pins.devices <= last.config.devices
  {
    hide GraphicsInfo, GraphicsPort, ListenHolds, InfoXML, Measure, Abs, TextStepOf, IsRun, GoodConfig;
    var last := run[|run| - 1];
    TextRunAbstract(pins, run);
    var a := seq(|run|, i requires 0 <= i < |run| => Abs(pins, run[i]));
    RunsConverge(Items(pins), a);
    if forall l, t :: !TextStepOf(pins, l, last, t) {
      if !(Items(pins) <= Present(pins, last.config)) { var l, t := NextTextStep(pins, last); }
      AllFound(pins, last.config);
      HoldsIff(pins.listen, pins.port, last.config.text);
    }
  }

  lemma HoldsIff(listen: string, port: Int, text: string)
    ensures ListenHolds(listen, port, text) <==>
              GraphicsInfo(text).listen == listen
              && if port > 0 then GraphicsPort(text) == Port(port, false) else GraphicsPort(text).auto
  {
    hide GraphicsInfo, GraphicsPort;
  }

  lemma AllFound(pins: VmPins, c: Config)
    requires Items(pins) <= Present(pins, c) && PinsOk(pins) && GoodConfig(c)
    ensures pins.password != "" ==> GraphicsInfo(c.text).hasPassword
    ensures pins.listen != "" ==> ListenHolds(pins.listen, pins.port, c.text)
    ensures pins.tpm ==> InfoXML(c.text).present
    ensures pins.devices <= c.devices
  {
    OnlyDevices(pins, c);
    ItemsAre(pins);
    hide *;
    FoundWithin(pins.password != "", pins.listen != "", pins.tpm, pins.devices,
      GraphicsInfo(c.text).hasPassword, ListenHolds(pins.listen, pins.port, c.text), InfoXML(c.text).present,
      c.devices);
    PresentIs(pins, c);
  }

  lemma ItemsAre(pins: VmPins)
    ensures Items(pins) == Found(pins.password != "", pins.listen != "", pins.tpm, pins.devices)
  {
  }

  lemma PresentIs(pins: VmPins, c: Config)
    ensures Present(pins, c) == Found(GraphicsInfo(c.text).hasPassword, ListenHolds(pins.listen, pins.port, c.text),
                                      InfoXML(c.text).present, c.devices)
  {
    hide Found, GraphicsInfo, ListenHolds, InfoXML;
  }

  lemma FoundWithin(p: bool, l: bool, t: bool, d: set<Item>, q: bool, m: bool, u: bool, e: set<Item>)
    requires (forall x :: x in d ==> x.Usb? || x.Pci?) && forall x :: x in e ==> x.Usb? || x.Pci?
    ensures Found(p, l, t, d) <= Found(q, m, u, e) ==> (p ==> q) && (l ==> m) && (t ==> u) && d <= e
  {
    FoundIff(p, l, t, d);
    FoundIff(q, m, u, e);
    hide Found;
  }

  lemma FoundIff(password: bool, listen: bool, tpm: bool, devices: set<Item>)
    requires forall x :: x in devices ==> x.Usb? || x.Pci?
    ensures var f := Found(password, listen, tpm, devices);
      && (Password in f <==> password) && (Listen in f <==> listen) && (Tpm in f <==> tpm)
      && forall x: Item :: x.Usb? || x.Pci? ==> (x in f <==> x in devices)
  {
  }

  lemma OnlyDevices(pins: VmPins, c: Config)
    requires PinsOk(pins) && GoodConfig(c)
    ensures forall x :: x in pins.devices || x in c.devices ==> x.Usb? || x.Pci?
  {
  }

  // ---------- such runs exist ----------

  function SamplePins(): VmPins {
    VmPins("secret", "127.0.0.1", 5901, true, {Pci("0000:00:02.0")})
  }

  function SampleState(): TextState {
    TextState(Config(SamplePage().Text(), {}), Free, Free, Free, Free)
  }

  /** The theorem is about something: a plain document, and four idle loops with work to do. */
  lemma SampleRun()
    ensures IsTextRun(SamplePins(), [SampleState()])
    ensures Tpm in Items(SamplePins()) && Tpm !in Present(SamplePins(), SampleState().config)
  {
    SampleOk();
    SampleGood();
    hide PinsOk, GoodConfig, SamplePage, Present;
    assert TextValid(SamplePins(), SampleState());
    SampleLacks();
  }

  lemma SampleOk()
    ensures PinsOk(SamplePins()) && Tpm in Items(SamplePins())
  {
    SamplePassword();
    Loopback();
  }

  lemma SampleGood()
    ensures GoodConfig(SampleState().config)
  {
    hide Page.Good, SamplePage, Page.Text;
    SampleIsGood();
    assert SamplePage().Good() && SamplePage().Text() == SampleState().config.text;
  }

  lemma SampleLacks()
    ensures Tpm !in Present(SamplePins(), SampleState().config)
  {
    hide Page.Good, SamplePage, Page.Text, InfoXML, GraphicsInfo, ListenHolds;
    SampleIsGood();
  }

  lemma SamplePassword()
    ensures CleanPassword("secret")
  {
    assert "secret" == ['s', 'e', 'c', 'r', 'e', 't'];
    CleanValue("secret");
    QuietIsHarmless("secret");
  }
}
