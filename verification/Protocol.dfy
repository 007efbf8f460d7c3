/**
 The four reconcilers as concurrent loops over one VM's persistent config, once ZVM and the HTTP
 handlers have stopped writing.  The VNC and TPM loops repair with an unlocked dump, edit, define;
 a define therefore overwrites whatever the other loops wrote since its dump.  The USB and PCI loops
 attach one device atomically.  Every step of every loop may interleave.
*/
module Protocol {

  datatype Item = Password | Listen | Tpm | Usb(id: string) | Pci(address: string)
  datatype Loop = VncLoop | TpmLoop | UsbLoop | PciLoop

  function Owner(x: Item): Loop {
    match x
    case Password => VncLoop
    case Listen => VncLoop
    case Tpm => TpmLoop
    case Usb(_) => UsbLoop
    case Pci(_) => PciLoop
  }

  /** Between items; an item was seen missing; the config was dumped in order to add it. */
  datatype Phase = Idle | Decided(item: Item) | Dumped(item: Item, snap: set<Item>)

  datatype State = State(config: set<Item>, vnc: Phase, tpm: Phase, usb: Phase, pci: Phase) {
    function Of(l: Loop): Phase {
      match l
      case VncLoop => vnc
      case TpmLoop => tpm
      case UsbLoop => usb
      case PciLoop => pci
    }

    function With(l: Loop, p: Phase): State {
      match l
      case VncLoop => this.(vnc := p)
      case TpmLoop => this.(tpm := p)
      case UsbLoop => this.(usb := p)
      case PciLoop => this.(pci := p)
    }
  }

  predicate Rewrites(l: Loop) { l == VncLoop || l == TpmLoop }

  /** Phases a loop can be in: pending items are pinned and its own; only rewriting loops dump. */
  predicate PhaseOk(pins: set<Item>, l: Loop, p: Phase) {
    match p
    case Idle => true
    case Decided(x) => x in pins && Owner(x) == l
    case Dumped(x, _) => x in pins && Owner(x) == l && Rewrites(l)
  }

  /** Any config and any dumps in flight: nothing is assumed about how writing stopped. */
  predicate Valid(pins: set<Item>, s: State) {
    PhaseOk(pins, VncLoop, s.vnc) && PhaseOk(pins, TpmLoop, s.tpm) && PhaseOk(pins, UsbLoop, s.usb)
        && PhaseOk(pins, PciLoop, s.pci)
  }

  // ---------- steps ----------

  predicate Check(pins: set<Item>, l: Loop, s: State, t: State) {
    && t.Of(l).Decided? && s.Of(l).Idle?
    && var x := t.Of(l).item; x in pins && Owner(x) == l && x !in s.config && t == s.With(l, Decided(x))
  }

  predicate Dump(l: Loop, s: State, t: State) {
    Rewrites(l) && s.Of(l).Decided? && t == s.With(l, Dumped(s.Of(l).item, s.config))
  }

  /** What the checks find in a dump after the item is written into it.  A password may hide the
      address from the reader, and replacing one may show it again. */
  predicate Edited(x: Item, snap: set<Item>, c: set<Item>) {
    if x == Password then c - {Listen} == snap + {x} - {Listen} else c == snap + {x}
  }

  predicate Define(l: Loop, s: State, t: State) {
    s.Of(l).Dumped? && t == s.With(l, Idle).(config := t.config) && Edited(s.Of(l).item, s.Of(l).snap, t.config)
  }

  predicate Attach(l: Loop, s: State, t: State) {
    !Rewrites(l) && s.Of(l).Decided? && t == s.With(l, Idle).(config := s.config + {s.Of(l).item})
  }

  predicate StepOf(pins: set<Item>, l: Loop, s: State, t: State) {
    Check(pins, l, s, t) || Dump(l, s, t) || Define(l, s, t) || Attach(l, s, t)
  }

  /** A step that changes something; a check that finds its item present changes nothing. */
  ghost predicate Step(pins: set<Item>, s: State, t: State) {
    exists l :: StepOf(pins, l, s, t)
  }

  ghost predicate Resting(pins: set<Item>, s: State) {
    forall l, t :: !StepOf(pins, l, s, t)
  }

  ghost predicate IsRun(pins: set<Item>, run: seq<State>) {
    && 0 < |run| && Valid(pins, run[0])
    && forall i :: 0 <= i < |run| - 1 ==> Step(pins, run[i], run[i + 1])
  }

  // ---------- what cannot be lost any more ----------

  function Seen(p: Phase, config: set<Item>): set<Item> {
    if p.Dumped? then p.snap else config
  }

  /** The pinned items present in the config and in every dump in flight. */
  function Common(pins: set<Item>, s: State): set<Item> {
    pins * s.config * Seen(s.vnc, s.config) * Seen(s.tpm, s.config)
  }

  /** No password is written any more: it is in the config and in every dump, and not under way. */
  predicate Settled(pins: set<Item>, s: State) {
    Password in pins ==> Password in Common(pins, s) && (s.vnc.Idle? || s.vnc.item != Password)
  }

  /** The address counts once no password can hide it again. */
  function Kept(pins: set<Item>, s: State): set<Item> {
    if Settled(pins, s) then Common(pins, s) else Common(pins, s) - {Listen}
  }

  // ---------- the measure ----------

  function Flag(b: bool): nat { if b then 1 else 0 }

  /** The loop is about to add an item that its view already holds. */
  predicate Useless(p: Phase, config: set<Item>) {
    !p.Idle? && p.item in Seen(p, config)
  }

  function Times(a: nat, b: nat): nat { a * b }

  function Lacks(pins: set<Item>, x: Item, view: set<Item>): nat { Flag(x in pins && x !in view) }

  /** Own pinned items missing from the loop's view; a password weighs more than the address it may
      hide, and that more than the TPM an older dump with the address in it may lose. */
  function Lacking(pins: set<Item>, l: Loop, view: set<Item>): nat {
    match l
    case VncLoop => 4 * Lacks(pins, Password, view) + 2 * Lacks(pins, Listen, view)
    case TpmLoop => Lacks(pins, Tpm, view)
    case _ => 0
  }

  /** What one rewriting loop may still do while nothing more is kept. */
  function Pending(pins: set<Item>, l: Loop, p: Phase, config: set<Item>): nat {
    (if !Useless(p, config) then 0 else if l == VncLoop then 8 else 16) + Lacking(pins, l, Seen(p, config))
  }

  function Both(pins: set<Item>, s: State): nat {
    Pending(pins, VncLoop, s.vnc, s.config) + Pending(pins, TpmLoop, s.tpm, s.config)
  }

  /** Bounds the defines still to come. */
  function DefineMeasure(pins: set<Item>, s: State): nat {
    32 * |pins - Kept(pins, s)| + Both(pins, s)
  }

  function Devices(pins: set<Item>, config: set<Item>): set<Item> {
    set x | x in pins && !Rewrites(Owner(x)) && x !in config
  }

  function Weight(p: Phase): nat {
    match p case Idle => 2 case Decided(_) => 1 case Dumped(_, _) => 0
  }

  /** Everything but the defines: attaches still to come and the phases of the loops. */
  function Rest(pins: set<Item>, s: State): nat {
    2 * |Devices(pins, s.config)|
    + 2 * (Flag(Useless(s.usb, s.config)) + Flag(Useless(s.pci, s.config)))
    + Weight(s.vnc) + Weight(s.tpm) + Weight(s.usb) + Weight(s.pci)
  }

  function Measure(pins: set<Item>, s: State): nat {
    Times(2 * |pins| + 13, DefineMeasure(pins, s)) + Rest(pins, s)
  }

  // ---------- arithmetic and sets ----------

  lemma Smaller(a: set<Item>, b: set<Item>)
    requires a <= b
    ensures |a| <= |b| && (a != b ==> |a| < |b|)
  {
    assert b == a + (b - a);
    if a != b { assert b - a != {}; }
  }

  lemma Scale(c: nat, k: nat, k2: nat)
    requires k2 < k
    ensures Times(c, k2) + c <= Times(c, k)
  {
    assert c * k == c * k2 + c * (k - k2) && k - k2 >= 1;
    assert c * (k - k2) >= c;
  }

  // ---------- one step ----------

  lemma StepKeepsValid(pins: set<Item>, l: Loop, s: State, t: State)
    requires Valid(pins, s) && StepOf(pins, l, s, t)
    ensures Valid(pins, t)
  {
  }

  /** No step loses an item that is in the config and in every dump in flight, but for an address
      that a password may still hide. */
  lemma KeptGrows(pins: set<Item>, l: Loop, s: State, t: State)
    requires Valid(pins, s) && StepOf(pins, l, s, t)
    ensures Kept(pins, s) <= Kept(pins, t)
  {
    if Settled(pins, s) { StaysSettled(pins, l, s, t); }
    CommonGrows(pins, l, s, t);
  }

  lemma EditedAt(x: Item, snap: set<Item>, c: set<Item>, y: Item)
    requires Edited(x, snap, c) && (y != Listen || x != Password)
    ensures y in c <==> y in snap || y == x
  {
    assert y in snap + {x} <==> y in snap || y == x;
    if x == Password {
      assert y in c <==> y in c - {Listen};
      assert y in snap + {x} <==> y in snap + {x} - {Listen};
    }
  }

  lemma CommonGrows(pins: set<Item>, l: Loop, s: State, t: State)
    requires Valid(pins, s) && StepOf(pins, l, s, t)
    ensures Common(pins, s) - {Listen} <= Common(pins, t)
    ensures Settled(pins, s) ==> Common(pins, s) <= Common(pins, t)
  {
    forall y | y in Common(pins, s) && (y != Listen || Settled(pins, s)) ensures y in Common(pins, t) {
      if Define(l, s, t) { EditedAt(s.Of(l).item, s.Of(l).snap, t.config, y); }
    }
  }

  lemma StaysSettled(pins: set<Item>, l: Loop, s: State, t: State)
    requires Valid(pins, s) && StepOf(pins, l, s, t) && Settled(pins, s)
    ensures Settled(pins, t)
  {
  }

  /** The costs of one loop's dump becoming the config. */
  lemma LackingAfter(pins: set<Item>, x: Item, snap: set<Item>, c: set<Item>)
    requires Edited(x, snap, c) && x in pins && (x == Password || x == Listen || x == Tpm)
    ensures var v, w := Lacking(pins, VncLoop, snap), Lacking(pins, VncLoop, c);
      && (x == Password && x in snap ==> w <= v + 2)
      && (x == Password && x !in snap ==> w + 2 <= v)
      && (x == Listen && x in snap ==> w == v <= 4)
      && (x == Listen && x !in snap ==> w + 2 == v)
    ensures x == Tpm ==> Lacking(pins, TpmLoop, c) == 0
    ensures x == Tpm && x !in snap ==> Lacking(pins, TpmLoop, snap) == 1
  {
    EditedAt(x, snap, c, Password);
    EditedAt(x, snap, c, Tpm);
    if x != Password { EditedAt(x, snap, c, Listen); }
  }

  /** With the other loop's view fixed. */
  lemma OtherDumped(pins: set<Item>, l: Loop, s: State, t: State)
    requires Valid(pins, s) && Define(l, s, t) && (if l == VncLoop then s.tpm else s.vnc).Dumped?
    ensures Both(pins, t) < Both(pins, s)
  {
    var p := s.Of(l);
    LackingAfter(pins, p.item, p.snap, t.config);
    hide Lacking, Edited;
  }

  /** An item that the config, all dumps and so the kept items gain was in the dump already, unless it is
      an address that counts only later. */
  lemma GainedByAll(pins: set<Item>, l: Loop, s: State, t: State, y: Item)
    requires Valid(pins, s) && Kept(pins, s) == Kept(pins, t) && Define(l, s, t) && y in Common(pins, t)
    requires y != Listen || Settled(pins, t)
    ensures y in s.Of(l).snap && y in s.config
  {
    assert y in Kept(pins, t);
  }

  lemma OtherFollows(pins: set<Item>, l: Loop, s: State, t: State)
    requires Valid(pins, s) && Define(l, s, t) && Kept(pins, s) == Kept(pins, t)
    requires !(if l == VncLoop then s.tpm else s.vnc).Dumped?
    ensures Both(pins, t) < Both(pins, s)
  {
    var p := s.Of(l);
    var q := if l == VncLoop then s.tpm else s.vnc;
    EditedAt(p.item, p.snap, t.config, p.item);
    LackingAfter(pins, p.item, p.snap, t.config);
    assert p.item in Common(pins, t);
    if p.item != Listen || Settled(pins, t) { GainedByAll(pins, l, s, t, p.item); }
    if !q.Idle? && q.item in t.config && q.item != Listen { GainedByAll(pins, l, s, t, q.item); }
  }

  /** A define that adds nothing to the kept items still uses up some of what the loops may do. */
  lemma DefineWithoutGrowth(pins: set<Item>, l: Loop, s: State, t: State)
    requires Valid(pins, s) && Define(l, s, t) && Kept(pins, s) == Kept(pins, t)
    ensures Both(pins, t) < Both(pins, s)
  {
    hide *;
    if (if l == VncLoop then s.tpm else s.vnc).Dumped? { OtherDumped(pins, l, s, t); }
    else { OtherFollows(pins, l, s, t); }
  }

  /** Every define uses up part of the measure, from whatever state. */
  lemma DefineDecreases(pins: set<Item>, l: Loop, s: State, t: State)
    requires Valid(pins, s) && Define(l, s, t)
    ensures DefineMeasure(pins, t) < DefineMeasure(pins, s)
  {
    KeptGrows(pins, l, s, t);
    var k, k2 := pins - Kept(pins, s), pins - Kept(pins, t);
    Smaller(k2, k);
    hide Kept, Pending, Define, Valid;
    if |k2| < |k| {
      BothBound(pins, t);
    } else {
      KeptBack(pins, s, k, t, k2);
      DefineWithoutGrowth(pins, l, s, t);
    }
  }

  lemma BothBound(pins: set<Item>, s: State)
    ensures Both(pins, s) <= 31
  {
  }

  lemma KeptBack(pins: set<Item>, s: State, k: set<Item>, t: State, k2: set<Item>)
    requires k == pins - Kept(pins, s) && k2 == pins - Kept(pins, t) && k == k2
    ensures Kept(pins, s) == Kept(pins, t)
  {
    assert Kept(pins, s) == pins - k && Kept(pins, t) == pins - k2;
  }

  lemma ViewKept(pins: set<Item>, l: Loop, s: State, t: State)
    requires Valid(pins, s) && StepOf(pins, l, s, t) && !Define(l, s, t)
    ensures Both(pins, t) == Both(pins, s)
  {
  }

  /** The other steps add nothing to it. */
  lemma OthersKeepMeasure(pins: set<Item>, l: Loop, s: State, t: State)
    requires Valid(pins, s) && StepOf(pins, l, s, t) && !Define(l, s, t)
    ensures DefineMeasure(pins, t) <= DefineMeasure(pins, s)
  {
    hide Kept, StepOf, Both;
    KeptGrows(pins, l, s, t);
    ViewKept(pins, l, s, t);
    Smaller(pins - Kept(pins, t), pins - Kept(pins, s));
  }

  /** They use up the rest of the measure instead: every step of every loop makes progress. */
  lemma OthersDecreaseRest(pins: set<Item>, l: Loop, s: State, t: State)
    requires Valid(pins, s) && StepOf(pins, l, s, t) && !Define(l, s, t)
    ensures Rest(pins, t) < Rest(pins, s)
  {
    var a, b := Devices(pins, t.config), Devices(pins, s.config);
    Smaller(a, b);
    if Attach(l, s, t) {
      var x := s.Of(l).item;
      if x !in s.config { assert x in b && x !in a; }
    } else {
      assert t.config == s.config;
    }
  }

  lemma RestBound(pins: set<Item>, s: State)
    ensures Rest(pins, s) <= 2 * |pins| + 12
  {
    Smaller(Devices(pins, s.config), pins);
  }

  lemma StepDecreases(pins: set<Item>, l: Loop, s: State, t: State)
    requires Valid(pins, s) && StepOf(pins, l, s, t)
    ensures Measure(pins, t) < Measure(pins, s)
  {
    hide DefineMeasure, Rest, Times;
    RestBound(pins, t);
    if Define(l, s, t) {
      DefineDecreases(pins, l, s, t);
      Scale(2 * |pins| + 13, DefineMeasure(pins, s), DefineMeasure(pins, t));
    } else {
      OthersKeepMeasure(pins, l, s, t);
      OthersDecreaseRest(pins, l, s, t);
      if DefineMeasure(pins, t) < DefineMeasure(pins, s) {
        Scale(2 * |pins| + 13, DefineMeasure(pins, s), DefineMeasure(pins, t));
      }
    }
  }

  // ---------- whole runs ----------

  /** Nothing is left to do exactly when every loop is idle and every pin is in the config. */
  lemma RestingIff(pins: set<Item>, s: State)
    requires Valid(pins, s)
    ensures Resting(pins, s) <==>
            pins <= s.config && s.vnc.Idle? && s.tpm.Idle? && s.usb.Idle? && s.pci.Idle?
  {
    if pins <= s.config && s.vnc.Idle? && s.tpm.Idle? && s.usb.Idle? && s.pci.Idle? {
      forall l, t ensures !StepOf(pins, l, s, t) {}
    } else {
      var l, t := NextStep(pins, s);
    }
  }

  lemma NextStep(pins: set<Item>, s: State) returns (l: Loop, t: State)
    requires Valid(pins, s)
    requires !(pins <= s.config && s.vnc.Idle? && s.tpm.Idle? && s.usb.Idle? && s.pci.Idle?)
    ensures StepOf(pins, l, s, t)
  {
    if busy :| !s.Of(busy).Idle? {
      l := busy;
      var p := s.Of(l);
      t := if p.Dumped? then s.With(l, Idle).(config := p.snap + {p.item})
           else if Rewrites(l) then s.With(l, Dumped(p.item, s.config))
           else s.With(l, Idle).(config := s.config + {p.item});
    } else {
      assert s.Of(VncLoop).Idle? && s.Of(TpmLoop).Idle? && s.Of(UsbLoop).Idle? && s.Of(PciLoop).Idle?;
      var x :| x in pins && x !in s.config;
      l := Owner(x);
      t := s.With(l, Decided(x));
    }
  }

  /** Every interleaving of the four loops comes to rest: no run is longer than the measure, and one
      that cannot be extended ends with every pin in the config. */
  lemma {:induction false} RunsConverge(pins: set<Item>, run: seq<State>)
    requires IsRun(pins, run)
    ensures |run| - 1 <= Measure(pins, run[0]) - Measure(pins, run[|run| - 1])
    ensures Valid(pins, run[|run| - 1]) && Kept(pins, run[0]) <= Kept(pins, run[|run| - 1])
    ensures Resting(pins, run[|run| - 1]) ==> pins <= run[|run| - 1].config
    decreases |run|
  {
    hide Measure, Kept;
    if |run| > 1 {
      var front, s, t := run[..|run| - 1], run[|run| - 2], run[|run| - 1];
      forall i | 0 <= i < |front| - 1 ensures Step(pins, front[i], front[i + 1]) {
        assert Step(pins, run[i], run[i + 1]);
      }
      RunsConverge(pins, front);
      assert Step(pins, run[|run| - 2], run[|run| - 2 + 1]);
      var l :| StepOf(pins, l, s, t);
      StepKeepsValid(pins, l, s, t);
      StepDecreases(pins, l, s, t);
      KeptGrows(pins, l, s, t);
    }
    RestingIff(pins, run[|run| - 1]);
  }

  ghost predicate IsDefine(s: State, t: State) {
    exists l :: Define(l, s, t)
  }

  /** How many steps of a run are defines. */
  ghost function Defines(run: seq<State>): nat {
    if |run| < 2 then 0 else
    Defines(run[..|run| - 1]) + if IsDefine(run[|run| - 2], run[|run| - 1]) then 1 else 0
  }

  lemma {:induction false} DefinesCounted(pins: set<Item>, run: seq<State>)
    requires IsRun(pins, run)
    ensures Valid(pins, run[|run| - 1])
    ensures Defines(run) + DefineMeasure(pins, run[|run| - 1]) <= DefineMeasure(pins, run[0])
    decreases |run|
  {
    hide DefineMeasure;
    if |run| > 1 {
      var front, s, t := run[..|run| - 1], run[|run| - 2], run[|run| - 1];
      forall i | 0 <= i < |front| - 1 ensures Step(pins, front[i], front[i + 1]) {
        assert Step(pins, run[i], run[i + 1]);
      }
      DefinesCounted(pins, front);
      assert Step(pins, run[|run| - 2], run[|run| - 2 + 1]);
      var l :| StepOf(pins, l, s, t);
      StepKeepsValid(pins, l, s, t);
      if m :| Define(m, s, t) { DefineDecreases(pins, m, s, t); }
      else { OthersKeepMeasure(pins, l, s, t); }
    }
  }

  /** However the loops interleave and whatever is in flight when writing stops, the number of
      defines is at most linear in the number of pins. */
  lemma DefinesBounded(pins: set<Item>, run: seq<State>)
    requires IsRun(pins, run)
    ensures Defines(run) <= 32 * |pins| + 31
  {
    hide Both, Kept, Defines;
    DefinesCounted(pins, run);
    BothBound(pins, run[0]);
    Smaller(pins - Kept(pins, run[0]), pins);
  }

  /** A repair can be lost: a define of an older dump takes the other loop's item out of the config
      again, so what converges is the whole protocol and not each repair. */
  lemma RepairsCanBeLost() returns (pins: set<Item>, run: seq<State>)
    ensures pins == {Password, Tpm} && IsRun(pins, run) && |run| == 7
    ensures Tpm in run[5].config && Tpm !in run[6].config
  {
    pins := {Password, Tpm};
    var s0 := State({}, Idle, Idle, Idle, Idle);
    var s1 := s0.(vnc := Decided(Password));
    var s2 := s0.(vnc := Dumped(Password, {}));
    var s3 := s2.(tpm := Decided(Tpm));
    var s4 := s2.(tpm := Dumped(Tpm, {}));
    var s5 := s2.(config := {} + {Tpm});
    var s6 := s0.(config := {} + {Password});
    assert StepOf(pins, VncLoop, s0, s1) && StepOf(pins, VncLoop, s1, s2);
    assert StepOf(pins, TpmLoop, s2, s3) && StepOf(pins, TpmLoop, s3, s4) && StepOf(pins, TpmLoop, s4, s5);
    assert StepOf(pins, VncLoop, s5, s6);
    run := [s0, s1, s2, s3, s4, s5, s6];
  }
}
