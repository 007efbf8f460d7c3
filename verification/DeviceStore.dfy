/**
 internal/usb/store.go and internal/pci/store.go: pinned passthrough devices and the pass that puts
 them back with one atomic attach each.  The two stores are the same program over two kinds of pin.
*/
module DeviceStore {
  import opened GoStrings
  import opened PciAddress

  datatype Pin =
    | UsbPin(vm: string, vendor: string, product: string, description: string)
    | PciPin(vm: string, address: string, description: string)

  /** The attributes of one <hostdev> of a persistent config. */
  datatype Hostdev = UsbHostdev(vendor: string, product: string) | PciHostdev(address: Quad<string>)

  /** key. */
  function Key(p: Pin): string {
    match p
    case UsbPin(vm, v, d, _) => vm + "/" + v + ":" + d
    case PciPin(vm, a, _) => vm + "/" + a
  }

  /** HostdevXML: the <hostdev> that is attached; None for a malformed PCI address. */
  function Snippet(p: Pin): Option<Hostdev> {
    match p
    case UsbPin(_, v, d, _) => Some(UsbHostdev("0x" + ToLower(v), "0x" + ToLower(d)))
    case PciPin(_, a, _) => match HostdevAttrs(a) case None => None case Some(q) => Some(PciHostdev(q))
  }

  function Numbers(q: Quad<string>): Quad<nat> {
    Quad(ParseHexU(q.domain), ParseHexU(q.bus), ParseHexU(q.slot), ParseHexU(q.fn))
  }

  /** hasUSBHostdev and hasPCIHostdev, for one <hostdev>. */
  predicate Matches(h: Hostdev, p: Pin) {
    match p
    case UsbPin(_, v, d, _) =>
      h.UsbHostdev? && ToLower(h.vendor) == "0x" + ToLower(v) && ToLower(h.product) == "0x" + ToLower(d)
    case PciPin(_, a, _) =>
      h.PciHostdev? && ParsePCIAddr(a) == Some(Numbers(h.address))
  }

  predicate Has(hs: seq<Hostdev>, p: Pin) {
    exists i :: 0 <= i < |hs| && Matches(hs[i], p)
  }

  type Configs = map<string, seq<Hostdev>>

  function PassOne(p: Pin, c: Configs): Configs {
    if p.vm !in c || Has(c[p.vm], p) || Snippet(p).None? then c
    else c[p.vm := c[p.vm] + [Snippet(p).value]]
  }

  /** A whole pass, pin by pin. */
  function PassOver(ps: seq<Pin>, c: Configs): Configs {
    if ps == [] then c else PassOne(ps[|ps| - 1], PassOver(ps[..|ps| - 1], c))
  }

  // ---------- virsh and the store ----------

  class Virsh {
    var configs: Configs

    constructor (configs: Configs)
      ensures this.configs == configs
    {
      this.configs := configs;
    }

    method State(vm: string) returns (ok: bool)
      ensures ok == (vm in configs)
    {
      ok := vm in configs;
    }

    /** The loop over the domain's <hostdev>s. */
    method HasHostdev(p: Pin) returns (has: bool)
      requires p.vm in configs
      ensures has == Has(configs[p.vm], p)
    {
      hide Matches;
      var hs := configs[p.vm];
      for i := 0 to |hs|
        invariant forall j :: 0 <= j < i ==> !Matches(hs[j], p)
      {
        if Matches(hs[i], p) { return true; }
      }
      has := false;
    }

    method AttachDeviceConfig(vm: string, h: Hostdev)
      requires vm in configs
      modifies this
      ensures configs == old(configs)[vm := old(configs)[vm] + [h]]
    {
      configs := configs[vm := configs[vm] + [h]];
    }
  }

  predicate Keyed(data: map<string, Pin>) {
    forall k :: k in data ==> Key(data[k]) == k
  }

  /** `ps` lists every pin of `data` once, in some order. */
  predicate IsListing(ps: seq<Pin>, data: map<string, Pin>) {
    && (forall i :: 0 <= i < |ps| ==> Key(ps[i]) in data && data[Key(ps[i])] == ps[i])
    && (forall i, j :: 0 <= i < j < |ps| ==> Key(ps[i]) != Key(ps[j]))
    && (forall k :: k in data ==> data[k] in ps)
  }

  class Store {
    var data: map<string, Pin>

    constructor ()
      ensures data == map[]
    {
      data := map[];
    }

    method All() returns (out: seq<Pin>)
      requires Keyed(data)
      ensures IsListing(out, data)
    {
      hide Key;
      out := [];
      var left := data.Keys;
      while left != {}
        invariant left <= data.Keys
        invariant forall i :: 0 <= i < |out| ==>
            Key(out[i]) in data && Key(out[i]) !in left && data[Key(out[i])] == out[i]
        invariant forall i, j :: 0 <= i < j < |out| ==> Key(out[i]) != Key(out[j])
        invariant forall k :: k in data && k !in left ==> data[k] in out
        decreases left
      {
        var k :| k in left;
        out := out + [data[k]];
        left := left - {k};
      }
    }

    method Add(p: Pin)
      requires Keyed(data)
      modifies this
      ensures Keyed(data) && data == old(data)[Key(p) := p]
    {
      data := data[Key(p) := p];
    }

    /** Remove: by the key text of the pin. */
    method Remove(p: Pin)
      requires Keyed(data)
      modifies this
      ensures Keyed(data) && data == old(data) - {Key(p)}
    {
      data := data - {Key(p)};
    }

    /** The body of the reconciler's loop; a return is the loop's `continue`. */
    method ReconcilePin(vc: Virsh, p: Pin)
      modifies vc
      ensures vc.configs == PassOne(p, old(vc.configs))
    {
      hide Has, Snippet;
      var defined := vc.State(p.vm);
      if !defined { return; }
      var has := vc.HasHostdev(p);
      if has { return; }
      var xml := Snippet(p);
      if xml.None? { return; }
      vc.AttachDeviceConfig(p.vm, xml.value);
    }

    /** Re-attaches every pinned device, in whatever order the map yields the pins. */
    method Reconcile(vc: Virsh) returns (ghost ps: seq<Pin>)
      requires Keyed(data)
      modifies vc
      ensures IsListing(ps, data) && vc.configs == PassOver(ps, old(vc.configs))
    {
      hide PassOne;
      var all := All();
      ps := all;
      for i := 0 to |all|
        invariant vc.configs == PassOver(all[..i], old(vc.configs))
      {
        ReconcilePin(vc, all[i]);
        assert all[..i + 1][..i] == all[..i];
      }
      assert all[..|all|] == all;
    }
  }

  // ---------- which device a pin means ----------

  /** validHexID (internal/handlers/handlers.go). */
  predicate HexID(s: string) {
    |s| == 4 && IsHex(s)
  }

  /** What the handlers let in. */
  predicate Accepted(p: Pin) {
    match p
    case UsbPin(_, v, d, _) => HexID(v) && HexID(d)
    case PciPin(_, a, _) => ValidAddress(a)
  }

  /** The pins name the same device, up to the case of their digits. */
  predicate SameDevice(p: Pin, q: Pin) {
    match (p, q)
    case (UsbPin(_, v, d, _), UsbPin(_, w, e, _)) => ToLower(v) == ToLower(w) && ToLower(d) == ToLower(e)
    case (PciPin(_, a, _), PciPin(_, b, _)) => ToLower(a) == ToLower(b)
    case _ => false
  }

  lemma LowerAgain(s: string)
    ensures ToLower(ToLower(s)) == ToLower(s) && ToLower("0x" + ToLower(s)) == "0x" + ToLower(s)
  {
    assert ToLower(ToLower(s)) == ToLower(s);
    LowerParts("0x", ToLower(s));
    LowerPrefix();
  }

  lemma PrefixAway(x: string, y: string)
    ensures "0x" + x == "0x" + y <==> x == y
  {
    assert ("0x" + x)[2..] == x && ("0x" + y)[2..] == y;
  }

  /** What is attached for one pin is what the reader looks for on behalf of another exactly when they
      name the same device. */
  lemma AttachedMatchesIff(p: Pin, q: Pin)
    requires Accepted(p) && Accepted(q)
    ensures Snippet(p).Some? && (Matches(Snippet(p).value, q) <==> SameDevice(p, q))
  {
    hide ToLower, ParsePCIAddr, ParseHexU, ValidAddress, HostdevAttrs, HasHostdev, IsHex;
    AttachedMatches(p, q);
    if p.PciPin? { NoAttrs(p.address); }
  }

  /** The device of a pin is that of every pin that names the same device. */
  lemma MatchesAgree(h: Hostdev, p: Pin, q: Pin)
    requires Readable(q) && SameDevice(p, q) && Matches(h, p)
    ensures Matches(h, q)
  {
    hide ToLower, ParsePCIAddr, ParseHexU, ValidAddress, IsHex;
    match p
    case UsbPin(_, v, d, _) =>
      PrefixAway(ToLower(v), ToLower(q.vendor));
      PrefixAway(ToLower(d), ToLower(q.product));
    case PciPin(_, a, _) =>
      LowerValid(q.address, a);
      SameDeviceIff(a, q.address);
  }

  // ---------- a pass ----------

  lemma HasMore(hs: seq<Hostdev>, h: Hostdev, q: Pin)
    ensures Has(hs + [h], q) <==> Has(hs, q) || Matches(h, q)
  {
    hide Matches;
    var all := hs + [h];
    if i :| 0 <= i < |hs| && Matches(hs[i], q) { assert all[i] == hs[i]; }
    if Matches(h, q) { assert all[|hs|] == h; }
    if i :| 0 <= i < |all| && Matches(all[i], q) { assert i < |hs| ==> hs[i] == all[i]; }
  }

  /** After a pass a VM has exactly the devices it had and those pinned to it, whatever the order and
      whatever else is pinned. */
  lemma {:induction false} PassHasIff(ps: seq<Pin>, c: Configs, vm: string, q: Pin)
    requires vm in c && Readable(q)
    ensures PassOver(ps, c).Keys == c.Keys
    ensures Has(PassOver(ps, c)[vm], q) <==>
            Has(c[vm], q) || exists i :: 0 <= i < |ps| && ps[i].vm == vm && SameDevice(ps[i], q)
  {
    hide Has, Matches, Snippet, SameDevice, Readable;
    if ps != [] {
      var n := |ps| - 1;
      var p, d := ps[n], PassOver(ps[..n], c);
      PassHasIff(ps[..n], c, vm, q);
      assert forall i :: 0 <= i < n ==> ps[..n][i] == ps[i];
      AttachedMatches(p, q);
      if p.vm == vm {
        if Has(d[vm], p) { if SameDevice(p, q) { HasAgree(d[vm], p, q); } }
        else if Snippet(p).Some? { HasMore(d[vm], Snippet(p).value, q); }
      }
    }
  }

  /** What every config is asked for: any USB ids, or a valid PCI address. */
  predicate Readable(q: Pin) {
    q.PciPin? ==> ValidAddress(q.address)
  }

  /** The device of any pin is the one looked for exactly when the pins name the same device. */
  lemma AttachedMatches(p: Pin, q: Pin)
    requires Readable(q)
    ensures Snippet(p).Some? ==> (Matches(Snippet(p).value, q) <==> SameDevice(p, q))
    ensures Snippet(p).None? ==> !SameDevice(p, q)
  {
    hide ToLower, ParsePCIAddr, ParseHexU, ValidAddress, HostdevAttrs, HasHostdev, IsHex;
    match p
    case UsbPin(_, v, d, _) =>
      LowerAgain(v);
      LowerAgain(d);
      if q.UsbPin? { PrefixAway(ToLower(v), ToLower(q.vendor)); PrefixAway(ToLower(d), ToLower(q.product)); }
    case PciPin(_, a, _) =>
      if q.PciPin? && ToLower(q.address) == ToLower(a) { LowerValid(q.address, a); }
      NoAttrs(a);
      if ValidAddress(a) {
        HostdevReadsBack(a, []);
        if q.PciPin? { SameDeviceIff(a, q.address); }
      }
  }

  lemma NoAttrs(a: string)
    ensures HostdevAttrs(a).Some? <==> ValidAddress(a)
  {
    hide ValidAddress, Fields, ToLower;
  }

  lemma HasAgree(hs: seq<Hostdev>, p: Pin, q: Pin)
    requires Readable(q) && Has(hs, p) && SameDevice(p, q)
    ensures Has(hs, q)
  {
    hide Matches, Readable, SameDevice;
    var i :| 0 <= i < |hs| && Matches(hs[i], p);
    MatchesAgree(hs[i], p, q);
  }

  /** The USB devices a VM has after a pass, by the ids its config gives: those it had, and those pinned. */
  lemma UsbPassIff(ps: seq<Pin>, c: Configs, vm: string, v: string, d: string)
    requires vm in c
    ensures vm in PassOver(ps, c) && var hs := PassOver(ps, c)[vm];
      (exists i :: 0 <= i < |hs| && hs[i].UsbHostdev?
                   && ToLower(hs[i].vendor) == "0x" + ToLower(v) && ToLower(hs[i].product) == "0x" + ToLower(d))
      <==>
      || (exists i :: 0 <= i < |c[vm]| && c[vm][i].UsbHostdev?
                      && ToLower(c[vm][i].vendor) == "0x" + ToLower(v)
                      && ToLower(c[vm][i].product) == "0x" + ToLower(d))
      || exists i :: 0 <= i < |ps| && ps[i].vm == vm && ps[i].UsbPin?
                     && ToLower(ps[i].vendor) == ToLower(v) && ToLower(ps[i].product) == ToLower(d)
  {
    hide PassOver, ToLower, ValidAddress, ParsePCIAddr;
    PassHasIff(ps, c, vm, UsbPin(vm, v, d, ""));
  }

  /** The PCI devices a VM has after a pass, by the numbers its config gives: those it had, and those pinned. */
  lemma PciPassIff(ps: seq<Pin>, c: Configs, vm: string, a: string)
    requires vm in c && ValidAddress(a)
    ensures |a| == 12 && AllHex(a[..4]) && AllHex(a[5..7]) && AllHex(a[8..10]) && AllHex(a[11..])
    ensures vm in PassOver(ps, c) && var hs := PassOver(ps, c)[vm];
      (exists i :: 0 <= i < |hs| && hs[i].PciHostdev?
                   && ParseHexU(hs[i].address.domain) == Hex(a[..4]) && ParseHexU(hs[i].address.bus) == Hex(a[5..7])
                   && ParseHexU(hs[i].address.slot) == Hex(a[8..10]) && ParseHexU(hs[i].address.fn) == Hex(a[11..]))
      <==>
      || (exists i :: 0 <= i < |c[vm]| && c[vm][i].PciHostdev?
                      && ParseHexU(c[vm][i].address.domain) == Hex(a[..4])
                      && ParseHexU(c[vm][i].address.bus) == Hex(a[5..7])
                      && ParseHexU(c[vm][i].address.slot) == Hex(a[8..10])
                      && ParseHexU(c[vm][i].address.fn) == Hex(a[11..]))
      || exists i :: 0 <= i < |ps| && ps[i].vm == vm && ps[i].PciPin? && ToLower(ps[i].address) == ToLower(a)
  {
    hide PassOver, ToLower, ValidAddress, ParsePCIAddr, ParseHexU, Hex;
    AddressIs(a);
    PassHasIff(ps, c, vm, PciPin(vm, a, ""));
  }

  /** What is attached for a pin: its ids, or the parts of its address, in small letters. */
  lemma SnippetIs(p: Pin)
    ensures p.UsbPin? ==> Snippet(p) == Some(UsbHostdev("0x" + ToLower(p.vendor), "0x" + ToLower(p.product)))
    ensures p.PciPin? && !ValidAddress(p.address) ==> Snippet(p) == None
    ensures p.PciPin? && ValidAddress(p.address) ==>
              && |p.address| == 12 && AllHex(p.address[..4]) && AllHex(p.address[5..7])
              && AllHex(p.address[8..10]) && AllHex(p.address[11..])
              && Snippet(p) == Some(PciHostdev(Quad(
                  "0x" + ToLower(p.address[..4]), "0x" + ToLower(p.address[5..7]),
                  "0x" + ToLower(p.address[8..10]), "0x" + ToLower(p.address[11..]))))
  {
    hide ToLower, ValidAddress, HostdevAttrs, AllHex;
    if p.PciPin? {
      NoAttrs(p.address);
      if ValidAddress(p.address) { AddressIs(p.address); }
    }
  }

  /** The devices a config already declared stay in front, and every device attached behind them was
      not declared before it: nothing is attached twice, even for pins that differ only in case. */
  predicate Attached(before: seq<Hostdev>, after: seq<Hostdev>, ps: seq<Pin>) {
    && before <= after
    && forall k :: |before| <= k < |after| ==>
         exists i :: 0 <= i < |ps| && Snippet(ps[i]) == Some(after[k]) && !Has(after[..k], ps[i])
  }

  lemma {:induction false} PassAttaches(ps: seq<Pin>, c: Configs, vm: string)
    requires vm in c
    ensures vm in PassOver(ps, c) && Attached(c[vm], PassOver(ps, c)[vm], ps)
  {
    hide Has, Snippet;
    if ps != [] {
      var n := |ps| - 1;
      PassAttaches(ps[..n], c, vm);
      var d, e := PassOver(ps[..n], c)[vm], PassOver(ps, c)[vm];
      forall k | |c[vm]| <= k < |e|
        ensures exists i :: 0 <= i < |ps| && Snippet(ps[i]) == Some(e[k]) && !Has(e[..k], ps[i])
      {
        if k < |d| {
          var i :| 0 <= i < n && Snippet(ps[..n][i]) == Some(d[k]) && !Has(d[..k], ps[..n][i]);
          assert e[..k] == d[..k] && ps[..n][i] == ps[i];
        } else {
          assert e[..k] == d && Snippet(ps[n]) == Some(e[k]);
        }
      }
    }
  }

  /** A second pass over pins already visited attaches nothing. */
  lemma {:induction false} SecondPassIdle(ps: seq<Pin>, qs: seq<Pin>, c: Configs)
    requires forall i :: 0 <= i < |qs| ==> qs[i] in ps
    ensures PassOver(qs, PassOver(ps, c)) == PassOver(ps, c)
    decreases |qs|
  {
    hide Has, Snippet, Readable, SameDevice;
    if qs != [] {
      var n := |qs| - 1;
      SecondPassIdle(ps, qs[..n], c);
      var q := qs[n];
      var i :| 0 <= i < |ps| && ps[i] == q;
      if !Readable(q) { Unreadable(q); }
      if q.vm in c && Readable(q) {
        PassHasIff(ps, c, q.vm, q);
        SameItself(q);
      } else if q.vm !in c {
        NoSuchVm(ps, c, q.vm);
      }
    }
  }

  lemma Unreadable(q: Pin)
    requires !Readable(q)
    ensures Snippet(q).None?
  {
    NoAttrs(q.address);
    hide ValidAddress, HostdevAttrs;
  }

  lemma SameItself(q: Pin)
    ensures SameDevice(q, q)
  {
  }

  lemma {:induction false} NoSuchVm(ps: seq<Pin>, c: Configs, vm: string)
    requires vm !in c
    ensures vm !in PassOver(ps, c)
  {
    if ps != [] { NoSuchVm(ps[..|ps| - 1], c, vm); }
  }

  // ---------- unpinning ----------

  lemma SameTail(a: string, x: string, b: string, y: string)
    requires |x| == |y| && a + x == b + y
    ensures a == b && x == y
  {
    assert a == (a + x)[..|a|] && b == (b + y)[..|b|] && |a| == |b|;
    assert x == (a + x)[|a|..] && y == (b + y)[|b|..];
  }

  /** Among accepted pins of one kind the key tells the VM and the exact text of the device. */
  lemma KeyInjective(p: Pin, q: Pin)
    requires Accepted(p) && Accepted(q) && (p.UsbPin? <==> q.UsbPin?) && Key(p) == Key(q)
    ensures p.vm == q.vm
    ensures p.UsbPin? ==> p.vendor == q.vendor && p.product == q.product
    ensures p.PciPin? ==> p.address == q.address
  {
    match p
    case UsbPin(vm, v, d, _) =>
      var x, y := "/" + v + ":" + d, "/" + q.vendor + ":" + q.product;
      assert Key(p) == vm + x && Key(q) == q.vm + y;
      SameTail(vm, x, q.vm, y);
      SameTail("/" + v + ":", d, "/" + q.vendor + ":", q.product);
      assert v == ("/" + v + ":")[1..5] && q.vendor == ("/" + q.vendor + ":")[1..5];
    case PciPin(vm, a, _) =>
      ValidFields(a);
      ValidFields(q.address);
      assert |a| == 12 && |q.address| == 12;
      assert Key(p) == (vm + "/") + a && Key(q) == (q.vm + "/") + q.address;
      SameTail(vm + "/", a, q.vm + "/", q.address);
      assert vm == (vm + "/")[..|vm|] && q.vm == (q.vm + "/")[..|q.vm|];
  }

  /** In a device pass running alone, a device unpinned and detached stays detached exactly when no other
      pin of the VM names it in another case. */
  lemma UnpinHoldsIff(data: map<string, Pin>, p: Pin, ps: seq<Pin>, c: Configs)
    requires Keyed(data) && (p.PciPin? ==> ValidAddress(p.address))
    requires IsListing(ps, data - {Key(p)}) && p.vm in c && !Has(c[p.vm], p)
    ensures PassOver(ps, c).Keys == c.Keys
    ensures !Has(PassOver(ps, c)[p.vm], p) <==>
            forall k :: k in data && k != Key(p) && data[k].vm == p.vm ==> !SameDevice(data[k], p)
  {
    hide Has, Matches, SameDevice, Key, ValidAddress, PassOver;
    PassHasIff(ps, c, p.vm, p);
    forall i | 0 <= i < |ps| ensures Key(ps[i]) in data && Key(ps[i]) != Key(p) && data[Key(ps[i])] == ps[i] {}
    var rest := data - {Key(p)};
    forall k | k in data && k != Key(p) && data[k].vm == p.vm && SameDevice(data[k], p)
      ensures exists i :: 0 <= i < |ps| && ps[i].vm == p.vm && SameDevice(ps[i], p)
    {
      assert k in rest && data[k] in ps;
    }
  }

  /** The other case happens: a device pinned in capitals and unpinned in small letters comes back. */
  lemma UnpinnedComesBack(vm: string)
    ensures var p, q := PciPin(vm, SMALL, ""), PciPin(vm, LARGE, "");
      && Accepted(p) && Accepted(q) && IsListing([q], map[Key(q) := q] - {Key(p)})
      && vm in PassOver([q], map[vm := []]) && Has(PassOver([q], map[vm := []])[vm], p)
  {
    var p, q := PciPin(vm, SMALL, ""), PciPin(vm, LARGE, "");
    Capital();
    assert p.address[6] != q.address[6];
    OtherKey(p, q);
    SameText(q, p);
    hide Key, ValidAddress, SameDevice, ToLower, PassOver;
    ComesBack(p, q);
  }

  lemma OtherKey(p: Pin, q: Pin)
    requires p.PciPin? && q.PciPin? && Accepted(p) && Accepted(q) && p.address != q.address
    ensures Key(p) != Key(q)
  {
    hide Key;
    if Key(p) == Key(q) { KeyInjective(p, q); }
  }

  lemma ComesBack(p: Pin, q: Pin)
    requires Accepted(p) && Accepted(q) && p.vm == q.vm && Key(p) != Key(q) && SameDevice(q, p)
    ensures IsListing([q], map[Key(q) := q] - {Key(p)})
    ensures p.vm in PassOver([q], map[p.vm := []]) && Has(PassOver([q], map[p.vm := []])[p.vm], p)
  {
    hide Has, SameDevice, Key, PassOver, ValidAddress;
    assert map[Key(q) := q] - {Key(p)} == map[Key(q) := q];
    PassHasIff([q], map[p.vm := []], p.vm, p);
    assert [q][0] == q;
  }

  lemma SameText(p: Pin, q: Pin)
    requires p.PciPin? && q.PciPin? && ToLower(p.address) == ToLower(q.address)
    ensures SameDevice(p, q)
  {
  }

  const SMALL := ['0', '0', '0', '0', ':', '0', 'a', ':', '0', '0', '.', '0']
  const LARGE := ['0', '0', '0', '0', ':', '0', 'A', ':', '0', '0', '.', '0']

  lemma Capital()
    ensures ValidAddress(SMALL) && ValidAddress(LARGE) && ToLower(LARGE) == ToLower(SMALL)
  {
    CapitalValid('a');
    CapitalValid('A');
    CapitalLower();
  }

  lemma CapitalLower()
    ensures ToLower(LARGE) == ToLower(SMALL)
  {
    assert LowerChar('A') == LowerChar('a');
    forall i | 0 <= i < 12 ensures LowerChar(LARGE[i]) == LowerChar(SMALL[i]) {}
  }

  lemma CapitalValid(c: char)
    requires HexChar(c)
    ensures ValidAddress(['0', '0', '0', '0', ':', '0', c, ':', '0', '0', '.', '0'])
  {
    var s := ['0', '0', '0', '0', ':', '0', c, ':', '0', '0', '.', '0'];
    var s1, s2 := ['0', c, ':', '0', '0', '.', '0'], ['0', '0', '.', '0'];
    CutIs(s, ':', ['0', '0', '0', '0'], s1);
    CutIs(s1, ':', ['0', c], s2);
    CutIs(s2, '.', ['0', '0'], ['0']);
    hide Cut, IsHex, HexChar;
    PartsHex(c);
    ValidParts(s, ['0', '0', '0', '0'], s1, ['0', c], s2, ['0', '0'], ['0']);
  }

  lemma PartsHex(c: char)
    requires HexChar(c)
    ensures IsHex(['0', '0', '0', '0']) && IsHex(['0', c]) && IsHex(['0', '0'])
  {
  }
}
