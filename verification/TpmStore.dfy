/** internal/tpm/store.go: the VMs whose TPM is pinned, and the pass that puts the device back. */
module TpmStore {
  import opened GoStrings
  import AttrList
  import VncMarker
  import opened Client
  import opened TpmXml
  import opened TpmLaws

  /** The repair of one pinned, defined VM. */
  function Repaired(text: string): string {
    if InfoXML(text).present then text else
    match SetTpmXML(text, true)
    case Ok(t) => t
    case NoDevice => text
  }

  /** The configs after a pass; which order the pass took does not show. */
  function Pass(pinned: set<string>, configs: map<string, string>): map<string, string> {
    map vm | vm in configs :: if vm in pinned then Repaired(configs[vm]) else configs[vm]
  }

  // ---------- the store ----------

  predicate Lacks(vm: string, configs: map<string, string>) {
    vm in configs && !InfoXML(configs[vm]).present && SetTpmXML(configs[vm], true).Ok?
  }

  /** The VMs a pass defines: pinned, without a TPM, and with somewhere to put one. */
  function ToDefine(pinned: set<string>, configs: map<string, string>): set<string> {
    set vm | vm in pinned && Lacks(vm, configs)
  }

  class Store {
    var data: set<string>

    constructor ()
      ensures data == {}
    {
      data := {};
    }

    method Pinned(vm: string) returns (r: bool)
      ensures r == (vm in data)
    {
      r := vm in data;
    }

    method Pin(vm: string)
      modifies this
      ensures data == old(data) + {vm}
    {
      data := data + {vm};
    }

    method Unpin(vm: string)
      modifies this
      ensures data == old(data) - {vm}
    {
      data := data - {vm};
    }

    method All() returns (out: seq<string>)
      ensures Unique(out) && Elems(out) == data
    {
      out := [];
      var left := data;
      while left != {}
        invariant left <= data && Elems(out) == data - left && Unique(out)
        decreases left
      {
        var vm :| vm in left;
        assert vm !in Elems(out);
        ElemsMore(out, vm);
        out := out + [vm];
        left := left - {vm};
      }
    }

    /** The body of the reconciler's loop; a return is the loop's `continue`. */
    method ReconcileOne(vc: Virsh, vm: string)
      modifies vc
      ensures vc.configs == Pass({vm}, old(vc.configs))
      ensures |vc.log| == |old(vc.log)| + |ToDefine({vm}, old(vc.configs))|
    {
      hide InfoXML, SetTpmXML;
      assert ToDefine({vm}, vc.configs) == if Lacks(vm, vc.configs) then {vm} else {};
      var defined := vc.State(vm);
      if !defined { return; }
      var present, _, _ := vc.TPMInfo(vm);
      if present { return; }
      var ok := vc.SetTPM(vm, true);
    }

    /** Re-adds the device to every pinned VM that lost it, in whatever order the map yields. */
    method Reconcile(vc: Virsh)
      modifies vc
      ensures vc.configs == Pass(data, old(vc.configs))
      ensures |vc.log| == |old(vc.log)| + |ToDefine(data, old(vc.configs))|
    {
      hide Pass, ToDefine;
      var all := All();
      ghost var was := vc.configs;
      PassNone(was);
      assert Elems(all[..0]) == {};
      for i := 0 to |all|
        invariant vc.configs == Pass(Elems(all[..i]), was)
        invariant |vc.log| == |old(vc.log)| + |ToDefine(Elems(all[..i]), was)|
      {
        ElemsMore(all[..i], all[i]);
        assert all[..i] + [all[i]] == all[..i + 1];
        PassMore(Elems(all[..i]), all[i], was);
        ReconcileOne(vc, all[i]);
      }
      assert all[..|all|] == all;
    }
  }

  predicate Unique(s: seq<string>) {
    forall i, j :: 0 <= i < j < |s| ==> s[i] != s[j]
  }

  function Elems(s: seq<string>): set<string> {
    set x | x in s
  }

  lemma ElemsMore(s: seq<string>, x: string)
    ensures Elems(s + [x]) == Elems(s) + {x}
    ensures forall i :: 0 <= i < |s| ==> s[i] in Elems(s)
  {
  }

  lemma PassNone(configs: map<string, string>)
    ensures Pass({}, configs) == configs && |ToDefine({}, configs)| == 0
  {
    assert ToDefine({}, configs) == {};
  }

  /** The VMs visited one by one do not disturb each other. */
  lemma PassMore(done: set<string>, vm: string, was: map<string, string>)
    requires vm !in done
    ensures Pass({vm}, Pass(done, was)) == Pass(done + {vm}, was)
    ensures |ToDefine(done + {vm}, was)| == |ToDefine(done, was)| + |ToDefine({vm}, Pass(done, was))|
  {
    hide InfoXML, SetTpmXML, Repaired;
    var a, b := ToDefine(done, was), ToDefine({vm}, Pass(done, was));
    assert ToDefine(done + {vm}, was) == a + b && a !! b;
  }

  // ---------- what a pass achieves ----------

  /** Adding the device gives a document in which the reader finds one, whatever stood in it before. */
  lemma AddedIsPresent(d: string)
    requires SetTpmXML(d, true).Ok?
    ensures InfoXML(SetTpmXML(d, true).value).present
  {
    hide TPM_DEVICE, Element, ElementEnd, LastIndexBelow, IndexFrom, AttrList.AttrText, FirstTag;
    if !InfoXML(d).present {
      var i := LastIndex(d, CLOSE_DEVICES);
      LastFits(d, i);
      var u, v := d[..i], d[i..];
      AddedText(u, v);
      ElementEndsThere(u + "    ", "\n" + v);
      var w := u + TPM_DEVICE + v;
      ElementStarts(u + "    ", "\n" + v);
      assert w == u + "    " + Element() + ("\n" + v);
      assert At(w, |u + "    "|, TPM) && ElementEnd(w, |u + "    "|) > 0;
      assert ElementFrom(w, 0) >= 0;
    }
  }

  lemma LastFits(d: string, i: int)
    requires i >= 0 && i == LastIndex(d, CLOSE_DEVICES)
    ensures i <= |d|
  {
  }

  /** After a pass every pinned, defined VM with a device list has a TPM; the configs of the VMs that are not
      pinned, that had one or that have no device list are as they were, and the others are what adding the
      device makes of them. */
  lemma PassRestores(pinned: set<string>, configs: map<string, string>, vm: string)
    requires vm in configs
    ensures vm in Pass(pinned, configs) && var t, d := Pass(pinned, configs)[vm], configs[vm];
      var i := LastIndex(d, "</devices>");
      && (vm in pinned && i >= 0 ==> InfoXML(t).present)
      && (vm !in pinned || InfoXML(d).present || i < 0 ==> t == d)
      && (vm in pinned && !InfoXML(d).present && i >= 0 ==> i <= |d| && t == d[..i] + TPM_DEVICE + d[i..])
  {
    hide InfoXML;
    var d := configs[vm];
    if LastIndex(d, CLOSE_DEVICES) >= 0 { AddedIsPresent(d); }
  }

  /** On any documents whatever, a second pass defines nothing. */
  lemma SecondPassIdle(pinned: set<string>, configs: map<string, string>)
    ensures Pass(pinned, Pass(pinned, configs)) == Pass(pinned, configs)
    ensures ToDefine(pinned, Pass(pinned, configs)) == {}
  {
    hide InfoXML, SetTpmXML;
    forall vm | vm in configs && SetTpmXML(configs[vm], true).Ok?
      ensures InfoXML(SetTpmXML(configs[vm], true).value).present
    {
      AddedIsPresent(configs[vm]);
    }
  }
}
