/**
 internal/vnc/store.go: the pinned console state and its reconciler, over the persistent configs that
 virsh dumps and defines.
*/
module VncStore {
  import opened GoStrings
  import opened VncXml
  import opened Client

  /** An empty `listen` leaves the address alone; port 0 is autoport. */
  datatype Entry = Entry(vm: string, password: string, listen: string, port: Int)

  // ---------- one entry ----------

  /** The port-drift rule: a pinned port must be fixed to it, port 0 wants autoport. */
  predicate PortDrifted(port: Int, now: Port) {
    (port > 0 && (now.auto || now.port != port)) || (port <= 0 && !now.auto)
  }

  predicate ListenInPlace(e: Entry, text: string) {
    GraphicsInfo(text).listen == e.listen && !PortDrifted(e.port, GraphicsPort(text))
  }

  datatype Repair = Repair(text: string, writes: seq<Write>)

  /** The password half; None when the define failed, which skips the rest of the entry. */
  function RepairPassword(e: Entry, text: string): Option<Repair> {
    if e.password == "" || Protected(text) then Some(Repair(text, [])) else
    match SetPasswordXML(text, e.password)
    case NoDevice => None
    case Ok(t) => Some(Repair(t, [PasswordWrite(e.vm, t)]))
  }

  function RepairListen(e: Entry, text: string): Repair {
    if e.listen == "" || ListenInPlace(e, text) then Repair(text, []) else
    match SetListenXML(text, e.listen, e.port)
    case NoDevice => Repair(text, [])
    case Ok(t) => Repair(t, [ListenWrite(e.vm, e.listen, e.port, t)])
  }

  /** What a pass does to the config of one pinned, defined VM. */
  function RepairEntry(e: Entry, text: string): Repair {
    match RepairPassword(e, text)
    case None => Repair(text, [])
    case Some(p) =>
      var l := RepairListen(e, p.text);
      Repair(l.text, p.writes + l.writes)
  }

  function PassOne(e: Entry, w: World): World {
    if e.vm !in w.configs then w else
    var r := RepairEntry(e, w.configs[e.vm]);
    World(w.configs[e.vm := r.text], w.log + r.writes)
  }

  /** A whole pass, entry by entry. */
  function PassOver(es: seq<Entry>, w: World): World {
    if es == [] then w else PassOne(es[|es| - 1], PassOver(es[..|es| - 1], w))
  }

  // ---------- the store ----------

  /** Entries are kept under their own VM's name. */
  predicate Keyed(data: map<string, Entry>) {
    forall vm :: vm in data ==> data[vm].vm == vm
  }

  /** `es` lists every entry of `data` once, in some order. */
  predicate IsListing(es: seq<Entry>, data: map<string, Entry>) {
    && (forall i :: 0 <= i < |es| ==> es[i].vm in data && data[es[i].vm] == es[i])
    && (forall i, j :: 0 <= i < j < |es| ==> es[i].vm != es[j].vm)
    && (forall vm :: vm in data ==> data[vm] in es)
  }

  class Store {
    var data: map<string, Entry>

    constructor ()
      ensures data == map[]
    {
      data := map[];
    }

    method All() returns (out: seq<Entry>)
      requires Keyed(data)
      ensures IsListing(out, data)
    {
      out := [];
      var left := data.Keys;
      while left != {}
        invariant left <= data.Keys
        invariant forall i :: 0 <= i < |out| ==> out[i].vm in data && out[i].vm !in left && data[out[i].vm] == out[i]
        invariant forall i, j :: 0 <= i < j < |out| ==> out[i].vm != out[j].vm
        invariant forall vm :: vm in data && vm !in left ==> data[vm] in out
        decreases left
      {
        var vm :| vm in left;
        out := out + [data[vm]];
        left := left - {vm};
      }
    }

    method Get(vm: string) returns (e: Option<Entry>)
      ensures e.Some? <==> vm in data
      ensures e.Some? ==> e.value == data[vm]
    {
      e := if vm in data then Some(data[vm]) else None;
    }

    method Set(e: Entry)
      requires Keyed(data)
      modifies this
      ensures data == old(data)[e.vm := e] && Keyed(data)
    {
      data := data[e.vm := e];
    }

    method Remove(vm: string)
      requires Keyed(data)
      modifies this
      ensures data == old(data) - {vm} && Keyed(data)
    {
      data := data - {vm};
    }

    /** The body of the reconciler's loop; a return is the loop's `continue`. */
    method ReconcileEntry(vc: Virsh, e: Entry)
      modifies vc
      ensures vc.Now() == PassOne(e, old(vc.Now()))
    {
      hide GraphicsInfo, GraphicsPort, SetPasswordXML, SetListenXML;
      var defined := vc.State(e.vm);
      if !defined { return; }
      var has := true;
      if e.password != "" {
        has := vc.VNCHasPassword(e.vm);
      }
      if !has {
        var ok := vc.SetVNCPassword(e.vm, e.password);
        if !ok { return; }
      }
      assert vc.Now().configs == old(vc.configs)[e.vm := vc.configs[e.vm]];
      if e.listen == "" { return; }
      var listen, port, auto := vc.VNCListenInfo(e.vm);
      var portDrifted := (e.port > 0 && (auto || port != e.port)) || (e.port <= 0 && !auto);
      assert portDrifted == PortDrifted(e.port, GraphicsPort(vc.configs[e.vm]));
      if listen == e.listen && !portDrifted { return; }
      var ok := vc.SetVNCListen(e.vm, e.listen, e.port);
    }

    /** Re-applies every pin, in whatever order the map yields the entries. */
    method Reconcile(vc: Virsh) returns (ghost es: seq<Entry>)
      requires Keyed(data)
      modifies vc
      ensures IsListing(es, data) && vc.Now() == PassOver(es, old(vc.Now()))
    {
      hide PassOne;
      var all := All();
      es := all;
      for i := 0 to |all|
        invariant vc.Now() == PassOver(all[..i], old(vc.Now()))
      {
        ReconcileEntry(vc, all[i]);
        assert all[..i + 1][..i] == all[..i];
      }
      assert all[..|all|] == all;
    }
  }
}
