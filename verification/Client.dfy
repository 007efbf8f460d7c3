/**
 The part of the virsh client that the VNC and TPM reconcilers use (internal/virsh): persistent configs
 that are dumped, edited as text and defined.
*/
module Client {
  import opened GoStrings
  import opened VncXml
  import opened TpmXml

  /** One `virsh define` and the text it defined. */
  datatype Write =
    | PasswordWrite(vm: string, text: string)
    | ListenWrite(vm: string, listen: string, port: Int, text: string)
    | TpmWrite(vm: string, text: string)

  /** The persistent configs, and every define so far. */
  datatype World = World(configs: map<string, string>, log: seq<Write>)

  /** VNCHasPassword: a domain without a console has nothing to repair. */
  predicate Protected(text: string) {
    var i := GraphicsInfo(text);
    !i.found || i.hasPassword
  }

  class Virsh {
    var configs: map<string, string>
    ghost var log: seq<Write>

    ghost function Now(): World
      reads this
    {
      World(configs, log)
    }

    constructor (configs: map<string, string>)
      ensures this.configs == configs && log == []
    {
      this.configs := configs;
      log := [];
    }

    method State(vm: string) returns (ok: bool)
      ensures ok == (vm in configs)
    {
      ok := vm in configs;
    }

    method VNCHasPassword(vm: string) returns (has: bool)
      requires vm in configs
      ensures has == Protected(configs[vm])
    {
      var i := GraphicsInfo(configs[vm]);
      has := if !i.found then true else i.hasPassword;
    }

    method VNCListenInfo(vm: string) returns (listen: string, port: Int, auto: bool)
      requires vm in configs
      ensures listen == GraphicsInfo(configs[vm]).listen && Port(port, auto) == GraphicsPort(configs[vm])
    {
      var i := GraphicsInfo(configs[vm]);
      if !i.found { return "", 0, false; }
      var p := GraphicsPort(configs[vm]);
      return i.listen, p.port, p.auto;
    }

    /** Dump, edit, define. */
    method SetVNCPassword(vm: string, pw: string) returns (ok: bool)
      modifies this
      ensures ok == (vm in old(configs) && SetPasswordXML(old(configs)[vm], pw).Ok?)
      ensures !ok ==> configs == old(configs) && log == old(log)
      ensures ok ==> var t := SetPasswordXML(old(configs)[vm], pw).value;
        configs == old(configs)[vm := t] && log == old(log) + [PasswordWrite(vm, t)]
    {
      if vm !in configs { return false; }
      var r := SetPasswordXML(configs[vm], pw);
      if r.NoDevice? { return false; }
      configs := configs[vm := r.value];
      log := log + [PasswordWrite(vm, r.value)];
      ok := true;
    }

    /** Dump, edit, define. */
    method SetVNCListen(vm: string, listen: string, port: Int) returns (ok: bool)
      modifies this
      ensures ok == (vm in old(configs) && SetListenXML(old(configs)[vm], listen, port).Ok?)
      ensures !ok ==> configs == old(configs) && log == old(log)
      ensures ok ==> var t := SetListenXML(old(configs)[vm], listen, port).value;
        configs == old(configs)[vm := t] && log == old(log) + [ListenWrite(vm, listen, port, t)]
    {
      if vm !in configs { return false; }
      var r := SetListenXML(configs[vm], listen, port);
      if r.NoDevice? { return false; }
      configs := configs[vm := r.value];
      log := log + [ListenWrite(vm, listen, port, r.value)];
      ok := true;
    }

    method TPMInfo(vm: string) returns (present: bool, model: string, version: string)
      requires vm in configs
      ensures TpmInfo(present, model, version) == InfoXML(configs[vm])
    {
      var i := InfoXML(configs[vm]);
      return i.present, i.model, i.version;
    }

    /** Dump, edit, define; a document that needs no edit is defined as it is. */
    method SetTPM(vm: string, enabled: bool) returns (ok: bool)
      modifies this
      ensures ok == (vm in old(configs) && SetTpmXML(old(configs)[vm], enabled).Ok?)
      ensures !ok ==> configs == old(configs) && log == old(log)
      ensures ok ==> var t := SetTpmXML(old(configs)[vm], enabled).value;
        configs == old(configs)[vm := t] && log == old(log) + [TpmWrite(vm, t)]
    {
      if vm !in configs { return false; }
      var r := SetTpmXML(configs[vm], enabled);
      if r.NoDevice? { return false; }
      configs := configs[vm := r.value];
      log := log + [TpmWrite(vm, r.value)];
      ok := true;
    }
  }
}
