/** The POST and DELETE transitions of vncDomain (internal/handlers/handlers.go), and what every run of
    them, of reconciler passes and of outside rewrites keeps. */
module VncHandler {
  import opened GoStrings
  import opened VncXml
  import opened VncLaws
  import opened Password
  import opened Client
  import opened VncStore
  import opened VncPass

  const LOCAL := "127.0.0.1"
  const ALL := "0.0.0.0"

  datatype Request = Request(password: string, listen: string, port: Int)

  /** The pinned entries and the outside world. */
  datatype System = System(data: map<string, Entry>, world: World)

  datatype Reply = Reply(status: int, system: System)

  // ---------- the transitions, as functions ----------

  /** A request without a password reuses the pinned one. */
  function EffectivePassword(data: map<string, Entry>, vm: string, r: Request): string {
    if r.password == "" && vm in data then data[vm].password else r.password
  }

  function DefinePassword(w: World, vm: string, pw: string): Option<World> {
    if vm !in w.configs then None else
    match SetPasswordXML(w.configs[vm], pw)
    case NoDevice => None
    case Ok(t) => Some(World(w.configs[vm := t], w.log + [PasswordWrite(vm, t)]))
  }

  function DefineListen(w: World, vm: string, listen: string, port: Int): Option<World> {
    if vm !in w.configs then None else
    match SetListenXML(w.configs[vm], listen, port)
    case NoDevice => None
    case Ok(t) => Some(World(w.configs[vm := t], w.log + [ListenWrite(vm, listen, port, t)]))
  }

  function Post(s: System, vm: string, r: Request): Reply {
    var pw := EffectivePassword(s.data, vm, r);
    if r.listen != "" && r.listen != LOCAL && r.listen != ALL then Reply(400, s)
    else if r.port != 0 && (r.port < 5900 || r.port > 65535) then Reply(400, s)
    else if pw == "" && r.listen == LOCAL then
      match DefineListen(s.world, vm, r.listen, r.port)
      case None => Reply(500, s)
      case Some(w) =>
        var kept := if vm in s.data then s.data[vm].password else "";
        Reply(200, System(s.data[vm := Entry(vm, kept, r.listen, r.port)], w))
    else if !ValidPassword(pw) then Reply(400, s)
    else
      match DefinePassword(s.world, vm, pw)
      case None => Reply(500, s)
      case Some(w) =>
        if r.listen == "" then Reply(200, System(s.data[vm := Entry(vm, pw, r.listen, r.port)], w)) else
        match DefineListen(w, vm, r.listen, r.port)
        case None => Reply(500, s.(world := w))
        case Some(w2) => Reply(200, System(s.data[vm := Entry(vm, pw, r.listen, r.port)], w2))
  }

  /** Unpins first, whatever becomes of the define. */
  function Delete(s: System, vm: string): Reply {
    var unpinned := s.data - {vm};
    match DefinePassword(s.world, vm, "")
    case None => Reply(500, System(unpinned, s.world))
    case Some(w) => Reply(200, System(unpinned, w))
  }

  // ---------- the server ----------

  class Server {
    const store: Store
    const virsh: Virsh

    constructor (store: Store, virsh: Virsh)
      ensures this.store == store && this.virsh == virsh
    {
      this.store := store;
      this.virsh := virsh;
    }

    ghost function Now(): System
      reads store, virsh
    {
      System(store.data, virsh.Now())
    }

    method PostVnc(vm: string, r: Request) returns (status: int)
      requires Keyed(store.data)
      modifies store, virsh
      ensures Keyed(store.data) && Reply(status, Now()) == Post(old(Now()), vm, r)
    {
      hide SetPasswordXML, SetListenXML, ValidPassword;
      var pw := r.password;
      if pw == "" {
        var pinned := store.Get(vm);
        if pinned.Some? && pinned.value.password != "" { pw := pinned.value.password; }
      }
      if r.listen != "" && r.listen != LOCAL && r.listen != ALL { return 400; }
      if r.port != 0 && (r.port < 5900 || r.port > 65535) { return 400; }
      if pw == "" && r.listen == LOCAL {
        var ok := virsh.SetVNCListen(vm, r.listen, r.port);
        if !ok { return 500; }
        var entry := Entry(vm, "", r.listen, r.port);
        var prev := store.Get(vm);
        if prev.Some? { entry := entry.(password := prev.value.password); }
        store.Set(entry);
        return 200;
      }
      if !ValidPassword(pw) { return 400; }
      var ok := virsh.SetVNCPassword(vm, pw);
      if !ok { return 500; }
      if r.listen != "" {
        ok := virsh.SetVNCListen(vm, r.listen, r.port);
        if !ok { return 500; }
      }
      store.Set(Entry(vm, pw, r.listen, r.port));
      return 200;
    }

    method DeleteVnc(vm: string) returns (status: int)
      requires Keyed(store.data)
      modifies store, virsh
      ensures Keyed(store.data) && Reply(status, Now()) == Delete(old(Now()), vm)
    {
      hide SetPasswordXML;
      store.Remove(vm);
      var ok := virsh.SetVNCPassword(vm, "");
      status := if ok then 200 else 500;
    }
  }

  // ---------- runs ----------

  datatype Op =
    | DoPost(vm: string, request: Request)
    | DoDelete(vm: string)
    | DoReconcile(es: seq<Entry>)
    | Rewrite(vm: string, text: string)

  /** A pass visits some listing of the store; an outside rewrite replaces a config. */
  ghost predicate Enabled(op: Op, s: System) {
    match op
    case DoReconcile(es) => IsListing(es, s.data)
    case Rewrite(_, text) => Console(text)
    case _ => true
  }

  function Apply(op: Op, s: System): System {
    match op
    case DoPost(vm, r) => Post(s, vm, r).system
    case DoDelete(vm) => Delete(s, vm).system
    case DoReconcile(es) => s.(world := PassOver(es, s.world))
    case Rewrite(vm, text) => s.(world := s.world.(configs := s.world.configs[vm := text]))
  }

  ghost predicate Reaches(s: System, ops: seq<Op>, t: System)
    decreases |ops|
  {
    if ops == [] then s == t
    else Enabled(ops[0], s) && Reaches(Apply(ops[0], s), ops[1..], t)
  }

  /** What an entry may be: a valid password, or none and the console kept local. */
  predicate EntryOk(e: Entry) {
    && (ValidPassword(e.password) || (e.password == "" && e.listen == LOCAL))
    && (e.listen == "" || e.listen == LOCAL || e.listen == ALL)
    && (e.port == 0 || 5900 <= e.port <= 65535)
  }

  predicate StoreOk(data: map<string, Entry>) {
    Keyed(data) && forall vm :: vm in data ==> EntryOk(data[vm])
  }

  lemma ApplyKeepsStore(op: Op, s: System)
    requires StoreOk(s.data) && Enabled(op, s)
    ensures StoreOk(Apply(op, s).data)
  {
    hide ValidPassword, PassOver, SetPasswordXML, SetListenXML;
  }

  /** From an empty store, every reachable entry is one a caller may ask for. */
  lemma {:induction false} EntriesStayOk(s: System, ops: seq<Op>, t: System)
    requires StoreOk(s.data) && Reaches(s, ops, t)
    ensures StoreOk(t.data)
    decreases |ops|
  {
    hide StoreOk, Enabled, Apply;
    if ops != [] {
      ApplyKeepsStore(ops[0], s);
      EntriesStayOk(Apply(ops[0], s), ops[1..], t);
    }
  }

  // ---------- what a request is answered ----------

  /** When a request is refused, when it fails for want of a console, and that only then nothing is pinned. */
  lemma PostAnswers(s: System, vm: string, r: Request)
    ensures var pw := if r.password == "" && vm in s.data then s.data[vm].password else r.password;
      var reply := Post(s, vm, r);
      && (reply.status == 400 <==>
            || (r.listen != "" && r.listen != "127.0.0.1" && r.listen != "0.0.0.0")
            || (r.port != 0 && !(5900 <= r.port <= 65535))
            || (pw == "" && r.listen != "127.0.0.1")
            || |pw| > 8 || exists i :: 0 <= i < |pw| && !(' ' <= pw[i] <= '~' && pw[i] !in "'\"<>&"))
      && (reply.status == 400 ==> reply.system == s)
      && (reply.status != 200 ==> reply.system.data == s.data)
      && (reply.status == 200 ==> reply.system.data == s.data[vm := Entry(vm, pw, r.listen, r.port)])
      && (reply.status in {200, 400, 500})
  {
    hide SetPasswordXML, SetListenXML;
    assert LOCAL == "127.0.0.1" && ALL == "0.0.0.0";
  }

  // ---------- a request without an address ----------

  lemma NoAddressPinned(s: System, vm: string, r: Request)
    requires r.listen == "" && Post(s, vm, r).status == 200 && Keyed(s.data)
    ensures var d := Post(s, vm, r).system.data; Keyed(d) && vm in d && d[vm].listen == ""
  {
    hide SetPasswordXML, SetListenXML, ValidPassword;
    assert "" != LOCAL by { Addresses(); }
  }

  lemma PasswordsOnly(e: Entry, text: string)
    requires e.listen == ""
    ensures var ws := RepairEntry(e, text).writes; forall i :: 0 <= i < |ws| ==> ws[i].PasswordWrite?
  {
    hide GraphicsInfo, GraphicsPort, SetPasswordXML, SetListenXML;
  }

  /** A request that gives no address unpins the one that was pinned: no pass over the store it leaves, in
      whatever order and on whatever configs, writes an address of that VM. */
  lemma NoAddressUnpins(s: System, vm: string, r: Request, es: seq<Entry>, w: World)
    requires r.listen == "" && Post(s, vm, r).status == 200 && Keyed(s.data)
    requires IsListing(es, Post(s, vm, r).system.data)
    ensures var was, now := VncPass.Of(w.log, vm), VncPass.Of(PassOver(es, w).log, vm);
            was <= now && forall i :: |was| <= i < |now| ==> now[i].PasswordWrite?
  {
    hide Post, PassOver, VncPass.Of, RepairEntry;
    NoAddressPinned(s, vm, r);
    PassAt(es, w, vm);
    Listed(es, Post(s, vm, r).system.data, vm);
    if vm in w.configs { PasswordsOnly(Post(s, vm, r).system.data[vm], w.configs[vm]); }
  }

  // ---------- no open console on all interfaces ----------

  /** Every document that a listen define put on all interfaces carries a password. */
  ghost predicate LogSafe(log: seq<Write>) {
    forall i :: 0 <= i < |log| && log[i].ListenWrite? && log[i].listen == ALL ==> GraphicsInfo(log[i].text).hasPassword
  }

  ghost predicate Safe(s: System) {
    && StoreOk(s.data) && LogSafe(s.world.log)
    && (forall vm :: vm in s.data ==> EntryClean(s.data[vm]))
    && (forall vm :: vm in s.world.configs ==> Console(s.world.configs[vm]))
  }

  /** A request whose password does not end like an attribute the listen edit drops. */
  predicate OpClean(op: Op) {
    op.DoPost? ==> !LooksLikeAttr(op.request.password)
  }

  lemma Addresses()
    ensures AddressOk(LOCAL) && AddressOk(ALL) && LOCAL != ALL && LOCAL != ""
  {
    assert LOCAL == ['1', '2', '7', '.', '0', '.', '0', '.', '1'];
    assert ALL == ['0', '.', '0', '.', '0', '.', '0'];
  }

  lemma PasswordDefined(w: World, vm: string, pw: string)
    requires vm in w.configs && Console(w.configs[vm]) && CleanPassword(pw) && DefinePassword(w, vm, pw).Some?
    ensures var t := DefinePassword(w, vm, pw).value.configs[vm];
      CleanConsole(t) && GraphicsInfo(t).hasPassword == (pw != "")
  {
    hide GraphicsInfo, GraphicsPort, CleanConsole, CleanPassword;
    if OpenTag(w.configs[vm]).Span? { PasswordEdit(w.configs[vm], pw); }
  }

  lemma ListenDefined(w: World, vm: string, listen: string, port: Int)
    requires vm in w.configs && Console(w.configs[vm]) && AddressOk(listen) && DefineListen(w, vm, listen, port).Some?
    ensures var t := DefineListen(w, vm, listen, port).value.configs[vm];
      CleanConsole(t) && GraphicsInfo(t).hasPassword == GraphicsInfo(w.configs[vm]).hasPassword
  {
    hide GraphicsInfo, GraphicsPort, CleanConsole, AddressOk;
    if OpenTag(w.configs[vm]).Span? { ListenEdit(w.configs[vm], listen, port); }
  }

  /** A safe define keeps the system safe. */
  lemma DefineSafe(s: System, vm: string, t: string, w: Write)
    requires Safe(s) && CleanConsole(t)
    requires w.ListenWrite? && w.listen == ALL ==> GraphicsInfo(w.text).hasPassword
    ensures Safe(s.(world := World(s.world.configs[vm := t], s.world.log + [w])))
  {
    hide GraphicsInfo, CleanConsole, StoreOk, EntryClean, OpenTag;
  }

  /** So does a good entry. */
  lemma EntrySafe(s: System, e: Entry)
    requires Safe(s) && EntryOk(e) && EntryClean(e)
    ensures Safe(s.(data := s.data[e.vm := e]))
  {
    hide GraphicsInfo, Console, EntryOk, EntryClean, LogSafe;
  }

  lemma PasswordSafe(s: System, vm: string, pw: string)
    requires Safe(s) && CleanPassword(pw) && DefinePassword(s.world, vm, pw).Some?
    ensures Safe(s.(world := DefinePassword(s.world, vm, pw).value))
    ensures pw != "" ==> vm in DefinePassword(s.world, vm, pw).value.configs
                         && GraphicsInfo(DefinePassword(s.world, vm, pw).value.configs[vm]).hasPassword
  {
    assert Console(s.world.configs[vm]);
    PasswordDefined(s.world, vm, pw);
    hide GraphicsInfo, CleanConsole, CleanPassword, SetPasswordXML, Safe, Console;
    var t := SetPasswordXML(s.world.configs[vm], pw).value;
    DefineSafe(s, vm, t, PasswordWrite(vm, t));
  }

  lemma ListenSafe(s: System, vm: string, listen: string, port: Int)
    requires Safe(s) && AddressOk(listen) && DefineListen(s.world, vm, listen, port).Some?
    requires listen == ALL ==> GraphicsInfo(s.world.configs[vm]).hasPassword
    ensures Safe(s.(world := DefineListen(s.world, vm, listen, port).value))
  {
    assert Console(s.world.configs[vm]);
    ListenDefined(s.world, vm, listen, port);
    hide GraphicsInfo, CleanConsole, AddressOk, SetListenXML, Safe, Console;
    var t := SetListenXML(s.world.configs[vm], listen, port).value;
    DefineSafe(s, vm, t, ListenWrite(vm, listen, port, t));
  }

  /** The branch that keeps a console local without a password. */
  lemma LocalSafe(s: System, vm: string, r: Request)
    requires Safe(s) && r.listen == LOCAL && (r.port == 0 || 5900 <= r.port <= 65535)
    requires vm in s.data ==> s.data[vm].password == ""
    requires DefineListen(s.world, vm, r.listen, r.port).Some?
    ensures var w := DefineListen(s.world, vm, r.listen, r.port).value;
            Safe(System(s.data[vm := Entry(vm, "", r.listen, r.port)], w))
  {
    hide GraphicsInfo, ValidPassword, DefineListen, Safe;
    Addresses();
    ListenSafe(s, vm, r.listen, r.port);
    var w := DefineListen(s.world, vm, r.listen, r.port).value;
    EntrySafe(s.(world := w), Entry(vm, "", r.listen, r.port));
  }

  /** The branch that sets a password and perhaps an address. */
  lemma ProtectedSafe(s: System, vm: string, pw: string, r: Request)
    requires Safe(s) && ValidPassword(pw) && CleanPassword(pw) && DefinePassword(s.world, vm, pw).Some?
    requires (r.listen == "" || r.listen == LOCAL || r.listen == ALL) && (r.port == 0 || 5900 <= r.port <= 65535)
    ensures var w, d := DefinePassword(s.world, vm, pw).value, s.data[vm := Entry(vm, pw, r.listen, r.port)];
      && Safe(s.(world := w))
      && (r.listen == "" ==> Safe(System(d, w)))
      && (r.listen != "" && DefineListen(w, vm, r.listen, r.port).Some? ==>
            Safe(System(d, DefineListen(w, vm, r.listen, r.port).value)))
  {
    Addresses();
    NotEmpty(pw);
    hide GraphicsInfo, AddressOk, CleanPassword, ValidPassword, DefinePassword, DefineListen, Safe;
    var w, e := DefinePassword(s.world, vm, pw).value, Entry(vm, pw, r.listen, r.port);
    PasswordSafe(s, vm, pw);
    if r.listen == "" {
      EntrySafe(s.(world := w), e);
    } else if DefineListen(w, vm, r.listen, r.port).Some? {
      ListenSafe(s.(world := w), vm, r.listen, r.port);
      EntrySafe(s.(world := DefineListen(w, vm, r.listen, r.port).value), e);
    }
  }

  lemma PostPassword(s: System, vm: string, r: Request)
    requires Safe(s) && OpClean(DoPost(vm, r))
    ensures var pw := EffectivePassword(s.data, vm, r);
      && (pw == "" && vm in s.data ==> s.data[vm].password == "")
      && (ValidPassword(pw) ==> CleanPassword(pw) && pw != "")
  {
    hide Safe, ValidPassword, CleanPassword, EntryOk, LooksLikeAttr;
    PinnedClean(s, vm);
    NotEmpty(EffectivePassword(s.data, vm, r));
  }

  lemma PostSafe(s: System, vm: string, r: Request)
    requires Safe(s) && OpClean(DoPost(vm, r))
    ensures Safe(Post(s, vm, r).system)
  {
    hide EntryOk, EntryClean, CleanPassword, ValidPassword, DefinePassword, DefineListen, Safe, LooksLikeAttr;
    hide EffectivePassword, OpClean;
    PostPassword(s, vm, r);
    var pw := EffectivePassword(s.data, vm, r);
    if r.port == 0 || 5900 <= r.port <= 65535 {
      if pw == "" && r.listen == LOCAL {
        if DefineListen(s.world, vm, r.listen, r.port).Some? { LocalSafe(s, vm, r); }
      } else if ValidPassword(pw) && DefinePassword(s.world, vm, pw).Some? {
        if r.listen == "" || r.listen == LOCAL || r.listen == ALL { ProtectedSafe(s, vm, pw, r); }
      }
    }
  }

  lemma PinnedClean(s: System, vm: string)
    requires Safe(s)
    ensures vm in s.data ==> EntryClean(s.data[vm]) && EntryOk(s.data[vm])
  {
    hide Console, GraphicsInfo;
  }

  lemma NotEmpty(pw: string)
    ensures ValidPassword(pw) ==> pw != "" && (CleanPassword(pw) <==> !LooksLikeAttr(pw))
  {
    if ValidPassword(pw) { ValidIsCleanIff(pw); }
  }

  lemma DeleteSafe(s: System, vm: string)
    requires Safe(s)
    ensures Safe(Delete(s, vm).system)
  {
    hide GraphicsInfo, GraphicsPort, CleanConsole, EntryClean, CleanPassword, EntryOk, SetPasswordXML, OpenTag;
    Loop();
    if DefinePassword(s.world, vm, "").Some? { PasswordDefined(s.world, vm, ""); }
  }

  lemma RepairSafe(e: Entry, text: string)
    requires EntryOk(e) && EntryClean(e) && Console(text)
    ensures Console(RepairEntry(e, text).text) && LogSafe(RepairEntry(e, text).writes)
  {
    hide GraphicsInfo, CleanConsole, EntryClean, RepairEntry, OpenTag;
    Addresses();
    if OpenTag(text).NoSpan? { NoConsole(e, text); } else { RepairMeets(e, text); }
    if e.password != "" { ListenWritesProtected(e, text); } else { LocalWrites(e, text); }
  }

  lemma LocalWrites(e: Entry, text: string)
    ensures var ws := RepairEntry(e, text).writes;
      forall i :: 0 <= i < |ws| && ws[i].ListenWrite? ==> ws[i].listen == e.listen
  {
    hide GraphicsInfo, GraphicsPort, SetPasswordXML, SetListenXML, ListenInPlace;
  }

  lemma {:induction false} PassSafe(es: seq<Entry>, s: System)
    requires Safe(s) && forall i :: 0 <= i < |es| ==> EntryOk(es[i]) && EntryClean(es[i])
    ensures Safe(s.(world := PassOver(es, s.world)))
  {
    hide EntryOk, EntryClean, Console, RepairEntry, GraphicsInfo;
    if es != [] {
      var e, w := es[|es| - 1], PassOver(es[..|es| - 1], s.world);
      PassSafe(es[..|es| - 1], s);
      if e.vm in w.configs { RepairSafe(e, w.configs[e.vm]); }
    }
  }

  lemma ApplySafe(op: Op, s: System)
    requires Safe(s) && Enabled(op, s) && OpClean(op)
    ensures Safe(Apply(op, s))
  {
    hide Console, GraphicsInfo, EntryOk, EntryClean, Post, Delete, PassOver;
    match op
    case DoPost(vm, r) => PostSafe(s, vm, r);
    case DoDelete(vm) => DeleteSafe(s, vm);
    case DoReconcile(es) => PassSafe(es, s);
    case Rewrite(vm, text) =>
  }

  /** In every run of posts, deletes, passes and outside rewrites, each request and each pass running alone,
      no listen define ever puts a console without a password on all interfaces. */
  lemma {:induction false} NeverExposed(s: System, ops: seq<Op>, t: System)
    requires Safe(s) && Reaches(s, ops, t) && forall i :: 0 <= i < |ops| ==> OpClean(ops[i])
    ensures Safe(t)
    decreases |ops|
  {
    hide Safe, Enabled, Apply, OpClean;
    if ops != [] {
      ApplySafe(ops[0], s);
      NeverExposed(Apply(ops[0], s), ops[1..], t);
    }
  }

  // ---------- what an accepted request leaves ----------

  /** The edits of the console's document. */
  function EditedAs(text: string, pw: string, r: Request): Result<string> {
    if pw == "" then SetListenXML(text, r.listen, r.port) else
    match SetPasswordXML(text, pw)
    case NoDevice => NoDevice
    case Ok(p) => if r.listen == "" then Ok(p) else SetListenXML(p, r.listen, r.port)
  }

  lemma PostConfigs(s: System, vm: string, r: Request)
    requires Post(s, vm, r).status == 200
    ensures var pw, was := EffectivePassword(s.data, vm, r), s.world.configs;
      && vm in was && EditedAs(was[vm], pw, r).Ok? && (pw == "" || ValidPassword(pw))
      && (r.listen == "" || r.listen == LOCAL || r.listen == ALL) && (pw == "" ==> r.listen == LOCAL)
      && Post(s, vm, r).system.world.configs == was[vm := EditedAs(was[vm], pw, r).value]
  {
    NotEmpty(EffectivePassword(s.data, vm, r));
    hide SetPasswordXML, SetListenXML, ValidPassword, EffectivePassword, CleanPassword, LooksLikeAttr;
  }

  lemma SafeConsole(s: System, vm: string)
    requires Safe(s) && vm in s.world.configs
    ensures Console(s.world.configs[vm])
  {
  }

  lemma EffectiveIs(data: map<string, Entry>, vm: string, r: Request)
    ensures EffectivePassword(data, vm, r) == if r.password == "" && vm in data then data[vm].password else r.password
  {
  }

  lemma EditedReads(text: string, pw: string, r: Request)
    requires Console(text) && EditedAs(text, pw, r).Ok? && (pw == "" || CleanPassword(pw))
    requires r.listen == "" || AddressOk(r.listen)
    requires pw == "" ==> r.listen != ""
    ensures var t := EditedAs(text, pw, r).value;
      && ConsolePassword(t) == (if pw == "" then ConsolePassword(text) else pw)
      && (r.listen != "" ==>
            && GraphicsInfo(t).listen == r.listen
            && GraphicsPort(t) == if r.port > 0 then Port(r.port, false) else Port(0, true))
  {
    EditsNeedConsole(text, pw, r.listen, r.port);
    PasswordSeen(text);
    hide GraphicsInfo, GraphicsPort, ConsolePassword, SetPasswordXML, SetListenXML, CleanConsole, AddressOk;
    hide CleanPassword, OpenTag;
    if pw == "" {
      ListenEdit(text, r.listen, r.port);
    } else {
      PasswordEdit(text, pw);
      if r.listen != "" { ListenEdit(SetPasswordXML(text, pw).value, r.listen, r.port); }
    }
  }

  /** The console after an accepted request, and the other VMs: what was asked for, as the readers see it. */
  lemma PostApplies(s: System, vm: string, r: Request)
    requires Safe(s) && OpClean(DoPost(vm, r)) && Post(s, vm, r).status == 200
    ensures var pw := if r.password == "" && vm in s.data then s.data[vm].password else r.password;
      var was, now := s.world.configs, Post(s, vm, r).system.world.configs;
      && vm in was && now.Keys == was.Keys && (forall x :: x in was && x != vm ==> now[x] == was[x])
      && ConsolePassword(now[vm]) == (if pw == "" then ConsolePassword(was[vm]) else pw)
      && (r.listen != "" ==>
            && GraphicsInfo(now[vm]).listen == r.listen
            && GraphicsPort(now[vm]) == if r.port > 0 then Port(r.port, false) else Port(0, true))
  {
    hide *;
    EffectiveIs(s.data, vm, r);
    PostPassword(s, vm, r);
    PostConfigs(s, vm, r);
    SafeConsole(s, vm);
    Addresses();
    EditedReads(s.world.configs[vm], EffectivePassword(s.data, vm, r), r);
  }

  lemma PostStatus(s: System, vm: string, r: Request)
    requires Post(s, vm, r).status != 400
    ensures var pw := EffectivePassword(s.data, vm, r);
      && (pw == "" || ValidPassword(pw)) && (r.listen == "" || r.listen == LOCAL || r.listen == ALL)
      && (pw == "" ==> r.listen != "")
      && (Post(s, vm, r).status == 200 <==> vm in s.world.configs && EditedAs(s.world.configs[vm], pw, r).Ok?)
  {
    NotEmpty(EffectivePassword(s.data, vm, r));
    hide SetPasswordXML, SetListenXML, ValidPassword, EffectivePassword, CleanPassword, LooksLikeAttr;
  }

  lemma EditedIff(text: string, pw: string, r: Request)
    requires Console(text) && (pw == "" || CleanPassword(pw)) && (pw == "" ==> r.listen != "")
    ensures EditedAs(text, pw, r).Ok? <==> GraphicsInfo(text).found
  {
    EditsNeedConsole(text, pw, r.listen, r.port);
    PasswordSeen(text);
    hide GraphicsInfo, SetPasswordXML, SetListenXML, CleanConsole, CleanPassword, OpenTag;
    if pw != "" && GraphicsInfo(text).found {
      PasswordEdit(text, pw);
      EditsNeedConsole(SetPasswordXML(text, pw).value, "", r.listen, r.port);
    }
  }

  /** A request that is not refused succeeds exactly when the VM is defined and has a console. */
  lemma PostSucceedsIff(s: System, vm: string, r: Request)
    requires Safe(s) && OpClean(DoPost(vm, r)) && Post(s, vm, r).status != 400
    ensures Post(s, vm, r).status == 200 <==>
            vm in s.world.configs && GraphicsInfo(s.world.configs[vm]).found
  {
    hide *;
    PostStatus(s, vm, r);
    PostPassword(s, vm, r);
    if vm in s.world.configs {
      SafeConsole(s, vm);
      EditedIff(s.world.configs[vm], EffectivePassword(s.data, vm, r), r);
    }
  }

  /** What an accepted request pins: whatever console ZVM writes later, its repair reads as was asked for. */
  lemma PostPins(s: System, vm: string, r: Request, text: string)
    requires Safe(s) && OpClean(DoPost(vm, r)) && Post(s, vm, r).status == 200 && CleanConsole(text)
    ensures vm in Post(s, vm, r).system.data
    ensures var pw := if r.password == "" && vm in s.data then s.data[vm].password else r.password;
      var t := RepairEntry(Post(s, vm, r).system.data[vm], text).text;
      && ConsolePassword(t) == (if GraphicsInfo(text).hasPassword then ConsolePassword(text) else pw)
      && (r.listen != "" ==>
            && GraphicsInfo(t).listen == r.listen
            && if r.port > 0 then GraphicsPort(t) == Port(r.port, false) else GraphicsPort(t).auto)
  {
    PostSafe(s, vm, r);
    PostAnswers(s, vm, r);
    PinnedClean(Post(s, vm, r).system, vm);
    hide GraphicsInfo, GraphicsPort, ConsolePassword, RepairEntry, Post, Safe, CleanConsole, EntryOk, EntryClean;
    RepairMeets(Post(s, vm, r).system.data[vm], text);
  }

  lemma DeleteIs(s: System, vm: string)
    requires vm in s.world.configs
    ensures var r := SetPasswordXML(s.world.configs[vm], "");
      r.Ok? ==> var t := Delete(s, vm);
        && t.status == 200 && t.system.data == s.data - {vm}
        && t.system.world.configs == s.world.configs[vm := r.value]
  {
    hide SetPasswordXML;
  }

  /** A DELETE takes the password off the console and unpins it: no pass over the store it leaves touches the VM. */
  lemma DeleteHolds(s: System, vm: string, es: seq<Entry>)
    requires Safe(s) && vm in s.world.configs && GraphicsInfo(s.world.configs[vm]).found
    requires IsListing(es, Delete(s, vm).system.data)
    ensures var t := Delete(s, vm); var was, now := s.world.configs, t.system.world.configs;
      && t.status == 200 && t.system.data == s.data - {vm}
      && now.Keys == was.Keys && (forall x :: x in was && x != vm ==> now[x] == was[x])
      && GraphicsInfo(now[vm]).found && ConsolePassword(now[vm]) == "" && !GraphicsInfo(now[vm]).hasPassword
      && PassOver(es, t.system.world).configs.Keys == now.Keys && PassOver(es, t.system.world).configs[vm] == now[vm]
  {
    hide *;
    var text := s.world.configs[vm];
    SafeConsole(s, vm);
    FoundIsClean(text);
    Loop();
    PasswordEdit(text, "");
    DeleteIs(s, vm);
    PassSkips(es, Delete(s, vm).system.data, Delete(s, vm).system.world, vm);
  }

  lemma FoundIsClean(text: string)
    requires Console(text) && GraphicsInfo(text).found
    ensures CleanConsole(text)
  {
    hide CleanConsole;
  }

  lemma PassSkips(es: seq<Entry>, data: map<string, Entry>, w: World, vm: string)
    requires IsListing(es, data) && vm !in data && vm in w.configs
    ensures PassOver(es, w).configs.Keys == w.configs.Keys && PassOver(es, w).configs[vm] == w.configs[vm]
  {
    hide PassOver;
    PassAt(es, w, vm);
  }
}
