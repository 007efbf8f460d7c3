/** internal/schedule/schedule.go: when scheduled snapshots are taken. */
module Schedule {
  import opened GoStrings

  datatype Entry = Entry(vm: string, enabled: bool, intervalHours: Int, keep: Int, lastRunUnix: int)

  const SECOND := 1_000_000_000
  const HOUR := 3600 * SECOND

  /** The last interval whose length in nanoseconds fits an int64. */
  const MAX_HOURS := 2562047

  // ---------- Go's time arithmetic ----------

  /** int64 multiplication wraps around. */
  function Wrap(n: int): Int {
    (n - MIN_INT) % 0x1_0000_0000_0000_0000 + MIN_INT
  }

  /** `time.Duration(h) * time.Hour`. */
  function Hours(h: Int): Int {
    Wrap(h * HOUR)
  }

  /** `now.Sub(time.Unix(last, 0))` saturates; `now` is in nanoseconds since the epoch. */
  function Since(now: int, last: int): Int {
    var d := now - last * SECOND;
    if d < MIN_INT then MIN_INT else if d > MAX_INT then MAX_INT else d
  }

  /** `now.Unix()`. */
  function Unix(now: int): int {
    now / SECOND
  }

  predicate Due(e: Entry, now: int) {
    && e.enabled && e.intervalHours > 0
    && (e.lastRunUnix == 0 || Since(now, e.lastRunUnix) >= Hours(e.intervalHours))
  }

  function Stamped(e: Entry, now: int): Entry {
    if Due(e, now) then e.(lastRunUnix := Unix(now)) else e
  }

  // ---------- the store ----------

  predicate Keyed(data: map<string, Entry>) {
    forall vm :: vm in data ==> data[vm].vm == vm
  }

  function TickAll(data: map<string, Entry>, now: int): map<string, Entry> {
    map vm | vm in data :: Stamped(data[vm], now)
  }

  /** Upsert's checks: the VM name, and an interval for an enabled schedule. */
  predicate Accepted(e: Entry) {
    e.vm != "" && (e.enabled ==> e.intervalHours > 0)
  }

  /** What Upsert stores: the run clock of an existing entry is never reset. */
  function Merged(data: map<string, Entry>, e: Entry): Entry {
    var kept := if e.keep < 0 then e.(keep := 0) else e;
    if e.vm in data then kept.(lastRunUnix := data[e.vm].lastRunUnix) else kept
  }

  class Store {
    var data: map<string, Entry>

    constructor ()
      ensures data == map[]
    {
      data := map[];
    }

    method Upsert(e: Entry) returns (r: Option<Entry>)
      requires Keyed(data)
      modifies this
      ensures Keyed(data) && data == Apply(Upserts(e), old(data))
      ensures r.None? <==> e.vm == "" || (e.enabled && e.intervalHours <= 0)
      ensures r.None? ==> data == old(data)
      ensures r.Some? ==>
                && data == old(data)[e.vm := r.value]
                && r.value.vm == e.vm && r.value.enabled == e.enabled && r.value.intervalHours == e.intervalHours
                && r.value.keep == (if e.keep < 0 then 0 else e.keep)
                && r.value.lastRunUnix == if e.vm in old(data) then old(data)[e.vm].lastRunUnix else e.lastRunUnix
    {
      if e.vm == "" { return None; }
      if e.enabled && e.intervalHours <= 0 { return None; }
      var stored := e;
      if stored.keep < 0 { stored := stored.(keep := 0); }
      if e.vm in data { stored := stored.(lastRunUnix := data[e.vm].lastRunUnix); }
      data := data[e.vm := stored];
      r := Some(stored);
    }

    method Delete(vm: string)
      requires Keyed(data)
      modifies this
      ensures Keyed(data) && data == old(data) - {vm}
    {
      data := data - {vm};
    }

    /** Stamps every due entry in the map and lists it, whatever the order of the map. */
    method Tick(now: int) returns (due: seq<Entry>)
      requires Keyed(data)
      modifies this
      ensures Keyed(data) && data == TickAll(old(data), now) && data.Keys == old(data).Keys
      ensures forall vm :: vm in data ==>
          data[vm] == if Due(old(data)[vm], now) then old(data)[vm].(lastRunUnix := now / 1_000_000_000)
                      else old(data)[vm]
      ensures forall i :: 0 <= i < |due| ==>
          due[i].vm in old(data) && Due(old(data)[due[i].vm], now) && due[i] == data[due[i].vm]
      ensures forall vm :: vm in old(data) && Due(old(data)[vm], now) ==> data[vm] in due
      ensures forall i, j :: 0 <= i < j < |due| ==> due[i].vm != due[j].vm
    {
      hide Hours, Since, Due, Stamped;
      ghost var was := data;
      due := [];
      var left := data.Keys;
      while left != {}
        invariant left <= data.Keys == was.Keys
        invariant forall vm :: vm in was ==> data[vm] == if vm in left then was[vm] else Stamped(was[vm], now)
        invariant forall i :: 0 <= i < |due| ==>
            due[i].vm in was && due[i].vm !in left && Due(was[due[i].vm], now) && due[i] == Stamped(was[due[i].vm], now)
        invariant forall vm :: vm in was && vm !in left && Due(was[vm], now) ==> Stamped(was[vm], now) in due
        invariant forall i, j :: 0 <= i < j < |due| ==> due[i].vm != due[j].vm
        decreases left
      {
        var vm :| vm in left;
        left := left - {vm};
        var e := data[vm];
        DueIs(e, now);
        if !e.enabled || e.intervalHours <= 0 { continue; }
        if e.lastRunUnix != 0 && Since(now, e.lastRunUnix) < Hours(e.intervalHours) { continue; }
        e := e.(lastRunUnix := Unix(now));
        data := data[vm := e];
        due := due + [e];
      }
      Stamps(was, now);
    }
  }

  lemma Stamps(data: map<string, Entry>, now: int)
    ensures forall vm :: vm in data ==>
        Stamped(data[vm], now) == if Due(data[vm], now) then data[vm].(lastRunUnix := now / 1_000_000_000) else data[vm]
  {
    hide Due;
  }

  lemma DueIs(e: Entry, now: int)
    ensures Due(e, now) <==>
              !(!e.enabled || e.intervalHours <= 0)
              && !(e.lastRunUnix != 0 && Since(now, e.lastRunUnix) < Hours(e.intervalHours))
    ensures Stamped(e, now) == if Due(e, now) then e.(lastRunUnix := Unix(now)) else e
    ensures Stamped(e, now).vm == e.vm
  {
  }

  // ---------- when an entry is due ----------

  /** An entry whose interval fits is due exactly when it is enabled and never ran or its whole interval has
      elapsed, for every clock; any other interval is taken modulo the 64 bits of a duration. */
  lemma DueIff(e: Entry, now: int)
    ensures e.intervalHours <= 2562047 ==>
              (Due(e, now) <==>
               && e.enabled && e.intervalHours > 0
               && (e.lastRunUnix == 0
                   || now - e.lastRunUnix * 1_000_000_000 >= e.intervalHours * 3_600_000_000_000))
    ensures -0x8000_0000_0000_0000 <= Hours(e.intervalHours) < 0x8000_0000_0000_0000
    ensures (Hours(e.intervalHours) - e.intervalHours * 3_600_000_000_000) % 0x1_0000_0000_0000_0000 == 0
  {
    WrapIs(e.intervalHours * HOUR);
    hide Wrap;
    if 0 < e.intervalHours <= 2562047 { HoursExact(e.intervalHours); }
  }

  lemma WrapIs(n: int)
    ensures (Wrap(n) - n) % 0x1_0000_0000_0000_0000 == 0
  {
    var m := n - MIN_INT;
    assert Wrap(n) - n == -0x1_0000_0000_0000_0000 * (m / 0x1_0000_0000_0000_0000);
  }

  // ---------- spacing ----------

  lemma HoursExact(h: Int)
    requires 0 < h <= MAX_HOURS
    ensures Hours(h) == h * HOUR
  {
    assert 0 < h * HOUR <= MAX_HOURS * HOUR <= MAX_INT;
  }

  lemma HoursShort(h: Int)
    requires h > MAX_HOURS
    ensures Hours(h) < h * HOUR
  {
    assert h * HOUR >= (MAX_HOURS + 1) * HOUR > MAX_INT;
  }

  lemma FloorApart(now: int, last: int, h: nat)
    requires now - last * SECOND >= h * HOUR
    ensures Unix(now) - last >= 3600 * h
  {
    assert now >= (last + 3600 * h) * SECOND;
  }

  /** A due entry was last stamped at least its interval ago, in whole seconds and despite the
      rounding down of both stamps, for every clock, exactly when the interval fits. */
  lemma SpacingIff(h: Int)
    requires h > 0
    ensures (forall e: Entry, now: int :: e.intervalHours == h && e.lastRunUnix != 0 && Due(e, now) ==>
                                     Unix(now) - e.lastRunUnix >= 3600 * h)
            <==> h <= MAX_HOURS
  {
    if h <= MAX_HOURS {
      HoursExact(h);
      forall e: Entry, now: int | e.intervalHours == h && e.lastRunUnix != 0 && Due(e, now)
        ensures Unix(now) - e.lastRunUnix >= 3600 * h
      {
        FloorApart(now, e.lastRunUnix, h);
      }
    } else {
      HoursShort(h);
      var d := if Hours(h) > 0 then Hours(h) else 0;
      var e, now := Entry("vm", true, h, 0, 1), SECOND + d;
      assert Due(e, now);
      assert Unix(now) - e.lastRunUnix < 3600 * h by { FloorBelow(d, h); }
    }
  }

  lemma FloorBelow(d: int, h: nat)
    requires 0 <= d < h * HOUR
    ensures Unix(SECOND + d) - 1 < 3600 * h
  {
    assert SECOND + d < (3600 * h + 1) * SECOND;
  }

  // ---------- runs ----------

  datatype Op = Ticks(now: int) | Upserts(entry: Entry) | Deletes(vm: string)

  function Apply(op: Op, data: map<string, Entry>): map<string, Entry> {
    match op
    case Ticks(now) => TickAll(data, now)
    case Upserts(e) => if Accepted(e) then data[e.vm := Merged(data, e)] else data
    case Deletes(vm) => data - {vm}
  }

  function Run(ops: seq<Op>, data: map<string, Entry>): map<string, Entry>
    decreases |ops|
  {
    if ops == [] then data else Apply(ops[|ops| - 1], Run(ops[..|ops| - 1], data))
  }

  /** The schedule is not deleted and its interval never overflows. */
  predicate Kept(vm: string, op: Op) {
    && (op.Deletes? ==> op.vm != vm)
    && (op.Upserts? && op.entry.vm == vm ==> op.entry.intervalHours <= MAX_HOURS)
  }

  predicate Fits(data: map<string, Entry>, vm: string, stamp: int) {
    vm in data && data[vm].intervalHours <= MAX_HOURS && data[vm].lastRunUnix >= stamp
  }

  lemma StampGrows(e: Entry, now: int)
    requires e.lastRunUnix > 0 && e.intervalHours <= MAX_HOURS
    ensures Stamped(e, now).lastRunUnix >= e.lastRunUnix
  {
    hide Hours, Since;
    if Due(e, now) { SpacingIff(e.intervalHours); }
  }

  lemma {:induction false} StampsGrow(ops: seq<Op>, data: map<string, Entry>, vm: string, stamp: int)
    requires 0 < stamp && Fits(data, vm, stamp) && forall i :: 0 <= i < |ops| ==> Kept(vm, ops[i])
    ensures Fits(Run(ops, data), vm, stamp)
    decreases |ops|
  {
    hide Stamped;
    if ops != [] {
      var n := |ops| - 1;
      StampsGrow(ops[..n], data, vm, stamp);
      var d := Run(ops[..n], data);
      assert Kept(vm, ops[n]);
      match ops[n]
      case Ticks(now) => StampGrows(d[vm], now); StampedSame(d[vm], now);
      case Upserts(e) =>
      case Deletes(other) =>
    }
  }

  lemma StampedSame(e: Entry, now: int)
    ensures Stamped(e, now).intervalHours == e.intervalHours && Stamped(e, now).vm == e.vm
  {
  }

  /** In every run, under any clock and any edits of the schedule: once a VM was stamped, a later tick
      that stamps it again does so at least the interval then in force after it. */
  lemma RunsStaySpaced(ops: seq<Op>, data: map<string, Entry>, vm: string, first: int, later: int)
    requires vm in data && Due(data[vm], first) && Unix(first) > 0 && data[vm].intervalHours <= MAX_HOURS
    requires forall i :: 0 <= i < |ops| ==> Kept(vm, ops[i])
    ensures var d := Run(ops, TickAll(data, first));
      vm in d && (Due(d[vm], later) ==> Unix(later) - Unix(first) >= 3600 * d[vm].intervalHours)
  {
    hide Hours, Since, Unix;
    StampedSame(data[vm], first);
    StampsGrow(ops, TickAll(data, first), vm, Unix(first));
    var d := Run(ops, TickAll(data, first));
    if Due(d[vm], later) { SpacingIff(d[vm].intervalHours); }
  }
}
