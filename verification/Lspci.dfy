/** internal/pci/pci.go: parsing the records of `lspci -Dvmmnnk`. */
module Lspci {
  import opened GoStrings
  import opened PciAddress

  datatype Device = Device(
    address: string, vendorID: string, deviceID: string, class_: string, className: string,
    description: string, driver: string, passable: bool)

  const NONE := Device("", "", "", "", "", "", "", false)

  // ---------- brackets ----------

  function LastChar(s: string, c: char): (r: int)
    ensures -1 <= r < |s| && (r >= 0 ==> s[r] == c) && forall i :: r < i < |s| ==> s[i] != c
  {
    if s == "" then -1 else if s[|s| - 1] == c then |s| - 1 else LastChar(s[..|s| - 1], c)
  }

  /** lastBracketID. */
  function LastBracketID(s: string): string {
    var close := LastChar(s, ']');
    if close < 0 then "" else
    var open := LastChar(s[..close], '[');
    if open < 0 then "" else s[open + 1..close]
  }

  /** stripLastBracket. */
  function StripLastBracket(s: string): string {
    var close := LastChar(s, ']');
    if close < 0 then TrimSpace(s) else
    var open := LastChar(s[..close], '[');
    if open < 0 then TrimSpace(s) else TrimSpace(s[..open])
  }

  /** isPassable: never bridges, never an unknown class. */
  predicate IsPassable(c: string) {
    c != "" && !StartsWith(ToLower(c), "06")
  }

  // ---------- parseLspci ----------

  /** The variables of the line loop. */
  datatype Parse = Parse(cur: Device, devs: seq<Device>)

  function Flush(p: Parse): Parse {
    if p.cur.address != "" then
      Parse(NONE, p.devs + [p.cur.(description := TrimSpace(p.cur.description), passable := IsPassable(p.cur.class_))])
    else Parse(NONE, p.devs)
  }

  function Field(d: Device, key: string, val: string): Device {
    if key == "Slot" then d.(address := val)
    else if key == "Class" then d.(className := StripLastBracket(val), class_ := LastBracketID(val))
    else if key == "Vendor" then d.(description := StripLastBracket(val), vendorID := LastBracketID(val))
    else if key == "Device" then
      d.(description := TrimSpace(d.description + " " + StripLastBracket(val)), deviceID := LastBracketID(val))
    else if key == "Driver" then d.(driver := val)
    else d
  }

  function ReadLine(p: Parse, line: string): Parse {
    if TrimSpace(line) == "" then Flush(p) else
    var c := Cut(line, ':');
    if !c.found then p else p.(cur := Field(p.cur, c.before, TrimSpace(c.after)))
  }

  /** The line loop: one step per line. */
  function Fold<S>(step: (S, string) -> S, lines: seq<string>, s: S): S {
    if lines == [] then s else step(Fold(step, lines[..|lines| - 1], s), lines[|lines| - 1])
  }

  function ReadLines(lines: seq<string>, p: Parse): Parse {
    Fold(ReadLine, lines, p)
  }

  function Devices(lines: seq<string>): seq<Device> {
    Flush(ReadLines(lines, Parse(NONE, []))).devs
  }

  /** parseLspci on lspci's output split into lines. */
  method ParseLspci(lines: seq<string>) returns (devs: seq<Device>)
    ensures devs == Devices(lines)
  {
    hide Field, IsPassable, TrimSpace, Cut;
    devs := [];
    var cur := NONE;
    for i := 0 to |lines|
      invariant Parse(cur, devs) == ReadLines(lines[..i], Parse(NONE, []))
    {
      assert lines[..i + 1][..i] == lines[..i];
      var line := lines[i];
      if TrimSpace(line) == "" {
        if cur.address != "" {
          devs := devs + [cur.(description := TrimSpace(cur.description), passable := IsPassable(cur.class_))];
        }
        cur := NONE;
        continue;
      }
      var c := Cut(line, ':');
      if !c.found { continue; }
      cur := Field(cur, c.before, TrimSpace(c.after));
    }
    assert lines[..|lines|] == lines;
    if cur.address != "" {
      devs := devs + [cur.(description := TrimSpace(cur.description), passable := IsPassable(cur.class_))];
    }
  }

  // ---------- printed records ----------

  predicate Trimmed(s: string) {
    s != "" && !IsSpace(s[0]) && !IsSpace(s[|s| - 1])
  }

  predicate IdOk(s: string) {
    '[' !in s && ']' !in s
  }

  /** The lines lspci prints and the parser does not read: one list for each place in a record. */
  type Extras = e: seq<seq<string>> | |e| == 6 witness [[], [], [], [], [], []]

  /** A record: names may hold any brackets. */
  datatype Record = Record(
    slot: string, class_: string, classID: string, vendor: string, vendorID: string, device: string, deviceID: string,
    driver: Option<string>, extra: Extras)

  predicate Extra(line: string) {
    && TrimSpace(line) != ""
    && (Cut(line, ':').found ==> Cut(line, ':').before !in {"Slot", "Class", "Vendor", "Device", "Driver"})
  }

  predicate ExtraLines(lines: seq<string>) {
    forall i :: 0 <= i < |lines| ==> Extra(lines[i])
  }

  predicate RecordOk(r: Record) {
    && Trimmed(r.slot) && Trimmed(r.class_) && Trimmed(r.vendor) && Trimmed(r.device)
    && IdOk(r.classID) && IdOk(r.vendorID) && IdOk(r.deviceID)
    && (r.driver.Some? ==> Trimmed(r.driver.value))
    && forall i :: 0 <= i < 6 ==> ExtraLines(r.extra[i])
  }

  function Named(name: string, id: string): string {
    name + " [" + id + "]"
  }

  function Line(key: string, val: string): string {
    key + ":\t" + val
  }

  function Print(r: Record): seq<string> {
    r.extra[0] + [Line("Slot", r.slot)]
    + r.extra[1] + [Line("Class", Named(r.class_, r.classID))]
    + r.extra[2] + [Line("Vendor", Named(r.vendor, r.vendorID))]
    + r.extra[3] + [Line("Device", Named(r.device, r.deviceID))]
    + r.extra[4] + DriverLine(r.driver)
    + r.extra[5]
  }

  function Expected(r: Record): Device {
    Device(r.slot, r.vendorID, r.deviceID, r.classID, r.class_, r.vendor + " " + r.device,
        (match r.driver case None => "" case Some(d) => d), IsPassable(r.classID))
  }

  // ---------- one line ----------

  lemma LastIs(s: string, c: char, i: nat)
    requires i < |s| && s[i] == c && forall j :: i < j < |s| ==> s[j] != c
    ensures LastChar(s, c) == i
  {
  }

  /** A name that itself holds brackets is still told from the id. */
  lemma NamedReads(name: string, id: string)
    requires Trimmed(name) && IdOk(id)
    ensures LastBracketID(Named(name, id)) == id && StripLastBracket(Named(name, id)) == name
    ensures Trimmed(Named(name, id))
  {
    NamedTrimmed(name, id);
    NamedBrackets(name, id);
    TrimBehind(name);
    hide *;
    BracketReads(Named(name, id), |name| + 1, |name| + 2 + |id|);
  }

  /** The last brackets of a printed name are those of the id. */
  lemma NamedBrackets(name: string, id: string)
    requires IdOk(id) && Trimmed(name)
    ensures var s, n, m := Named(name, id), |name|, |id|;
      && |s| == n + m + 3 && LastChar(s, ']') == n + 2 + m && LastChar(s[..n + 2 + m], '[') == n + 1
      && s[n + 2..n + 2 + m] == id && s[..n + 1] == name + " "
  {
    NamedParts(name, id);
    hide LastChar, Named, IdOk, Trimmed;
    var s, n, m := Named(name, id), |name|, |id|;
    LastIs(s, ']', n + 2 + m);
    OpenIs(s, n, m);
  }

  lemma BracketReads(s: string, open: nat, close: nat)
    requires LastChar(s, ']') == close && close < |s| && LastChar(s[..close], '[') == open
    ensures open < close && LastBracketID(s) == s[open + 1..close] && StripLastBracket(s) == TrimSpace(s[..open])
  {
    hide LastChar, TrimSpace;
  }

  lemma NamedTrimmed(name: string, id: string)
    requires Trimmed(name) && IdOk(id)
    ensures Trimmed(Named(name, id))
  {
    NamedParts(name, id);
    hide Named;
  }

  lemma OpenIs(s: string, n: nat, m: nat)
    requires |s| == n + m + 3 && s[n + 1] == '[' && forall j :: n + 1 < j < n + 2 + m ==> s[j] != '['
    ensures LastChar(s[..n + 2 + m], '[') == n + 1
    ensures s[..n + 2 + m][..n + 1] == s[..n + 1]
  {
    hide LastChar;
    var t := s[..n + 2 + m];
    assert t[n + 1] == '[' && forall j :: 0 <= j < |t| ==> t[j] == s[j];
    LastIs(t, '[', n + 1);
  }

  /** Where the parts of a printed name lie. */
  lemma NamedParts(name: string, id: string)
    requires IdOk(id) && name != ""
    ensures var s, n, m := Named(name, id), |name|, |id|;
      && |s| == n + m + 3 && s[n + 1] == '[' && s[n + 2 + m] == ']' && s[..n + 1] == name + " "
      && s[n + 2..n + 2 + m] == id && s[0] == name[0] && s[|s| - 1] == ']'
      && forall j :: n + 1 < j < n + 2 + m ==> s[j] != '['
  {
    var s, n, m := Named(name, id), |name|, |id|;
    assert s[n + 2..n + 2 + m] == id;
    forall j | n + 1 < j < n + 2 + m ensures s[j] != '[' { assert s[j] == id[j - n - 2]; }
  }

  lemma Spaces()
    ensures IsSpace(' ') && IsSpace('\t')
  {
  }

  lemma TrimBehind(name: string)
    requires Trimmed(name)
    ensures TrimSpace(name + " ") == name && TrimSpace("\t" + name) == name && TrimSpace(name) == name
  {
    hide IsSpace;
    Spaces();
    TrimOneRight(name);
    TrimOneLeft(name);
  }

  lemma TrimOneRight(name: string)
    requires Trimmed(name) && IsSpace(' ')
    ensures TrimSpace(name + " ") == name && TrimSpace(name) == name
  {
    hide IsSpace;
    var s := name + " ";
    assert s[|s| - 1] == ' ' && s[0] == name[0] && s[..|s| - 1] == name;
    assert TrimLeft(s) == s;
    assert TrimRight(s) == TrimRight(name);
  }

  lemma TrimOneLeft(name: string)
    requires Trimmed(name) && IsSpace('\t')
    ensures TrimSpace("\t" + name) == name
  {
    hide IsSpace;
    var t := "\t" + name;
    assert t[0] == '\t' && t[1..] == name;
    assert TrimLeft(t) == TrimLeft(name) == name;
  }

  predicate KeyOk(key: string) {
    Trimmed(key) && ':' !in key
  }

  lemma LineCuts(key: string, val: string)
    requires KeyOk(key) && Trimmed(val)
    ensures Cut(Line(key, val), ':') == CutResult(key, "\t" + val, true)
    ensures var l := Line(key, val); l != "" && l[0] == key[0] && l[|l| - 1] == val[|val| - 1]
  {
    hide Trimmed;
    var line := key + ":\t" + val;
    assert key != "" && val != "" by { NonEmpty(key); NonEmpty(val); }
    assert line[|key|] == ':' && forall i :: 0 <= i < |key| ==> line[i] == key[i];
    CharIs(line, ':', |key|);
    assert line[..|key|] == key && line[|key| + 1..] == "\t" + val;
  }

  lemma NonEmpty(s: string)
    requires Trimmed(s)
    ensures s != ""
  {
  }

  lemma LineReads(key: string, val: string, p: Parse)
    requires KeyOk(key) && Trimmed(val)
    ensures ReadLine(p, Line(key, val)) == p.(cur := Field(p.cur, key, val))
  {
    hide Field, IsSpace, Cut, Line, TrimSpace;
    LineCuts(key, val);
    TrimBehind(val);
    NoTrim(Line(key, val));
  }

  lemma {:induction false} ExtraRead(lines: seq<string>, p: Parse)
    requires ExtraLines(lines)
    ensures ReadLines(lines, p) == p
  {
    hide TrimSpace, Cut;
    if lines != [] {
      ExtraRead(lines[..|lines| - 1], p);
      assert Extra(lines[|lines| - 1]);
    }
  }

  lemma {:induction false} FoldAppend<S>(step: (S, string) -> S, a: seq<string>, b: seq<string>, s: S)
    ensures Fold(step, a + b, s) == Fold(step, b, Fold(step, a, s))
  {
    if b == [] {
      assert a + b == a;
    } else {
      assert (a + b)[..|a + b| - 1] == a + b[..|b| - 1];
      FoldAppend(step, a, b[..|b| - 1], s);
    }
  }

  lemma ReadAppend(a: seq<string>, b: seq<string>, p: Parse)
    ensures ReadLines(a + b, p) == ReadLines(b, ReadLines(a, p))
  {
    FoldAppend(ReadLine, a, b, p);
  }

  /** Unread lines change nothing. */
  lemma Behind(front: seq<string>, extra: seq<string>, p: Parse, d: Device)
    requires ReadLines(front, p) == p.(cur := d) && ExtraLines(extra)
    ensures ReadLines(front + extra, p) == p.(cur := d)
  {
    hide ExtraLines, ReadLines;
    ReadAppend(front, extra, p);
    ExtraRead(extra, p.(cur := d));
  }

  /** Unread lines, then a line with a key. */
  lemma ReadKey(front: seq<string>, extra: seq<string>, key: string, val: string, p: Parse, d: Device)
    requires ReadLines(front, p) == p.(cur := d) && KeyOk(key) && Trimmed(val)
    requires ExtraLines(extra)
    ensures ReadLines(front + extra + [Line(key, val)], p) == p.(cur := Field(d, key, val))
  {
    hide Field, ReadLine, ExtraLines, KeyOk, Trimmed, ReadLines, Line;
    var q := p.(cur := d);
    ReadAppend(front, extra, p);
    ExtraRead(extra, q);
    ReadAppend(front + extra, [Line(key, val)], p);
    LineReads(key, val, q);
    OneLine(Line(key, val), q);
  }

  lemma OneLine(line: string, p: Parse)
    ensures ReadLines([line], p) == ReadLine(p, line)
  {
    FoldOne(ReadLine, line, p);
  }

  lemma FoldOne<S>(step: (S, string) -> S, x: string, s: S)
    ensures Fold(step, [x], s) == step(s, x)
  {
    assert [x][..0] == [];
  }

  lemma Keys()
    ensures KeyOk("Slot") && KeyOk("Class") && KeyOk("Vendor") && KeyOk("Device") && KeyOk("Driver")
  {
    assert "Slot" == ['S', 'l', 'o', 't'] && "Class" == ['C', 'l', 'a', 's', 's'];
    assert "Vendor" == ['V', 'e', 'n', 'd', 'o', 'r'] && "Device" == ['D', 'e', 'v', 'i', 'c', 'e'];
    assert "Driver" == ['D', 'r', 'i', 'v', 'e', 'r'];
  }

  // ---------- one record ----------

  lemma Describe(vendor: string, device: string)
    requires Trimmed(vendor) && Trimmed(device)
    ensures Trimmed(vendor + " " + device) && TrimSpace(vendor + " " + device) == vendor + " " + device
  {
    NoTrim(vendor + " " + device);
  }

  /** Reading a printed record into an empty device collects its fields. */
  lemma RecordReads(r: Record, devs: seq<Device>)
    requires RecordOk(r)
    ensures ReadLines(Print(r), Parse(NONE, devs)) == Parse(Expected(r).(passable := false), devs)
  {
    hide Trimmed, IdOk, ExtraLines, KeyOk, LastBracketID, StripLastBracket, TrimSpace, ReadLine, ReadLines, Line, Named;
    Keys();
    NamedReads(r.class_, r.classID); NamedReads(r.vendor, r.vendorID); NamedReads(r.device, r.deviceID);
    Describe(r.vendor, r.device);
    var p := Parse(NONE, devs);
    var d1 := NONE.(address := r.slot);
    var d2 := d1.(className := r.class_, class_ := r.classID);
    var d3 := d2.(description := r.vendor, vendorID := r.vendorID);
    var d4 := d3.(description := r.vendor + " " + r.device, deviceID := r.deviceID);
    var l0: seq<string> := [];
    NoLines(p);
    ReadKey(l0, r.extra[0], "Slot", r.slot, p, NONE);
    assert l0 + r.extra[0] == r.extra[0];
    var l1 := r.extra[0] + [Line("Slot", r.slot)];
    ReadKey(l1, r.extra[1], "Class", Named(r.class_, r.classID), p, d1);
    var l2 := l1 + r.extra[1] + [Line("Class", Named(r.class_, r.classID))];
    ReadKey(l2, r.extra[2], "Vendor", Named(r.vendor, r.vendorID), p, d2);
    var l3 := l2 + r.extra[2] + [Line("Vendor", Named(r.vendor, r.vendorID))];
    ReadKey(l3, r.extra[3], "Device", Named(r.device, r.deviceID), p, d3);
    var l4 := l3 + r.extra[3] + [Line("Device", Named(r.device, r.deviceID))];
    DriverReads(l4, r, p, d4);
  }

  lemma NoLines(p: Parse)
    ensures ReadLines([], p) == p
  {
  }

  function DriverLine(driver: Option<string>): seq<string> {
    match driver case None => [] case Some(d) => [Line("Driver", d)]
  }

  lemma DriverReads(l4: seq<string>, r: Record, p: Parse, d4: Device)
    requires RecordOk(r) && ReadLines(l4, p) == p.(cur := d4) && d4.driver == ""
    ensures ReadLines(l4 + r.extra[4] + DriverLine(r.driver) + r.extra[5], p)
            == p.(cur := d4.(driver := match r.driver case None => "" case Some(d) => d))
  {
    Behind(l4, r.extra[4], p, d4);
    var l5 := l4 + r.extra[4] + DriverLine(r.driver);
    match r.driver
    case None =>
      assert l5 == l4 + r.extra[4];
      Behind(l5, r.extra[5], p, d4);
    case Some(d) =>
      Keys();
      ReadKey(l4, r.extra[4], "Driver", d, p, d4);
      Behind(l5, r.extra[5], p, d4.(driver := d));
  }

  // ---------- the whole output ----------

  predicate BlankLines(lines: seq<string>) {
    forall i :: 0 <= i < |lines| ==> TrimSpace(lines[i]) == ""
  }

  /** Records each followed by one or more blank lines. */
  function PrintAll(rs: seq<Record>, gaps: seq<seq<string>>): seq<string>
    requires |rs| == |gaps|
  {
    if rs == [] then [] else
    var n := |rs| - 1;
    PrintAll(rs[..n], gaps[..n]) + Print(rs[n]) + gaps[n]
  }

  function ExpectedAll(rs: seq<Record>): seq<Device> {
    seq(|rs|, i requires 0 <= i < |rs| => Expected(rs[i]))
  }

  lemma {:induction false} GapReads(gap: seq<string>, p: Parse)
    requires BlankLines(gap)
    ensures ReadLines(gap, p) == if gap == [] then p else Flush(p)
  {
    hide TrimSpace;
    if gap != [] { GapReads(gap[..|gap| - 1], p); }
  }

  lemma FlushRecord(r: Record, devs: seq<Device>)
    requires RecordOk(r)
    ensures Flush(Parse(Expected(r).(passable := false), devs)) == Parse(NONE, devs + [Expected(r)])
  {
    hide TrimSpace, IsPassable;
    Describe(r.vendor, r.device);
  }

  lemma {:induction false} AllRead(rs: seq<Record>, gaps: seq<seq<string>>)
    requires |rs| == |gaps| && forall i :: 0 <= i < |rs| ==> RecordOk(rs[i])
    requires forall i :: 0 <= i < |rs| ==> gaps[i] != [] && BlankLines(gaps[i])
    ensures ReadLines(PrintAll(rs, gaps), Parse(NONE, [])) == Parse(NONE, ExpectedAll(rs))
  {
    hide BlankLines, Expected, Print, Flush, ReadLine;
    if rs != [] {
      var n := |rs| - 1;
      AllRead(rs[..n], gaps[..n]);
      var front, devs, start := PrintAll(rs[..n], gaps[..n]), ExpectedAll(rs[..n]), Parse(NONE, []);
      ReadAppend(front, Print(rs[n]), start);
      RecordReads(rs[n], devs);
      ReadAppend(front + Print(rs[n]), gaps[n], start);
      GapReads(gaps[n], Parse(Expected(rs[n]).(passable := false), devs));
      FlushRecord(rs[n], devs);
      assert ExpectedAll(rs) == devs + [Expected(rs[n])];
    }
  }

  /** Only bridges, whose class begins with 06, and devices of unknown class are not passable. */
  lemma PassableIff(c: string)
    ensures IsPassable(c) <==> c != "" && !(|c| >= 2 && c[0] == '0' && c[1] == '6')
  {
    hide LowerChar;
    var t := ToLower(c);
    assert "06" == ['0', '6'];
    if |c| >= 2 {
      SameDigit(c[0]);
      SameDigit(c[1]);
      assert t[0] == LowerChar(c[0]) && t[1] == LowerChar(c[1]);
      assert t[..2] == [t[0], t[1]];
    }
  }

  lemma SameDigit(c: char)
    ensures (LowerChar(c) == '0' <==> c == '0') && (LowerChar(c) == '6' <==> c == '6')
  {
  }

  /** The whole output, record by record. */
  lemma AllDevices(before: seq<string>, rs: seq<Record>, gaps: seq<seq<string>>, last: Record, end: seq<string>)
    requires |rs| == |gaps| && (forall i :: 0 <= i < |rs| ==> RecordOk(rs[i])) && RecordOk(last)
    requires BlankLines(before) && BlankLines(end) && forall i :: 0 <= i < |rs| ==> gaps[i] != [] && BlankLines(gaps[i])
    ensures Devices(before + PrintAll(rs, gaps) + Print(last) + end) == ExpectedAll(rs + [last])
  {
    hide BlankLines, Expected, Print, ReadLine, IsPassable, TrimSpace;
    var start, lines, devs := Parse(NONE, []), PrintAll(rs, gaps), ExpectedAll(rs);
    GapReads(before, start);
    assert Flush(start) == start;
    ReadAppend(before, lines, start);
    AllRead(rs, gaps);
    ReadAppend(before + lines, Print(last), start);
    RecordReads(last, devs);
    ReadAppend(before + lines + Print(last), end, start);
    GapReads(end, Parse(Expected(last).(passable := false), devs));
    FlushRecord(last, devs);
    assert Flush(Parse(NONE, devs + [Expected(last)])) == Parse(NONE, devs + [Expected(last)]);
    assert ExpectedAll(rs + [last]) == devs + [Expected(last)];
  }

  /** For every list of printed records (unread lines anywhere, brackets in names, any runs of blank
      lines between records and before them, the last record closed by blank lines or by the end of the
      output), parsing yields one device per record, in order, with exactly its fields. */
  lemma LspciRoundTrip(before: seq<string>, rs: seq<Record>, gaps: seq<seq<string>>, last: Record, end: seq<string>)
    requires |rs| == |gaps| && (forall i :: 0 <= i < |rs| ==> RecordOk(rs[i])) && RecordOk(last)
    requires BlankLines(before) && BlankLines(end) && forall i :: 0 <= i < |rs| ==> gaps[i] != [] && BlankLines(gaps[i])
    ensures var out, all := Devices(before + PrintAll(rs, gaps) + Print(last) + end), rs + [last];
      && |out| == |all|
      && forall i :: 0 <= i < |all| ==>
           && out[i].address == all[i].slot
           && out[i].vendorID == all[i].vendorID && out[i].deviceID == all[i].deviceID
           && out[i].class_ == all[i].classID && out[i].className == all[i].class_
           && out[i].description == all[i].vendor + " " + all[i].device
           && out[i].driver == (if all[i].driver.Some? then all[i].driver.value else "")
           && (out[i].passable <==>
               all[i].classID != "" && !(|all[i].classID| >= 2 && all[i].classID[0] == '0' && all[i].classID[1] == '6'))
  {
    AllDevices(before, rs, gaps, last, end);
    hide IsPassable, BlankLines, RecordOk, Print, PrintAll, Devices;
    forall i | 0 <= i < |rs| + 1
      ensures IsPassable((rs + [last])[i].classID) <==>
              var c := (rs + [last])[i].classID; c != "" && !(|c| >= 2 && c[0] == '0' && c[1] == '6')
    {
      PassableIff((rs + [last])[i].classID);
    }
  }
}
