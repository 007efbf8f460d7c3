/** internal/virsh/virsh.go: reading `virsh snapshot-list --parent`, and the names that survive it. */
module SnapTable {
  import opened GoStrings

  datatype Snapshot = Snapshot(name: string, createdAt: string, state: string, parent: string, current: bool)

  // ---------- regexpSplitMulti ----------

  /** The variables of the splitting loop. */
  datatype Split = Split(out: seq<string>, cur: string, spaces: nat)

  function Step(st: Split, c: char): Split {
    if IsBlank(c) then
      if st.spaces + 1 >= 2 && st.cur != "" then Split(st.out + [st.cur], "", st.spaces + 1)
      else st.(spaces := st.spaces + 1)
    else
      Split(st.out, st.cur + (if st.spaces > 0 && st.cur != "" then [' ', c] else [c]), 0)
  }

  function Scan(s: string, st: Split): Split {
    if s == "" then st else Step(Scan(s[..|s| - 1], st), s[|s| - 1])
  }

  function Parts(st: Split): seq<string> {
    if st.cur != "" then st.out + [st.cur] else st.out
  }

  function SplitMulti(s: string): seq<string> {
    Parts(Scan(s, Split([], "", 0)))
  }

  method RegexpSplitMulti(s: string) returns (out: seq<string>)
    ensures out == SplitMulti(s)
  {
    out := [];
    var cur, spaces := "", 0;
    for i := 0 to |s|
      invariant spaces >= 0 && Split(out, cur, spaces) == Scan(s[..i], Split([], "", 0))
    {
      assert s[..i + 1][..i] == s[..i];
      var r := s[i];
      if IsBlank(r) {
        spaces := spaces + 1;
        if spaces >= 2 && cur != "" {
          out := out + [cur];
          cur := "";
        }
        continue;
      }
      if spaces > 0 && cur != "" { cur := cur + " "; }
      spaces := 0;
      cur := cur + [r];
    }
    assert s[..|s|] == s;
    if cur != "" { out := out + [cur]; }
  }

  /** splitColumns: the parts, trimmed. */
  function Columns(line: string): seq<string> {
    var parts := SplitMulti(line);
    seq(|parts|, i requires 0 <= i < |parts| => TrimSpace(parts[i]))
  }

  // ---------- ListSnapshots ----------

  predicate IsRule(line: string) {
    StartsWith(TrimSpace(line), "---")
  }

  /** One table row, or None if it is skipped. */
  function ParseRow(line: string): Option<Snapshot> {
    var f := Columns(line);
    if |f| < 3 || f[0] == "" then None
    else Some(Snapshot(f[0], f[1], f[2], if |f| >= 4 then f[3] else "", false))
  }

  /** The variables of the row loop: whether the rule was seen, and the rows so far. */
  datatype Table = Table(sep: bool, snaps: seq<Snapshot>)

  function ReadLine(t: Table, line: string): Table {
    if IsRule(line) then t.(sep := true)
    else if !t.sep then t
    else match ParseRow(line) case None => t case Some(s) => t.(snaps := t.snaps + [s])
  }

  function ReadLines(lines: seq<string>, t: Table): Table {
    if lines == [] then t else ReadLine(ReadLines(lines[..|lines| - 1], t), lines[|lines| - 1])
  }

  function Mark(s: Snapshot, cur: string): Snapshot {
    if cur != "" && s.name == cur then s.(current := true) else s
  }

  function Snapshots(lines: seq<string>, cur: string): seq<Snapshot> {
    var snaps := ReadLines(lines, Table(false, [])).snaps;
    seq(|snaps|, i requires 0 <= i < |snaps| => Mark(snaps[i], cur))
  }

  /** `strings.Split(out, "\n")`. */
  function Lines(out: string): seq<string> {
    var i := CharFrom(out, '\n', 0);
    if i < 0 then [out] else [out[..i]] + Lines(out[i + 1..])
  }

  /** ListSnapshots on virsh's output; `cur` is the name of the current snapshot, or "". */
  method ListSnapshots(out: string, cur: string) returns (snaps: seq<Snapshot>)
    ensures snaps == Snapshots(Lines(out), cur)
  {
    hide Columns, IsRule, Lines;
    var lines := Lines(out);
    snaps := [];
    var sep := false;
    for i := 0 to |lines|
      invariant Table(sep, snaps) == ReadLines(lines[..i], Table(false, []))
    {
      assert lines[..i + 1][..i] == lines[..i];
      var line := lines[i];
      if IsRule(line) {
        sep := true;
        continue;
      }
      if !sep { continue; }
      var fields := Columns(line);
      if |fields| < 3 || fields[0] == "" { continue; }
      var s := Snapshot(fields[0], fields[1], fields[2], "", false);
      if |fields| >= 4 { s := s.(parent := fields[3]); }
      snaps := snaps + [s];
    }
    assert lines[..|lines|] == lines;
    ghost var read := snaps;
    if cur != "" {
      for i := 0 to |snaps|
        invariant |snaps| == |read|
        invariant forall j :: 0 <= j < |snaps| ==> snaps[j] == if j < i then Mark(read[j], cur) else read[j]
      {
        if snaps[i].name == cur { snaps := snaps[i := snaps[i].(current := true)]; }
      }
    }
  }

  // ---------- what can be read back ----------

  /** A column text: trimmed, and with blanks only one space at a time. */
  predicate FieldOk(f: string) {
    && f != "" && TrimSpace(f) == f && '\t' !in f && '\n' !in f
    && forall i :: 0 <= i < |f| - 1 ==> !(f[i] == ' ' && f[i + 1] == ' ')
  }

  predicate NameChar(c: char) {
    'a' <= c <= 'z' || 'A' <= c <= 'Z' || '0' <= c <= '9' || c == '_' || c == '.' || c == '-' || c == '+' || c == ' '
  }

  /** validSnapshotName (internal/handlers/handlers.go). */
  predicate ValidSnapshotName(s: string) {
    && s != "" && s[0] != '-'
    && s == TrimSpace(s)
    && !Contains(s, "  ") && !Contains(s, "..")
    && s != "." && s != ".."
    && forall i :: 0 <= i < |s| ==> NameChar(s[i])
  }

  /** Every name accepted on creation is a readable column. */
  lemma ValidNameIsField(s: string)
    requires ValidSnapshotName(s)
    ensures FieldOk(s)
  {
    forall i | 0 <= i < |s| - 1 ensures !(s[i] == ' ' && s[i + 1] == ' ') {
      if s[i] == ' ' && s[i + 1] == ' ' { TwoSpaces(s, i); }
    }
  }

  /** Exactly: a name is accepted if and only if it has none but the allowed characters, no leading dash, no
      pair of dots and is not a dot, and can be read back as a column. */
  lemma ValidNameIff(s: string)
    ensures ValidSnapshotName(s) <==>
              && FieldOk(s) && s[0] != '-' && s != "." && !Contains(s, "..")
              && forall i :: 0 <= i < |s| ==>
                   || 'a' <= s[i] <= 'z' || 'A' <= s[i] <= 'Z' || '0' <= s[i] <= '9'
                   || s[i] == '_' || s[i] == '.' || s[i] == '-' || s[i] == '+' || s[i] == ' '
  {
    hide TrimSpace, IndexFrom;
    if ValidSnapshotName(s) { ValidNameIsField(s); }
    if FieldOk(s) && Contains(s, "  ") { PairIs(s, "  ", ' '); }
    if s == ".." { PairOfDots(); }
  }

  lemma PairIs(s: string, pat: string, c: char)
    requires Contains(s, pat) && pat == [c, c]
    ensures exists i :: 0 <= i < |s| - 1 && s[i] == c && s[i + 1] == c
  {
    hide IndexFrom;
    var i := Index(s, pat);
    assert s[i + 0] == pat[0] && s[i + 1] == pat[1];
  }

  lemma PairOfDots()
    ensures Contains("..", "..")
  {
    assert At("..", 0, "..");
  }

  lemma TwoSpaces(s: string, i: nat)
    requires i + 1 < |s| && s[i] == ' ' && s[i + 1] == ' '
    ensures Contains(s, "  ")
  {
    var two := "  ";
    assert two == [' ', ' '];
    assert At(s, i, two);
  }

  lemma FieldEnds(f: string)
    requires FieldOk(f)
    ensures !IsSpace(f[0]) && !IsSpace(f[|f| - 1]) && f[|f| - 1] != ' ' && f[0] != ' '
  {
    var t := TrimLeft(f);
    assert TrimRight(t) == f;
    assert |t| == |f|;
    assert t == f;
  }

  lemma {:induction false} ScanAppend(a: string, b: string, st: Split)
    ensures Scan(a + b, st) == Scan(b, Scan(a, st))
  {
    if b == "" {
      assert a + b == a;
    } else {
      assert (a + b)[..|a + b| - 1] == a + b[..|b| - 1];
      ScanAppend(a, b[..|b| - 1], st);
    }
  }

  lemma FieldChars(f: string, i: nat)
    requires FieldOk(f) && i < |f|
    ensures IsBlank(f[i]) <==> f[i] == ' '
    ensures i > 0 && f[i] == ' ' ==> f[i - 1] != ' '
  {
    assert f[i] in f;
    assert i > 0 ==> !(f[i - 1] == ' ' && f[i - 1 + 1] == ' ');
  }

  /** Scanning a column text, from wherever a column may start, collects it unchanged. */
  lemma {:induction false} ScanField(f: string, n: nat, st: Split)
    requires FieldOk(f) && 0 < n <= |f| && st.cur == ""
    ensures Scan(f[..n], st) == if f[n - 1] == ' ' then Split(st.out, f[..n - 1], 1) else Split(st.out, f[..n], 0)
    decreases n
  {
    FieldEnds(f);
    FieldChars(f, n - 1);
    hide FieldOk, IsBlank, IsSpace, Scan, TrimSpace;
    ScanOne(f, n, st);
    if n > 1 {
      ScanField(f, n - 1, st);
      Pair(f, n);
    }
  }

  lemma ScanOne(f: string, n: nat, st: Split)
    requires 0 < n <= |f|
    ensures Scan(f[..n], st) == Step(Scan(f[..n - 1], st), f[n - 1])
    ensures f[..n] == f[..n - 1] + [f[n - 1]] && f[..0] == "" && Scan(f[..0], st) == st
  {
    assert f[..n][..n - 1] == f[..n - 1];
  }

  lemma Pair(f: string, n: nat)
    requires 1 < n <= |f|
    ensures f[..n] == f[..n - 2] + [f[n - 2], f[n - 1]] && f[..n - 1] == f[..n - 2] + [f[n - 2]] && f[..n - 1] != ""
  {
  }

  predicate Blanks(g: string) {
    forall i :: 0 <= i < |g| ==> IsBlank(g[i])
  }

  lemma {:induction false} ScanPad(g: string, st: Split)
    requires Blanks(g) && st.cur == ""
    ensures Scan(g, st) == st.(spaces := st.spaces + |g|)
  {
    if g != "" { ScanPad(g[..|g| - 1], st); }
  }

  /** A run of two or more blanks ends the column. */
  lemma {:induction false} ScanGap(g: string, st: Split)
    requires Blanks(g) && st.cur != "" && st.spaces == 0
    ensures Scan(g, st) == if |g| >= 2 then Split(st.out + [st.cur], "", |g|) else st.(spaces := |g|)
  {
    if g != "" { ScanGap(g[..|g| - 1], st); }
  }

  lemma ScanColumn(pad: string, f: string, st: Split)
    requires Blanks(pad) && FieldOk(f)
    requires st.cur == "" || (|pad| >= 2 && st.spaces == 0)
    ensures Scan(pad + f, st) == Split(Parts(st), f, 0)
  {
    ScanAppend(pad, f, st);
    if st.cur == "" { ScanPad(pad, st); } else { ScanGap(pad, st); }
    FieldEnds(f);
    ScanField(f, |f|, Scan(pad, st));
    assert f[..|f|] == f;
  }

  // ---------- the printed table ----------

  /** A row as virsh prints it, with its padding: before each column, and at the end. */
  datatype Row = Row(pad0: string, pad1: string, pad2: string, pad3: string, end: string)

  predicate RowOk(r: Row) {
    Blanks(r.pad0) && Blanks(r.pad1) && Blanks(r.pad2) && Blanks(r.pad3) && Blanks(r.end) && |r.pad1| >= 2
        && |r.pad2| >= 2 && |r.pad3| >= 2
  }

  predicate Readable(s: Snapshot) {
    && FieldOk(s.name) && s.name[0] != '-' && FieldOk(s.createdAt) && FieldOk(s.state)
    && (s.parent != "" ==> FieldOk(s.parent)) && !s.current
  }

  function PrintRow(s: Snapshot, r: Row): string {
    r.pad0 + s.name + (r.pad1 + s.createdAt) + (r.pad2 + s.state)
    + (if s.parent == "" then "" else r.pad3 + s.parent) + r.end
  }

  lemma ScanEnd(end: string, st: Split)
    requires Blanks(end) && st.cur != "" && st.spaces == 0
    ensures Parts(Scan(end, st)) == Parts(st)
  {
    ScanGap(end, st);
  }

  const START := Split([], "", 0)

  lemma ScanNext(front: string, pad: string, f: string, st: Split)
    requires Scan(front, START) == st && Blanks(pad) && |pad| >= 2 && FieldOk(f) && st.cur != "" && st.spaces == 0
    ensures Scan(front + (pad + f), START) == Split(st.out + [st.cur], f, 0)
  {
    hide FieldOk, Step, Blanks;
    ScanAppend(front, pad + f, START);
    ScanColumn(pad, f, st);
  }

  lemma ThreeColumns(s: Snapshot, r: Row)
    requires Readable(s) && RowOk(r)
    ensures Scan(r.pad0 + s.name + (r.pad1 + s.createdAt) + (r.pad2 + s.state), START)
        == Split([s.name, s.createdAt], s.state, 0)
  {
    hide FieldOk, Step, Blanks, Scan;
    NotEmpty(s.name); NotEmpty(s.createdAt);
    ScanColumn(r.pad0, s.name, START);
    ScanNext(r.pad0 + s.name, r.pad1, s.createdAt, Split([], s.name, 0));
    ScanNext(r.pad0 + s.name + (r.pad1 + s.createdAt), r.pad2, s.state, Split([s.name], s.createdAt, 0));
  }

  lemma RowColumns(s: Snapshot, r: Row)
    requires Readable(s) && RowOk(r)
    ensures SplitMulti(PrintRow(s, r)) == Texts(s)
  {
    hide FieldOk, Step, Blanks, Scan;
    NotEmpty(s.state); NotEmpty(s.parent);
    ThreeColumns(s, r);
    var t3 := r.pad0 + s.name + (r.pad1 + s.createdAt) + (r.pad2 + s.state);
    var st3 := Split([s.name, s.createdAt], s.state, 0);
    if s.parent == "" {
      assert t3 + "" == t3;
      ScanAppend(t3, r.end, START);
      ScanEnd(r.end, st3);
    } else {
      ScanNext(t3, r.pad3, s.parent, st3);
      ScanAppend(t3 + (r.pad3 + s.parent), r.end, START);
      ScanEnd(r.end, Split([s.name, s.createdAt] + [s.state], s.parent, 0));
    }
  }

  lemma NotEmpty(f: string)
    ensures FieldOk(f) ==> f != "" && TrimSpace(f) == f
  {
  }

  /** A printed row reads back as the snapshot it was printed for, and is not taken for the rule. */
  lemma RowReads(s: Snapshot, r: Row)
    requires Readable(s) && RowOk(r)
    ensures ParseRow(PrintRow(s, r)) == Some(s) && !IsRule(PrintRow(s, r))
  {
    hide *;
    RowColumns(s, r);
    RowFront(s, r);
    Fields(s);
    ColumnsAre(PrintRow(s, r), Texts(s));
    TextsRead(PrintRow(s, r), s);
  }

  /** The column texts of a row. */
  function Texts(s: Snapshot): seq<string> {
    [s.name, s.createdAt, s.state] + (if s.parent == "" then [] else [s.parent])
  }

  lemma Fields(s: Snapshot)
    requires Readable(s)
    ensures s.name != "" && !s.current && forall i :: 0 <= i < |Texts(s)| ==> TrimSpace(Texts(s)[i]) == Texts(s)[i]
  {
    hide FieldOk, TrimSpace;
    NotEmpty(s.name); NotEmpty(s.createdAt); NotEmpty(s.state); NotEmpty(s.parent);
  }

  lemma TextsRead(line: string, s: Snapshot)
    requires Columns(line) == Texts(s) && s.name != "" && !s.current
    ensures ParseRow(line) == Some(s)
  {
    hide Columns;
  }

  lemma ColumnsAre(line: string, parts: seq<string>)
    requires SplitMulti(line) == parts && forall i :: 0 <= i < |parts| ==> TrimSpace(parts[i]) == parts[i]
    ensures Columns(line) == parts
  {
    hide SplitMulti, TrimSpace;
  }

  lemma RowFront(s: Snapshot, r: Row)
    requires Readable(s) && RowOk(r)
    ensures !IsRule(PrintRow(s, r))
  {
    NameStarts(s);
    assert Blanks(r.pad0);
    hide *;
    var rest := RowSplit(s, r);
    FrontIsNoRule(r.pad0, s.name + rest);
  }

  lemma RowSplit(s: Snapshot, r: Row) returns (rest: string)
    requires s.name != ""
    ensures PrintRow(s, r) == r.pad0 + (s.name + rest) && (s.name + rest)[0] == s.name[0]
  {
    var b, c := r.pad1 + s.createdAt, r.pad2 + s.state;
    var d := if s.parent == "" then "" else r.pad3 + s.parent;
    rest := b + c + d + r.end;
    SixParts(r.pad0, s.name, b, c, d, r.end);
  }

  lemma SixParts(x: string, y: string, b: string, c: string, d: string, e: string)
    ensures x + y + b + c + d + e == x + (y + (b + c + d + e))
  {
  }

  lemma NameStarts(s: Snapshot)
    requires Readable(s)
    ensures s.name != "" && !IsSpace(s.name[0]) && s.name[0] != '-'
  {
    FieldEnds(s.name);
  }

  lemma FrontIsNoRule(pad: string, rest: string)
    requires Blanks(pad) && rest != "" && !IsSpace(rest[0]) && rest[0] != '-'
    ensures !IsRule(pad + rest)
  {
    hide IsSpace, Blanks;
    TrimFront(pad, rest);
    var t := TrimRight(rest);
    assert t != "" ==> t[0] == rest[..|t|][0];
    if StartsWith(t, "---") { RuleStart(t); }
  }

  lemma RuleStart(t: string)
    requires StartsWith(t, "---")
    ensures 3 <= |t| && t[0] == '-'
  {
    assert "---"[0] == '-' && t[..3][0] == t[0];
  }

  lemma {:induction false} TrimFront(pad: string, rest: string)
    requires Blanks(pad) && rest != "" && !IsSpace(rest[0])
    ensures TrimLeft(pad + rest) == rest
  {
    if pad == "" {
      assert pad + rest == rest;
    } else {
      assert IsBlank(pad[0]) && (pad + rest)[1..] == pad[1..] + rest;
      TrimFront(pad[1..], rest);
    }
  }

  // ---------- the whole table ----------

  function PrintRows(snaps: seq<Snapshot>, rows: seq<Row>): seq<string>
    requires |snaps| == |rows|
  {
    seq(|snaps|, i requires 0 <= i < |snaps| => PrintRow(snaps[i], rows[i]))
  }

  lemma {:induction false} ReadAppend(a: seq<string>, b: seq<string>, t: Table)
    ensures ReadLines(a + b, t) == ReadLines(b, ReadLines(a, t))
  {
    if b == [] {
      assert a + b == a;
    } else {
      assert (a + b)[..|a + b| - 1] == a + b[..|b| - 1];
      ReadAppend(a, b[..|b| - 1], t);
    }
  }

  lemma {:induction false} ReadHeader(header: seq<string>, t: Table)
    requires !t.sep && forall i :: 0 <= i < |header| ==> !IsRule(header[i])
    ensures ReadLines(header, t) == t
  {
    if header != [] { ReadHeader(header[..|header| - 1], t); }
  }

  lemma {:induction false} ReadRows(snaps: seq<Snapshot>, rows: seq<Row>, n: nat)
    requires |snaps| == |rows| && n <= |snaps|
    requires forall i :: 0 <= i < |snaps| ==> Readable(snaps[i]) && RowOk(rows[i])
    ensures ReadLines(PrintRows(snaps, rows)[..n], Table(true, [])) == Table(true, snaps[..n])
  {
    hide Readable, RowOk, PrintRow, ParseRow, IsRule;
    if n > 0 {
      ReadRows(snaps, rows, n - 1);
      var lines := PrintRows(snaps, rows);
      assert lines[..n][..n - 1] == lines[..n - 1] && lines[..n][n - 1] == lines[n - 1];
      RowReads(snaps[n - 1], rows[n - 1]);
      assert snaps[..n] == snaps[..n - 1] + [snaps[n - 1]];
    }
  }

  lemma {:induction false} ReadBlank(blank: seq<string>, t: Table)
    requires t.sep && forall i :: 0 <= i < |blank| ==> Blanks(blank[i])
    ensures ReadLines(blank, t) == t
  {
    if blank != [] {
      ReadBlank(blank[..|blank| - 1], t);
      BlankLine(blank[|blank| - 1]);
    }
  }

  lemma BlankLine(g: string)
    requires Blanks(g)
    ensures ParseRow(g) == None && !IsRule(g)
  {
    ScanPad(g, START);
    AllTrimmed(g);
  }

  lemma {:induction false} AllTrimmed(g: string)
    requires Blanks(g)
    ensures TrimLeft(g) == ""
  {
    if g != "" { assert IsBlank(g[0]); AllTrimmed(g[1..]); }
  }

  function Join(lines: seq<string>): string
    requires lines != []
  {
    if |lines| == 1 then lines[0] else lines[0] + "\n" + Join(lines[1..])
  }

  lemma {:induction false} LinesJoin(lines: seq<string>)
    requires lines != [] && forall i :: 0 <= i < |lines| ==> '\n' !in lines[i]
    ensures Lines(Join(lines)) == lines
  {
    var l, text := lines[0], Join(lines);
    if |lines| == 1 {
      assert text == l && CharFrom(l, '\n', 0) == -1;
      assert lines == [l];
    } else {
      var rest := Join(lines[1..]);
      assert text[|l|] == '\n' && forall i :: 0 <= i < |l| ==> text[i] == l[i];
      CharIs(text, '\n', |l|);
      assert text[..|l|] == l && text[|l| + 1..] == rest;
      LinesJoin(lines[1..]);
    }
  }

  /** A line of dashes is the rule. */
  lemma RuleIs(pad: string, more: string)
    requires Blanks(pad)
    ensures IsRule(pad + "---" + more)
  {
    hide IsSpace, Blanks, StartsWith;
    assert "---" == ['-', '-', '-'] && !IsSpace('-') by { Dash(); }
    var rest := "---" + more;
    assert pad + "---" + more == pad + rest;
    TrimFront(pad, rest);
    TrimKeeps(rest, 3);
    StartsIs(TrimRight(rest), "---");
  }

  lemma Dash()
    ensures !IsSpace('-')
  {
  }

  lemma TrimKeeps(s: string, n: nat)
    requires 0 < n <= |s| && !IsSpace(s[n - 1])
    ensures n <= |TrimRight(s)| && TrimRight(s)[..n] == s[..n]
  {
    hide IsSpace;
    var t := TrimRight(s);
    assert t[..n] == s[..|t|][..n] by { assert n <= |t|; }
  }

  lemma StartsIs(t: string, p: string)
    requires |p| <= |t| && t[..|p|] == p
    ensures StartsWith(t, p)
  {
  }

  /** A line that begins with anything else is none. */
  lemma HeaderIs(line: string)
    requires TrimLeft(line) == "" || TrimLeft(line)[0] != '-'
    ensures !IsRule(line)
  {
    hide IsSpace;
    var t := TrimRight(TrimLeft(line));
    assert t != "" ==> t[0] == TrimLeft(line)[..|t|][0];
    if StartsWith(t, "---") { RuleStart(t); }
  }

  /** For every list of snapshots with readable names: printing it as virsh does (header lines, a line of at
      least three dashes, rows with columns two or more blanks apart and any other padding, a parent or none,
      blank lines behind) and reading the output back gives exactly the list, with the current one marked. */
  lemma TableRoundTrip(header: seq<string>, pad: string, more: string, snaps: seq<Snapshot>, rows: seq<Row>,
      blank: seq<string>, cur: string)
    requires |snaps| == |rows| && forall i :: 0 <= i < |snaps| ==> Readable(snaps[i]) && RowOk(rows[i])
    requires Blanks(pad) && forall i :: 0 <= i < |blank| ==> Blanks(blank[i])
    requires forall i :: 0 <= i < |header| ==> TrimLeft(header[i]) == "" || TrimLeft(header[i])[0] != '-'
    ensures Snapshots(header + [pad + "---" + more] + PrintRows(snaps, rows) + blank, cur)
            == seq(|snaps|, i requires 0 <= i < |snaps| => snaps[i].(current := cur != "" && snaps[i].name == cur))
  {
    hide *;
    RuleIs(pad, more);
    forall i | 0 <= i < |header| ensures !IsRule(header[i]) { HeaderIs(header[i]); }
    NoneCurrent(snaps);
    TableReads(header, pad + "---" + more, snaps, rows, blank);
    Marked(header + [pad + "---" + more] + PrintRows(snaps, rows) + blank, snaps, cur);
  }

  lemma Marked(lines: seq<string>, snaps: seq<Snapshot>, cur: string)
    requires ReadLines(lines, Table(false, [])).snaps == snaps
    requires forall i :: 0 <= i < |snaps| ==> !snaps[i].current
    ensures Snapshots(lines, cur)
            == seq(|snaps|, i requires 0 <= i < |snaps| => snaps[i].(current := cur != "" && snaps[i].name == cur))
  {
    hide ReadLines;
  }

  lemma TableReads(header: seq<string>, rule: string, snaps: seq<Snapshot>, rows: seq<Row>, blank: seq<string>)
    requires |snaps| == |rows| && forall i :: 0 <= i < |snaps| ==> Readable(snaps[i]) && RowOk(rows[i])
    requires IsRule(rule) && (forall i :: 0 <= i < |header| ==> !IsRule(header[i]))
    requires forall i :: 0 <= i < |blank| ==> Blanks(blank[i])
    ensures ReadLines(header + [rule] + PrintRows(snaps, rows) + blank, Table(false, [])).snaps == snaps
  {
    hide Readable, RowOk, PrintRow, ParseRow, IsRule, Blanks;
    var lines := PrintRows(snaps, rows);
    ReadHeader(header, Table(false, []));
    ReadAppend(header, [rule], Table(false, []));
    assert [rule][..0] == [] && ReadLines([rule], Table(false, [])) == ReadLine(Table(false, []), rule);
    ReadAppend(header + [rule], lines, Table(false, []));
    ReadRows(snaps, rows, |snaps|);
    assert lines[..|snaps|] == lines && snaps[..|snaps|] == snaps;
    ReadAppend(header + [rule] + lines, blank, Table(false, []));
    ReadBlank(blank, Table(true, snaps));
  }

  lemma NoneCurrent(snaps: seq<Snapshot>)
    requires forall i :: 0 <= i < |snaps| ==> Readable(snaps[i])
    ensures forall i :: 0 <= i < |snaps| ==> !snaps[i].current
  {
    hide FieldOk;
  }

  lemma RowIsLine(s: Snapshot, r: Row)
    requires Readable(s) && RowOk(r)
    ensures '\n' !in PrintRow(s, r)
  {
    BlanksAreLine(r.pad0); BlanksAreLine(r.pad1); BlanksAreLine(r.pad2); BlanksAreLine(r.pad3); BlanksAreLine(r.end);
  }

  lemma BlanksAreLine(g: string)
    requires Blanks(g)
    ensures '\n' !in g
  {
  }

  lemma AllLines(header: seq<string>, rule: string, rows: seq<string>, blank: seq<string>)
    requires '\n' !in rule && (forall i :: 0 <= i < |header| ==> '\n' !in header[i])
    requires (forall i :: 0 <= i < |rows| ==> '\n' !in rows[i]) && (forall i :: 0 <= i < |blank| ==> '\n' !in blank[i])
    ensures var all := header + [rule] + rows + blank; all != [] && forall i :: 0 <= i < |all| ==> '\n' !in all[i]
  {
  }

  /** The same on the whole output, split into its lines. */
  lemma OutputRoundTrip(header: seq<string>, pad: string, more: string, snaps: seq<Snapshot>, rows: seq<Row>,
      blank: seq<string>, cur: string)
    requires |snaps| == |rows| && forall i :: 0 <= i < |snaps| ==> Readable(snaps[i]) && RowOk(rows[i])
    requires Blanks(pad) && '\n' !in more && forall i :: 0 <= i < |blank| ==> Blanks(blank[i])
    requires forall i :: 0 <= i < |header| ==>
        '\n' !in header[i] && (TrimLeft(header[i]) == "" || TrimLeft(header[i])[0] != '-')
    ensures Snapshots(Lines(Join(header + [pad + "---" + more] + PrintRows(snaps, rows) + blank)), cur)
            == seq(|snaps|, i requires 0 <= i < |snaps| => snaps[i].(current := cur != "" && snaps[i].name == cur))
  {
    BlanksAreLine(pad);
    assert '\n' !in "---";
    var rule := pad + "---" + more;
    hide Readable, RowOk, PrintRow, IsRule, Snapshots, Lines, Blanks, Join;
    var lines := header + [rule] + PrintRows(snaps, rows) + blank;
    forall i | 0 <= i < |snaps| ensures '\n' !in PrintRows(snaps, rows)[i] { RowIsLine(snaps[i], rows[i]); }
    forall i | 0 <= i < |blank| ensures '\n' !in blank[i] { BlanksAreLine(blank[i]); }
    AllLines(header, rule, PrintRows(snaps, rows), blank);
    LinesJoin(lines);
    TableRoundTrip(header, pad, more, snaps, rows, blank, cur);
  }
}
