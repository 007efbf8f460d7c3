/** internal/virsh/virsh.go: the files an external snapshot is kept in. */
module Overlay {
  import opened GoStrings
  import SnapTable

  // ---------- fileStem ----------

  predicate StemChar(c: char) {
    'a' <= c <= 'z' || 'A' <= c <= 'Z' || '0' <= c <= '9' || c == '.' || c == '-' || c == '_'
  }

  predicate EdgeChar(c: char) { c == '_' || c == '.' }

  /** The builder's text, and whether it ends in a replacement underscore. */
  datatype Stem = Stem(text: string, last: bool)

  function Step(st: Stem, c: char): Stem {
    if StemChar(c) then Stem(st.text + [c], false)
    else if st.last then st
    else Stem(st.text + ['_'], true)
  }

  function Scan(name: string): Stem {
    if name == "" then Stem("", false) else Step(Scan(name[..|name| - 1]), name[|name| - 1])
  }

  function TrimFront(s: string): (t: string)
    ensures |t| <= |s| && s[|s| - |t|..] == t && (t == "" || !EdgeChar(t[0]))
  {
    if s != "" && EdgeChar(s[0]) then TrimFront(s[1..]) else s
  }

  function TrimBack(s: string): (t: string)
    ensures |t| <= |s| && s[..|t|] == t && (t == "" || !EdgeChar(t[|t| - 1]))
  {
    if s != "" && EdgeChar(s[|s| - 1]) then TrimBack(s[..|s| - 1]) else s
  }

  function StemOf(name: string): string {
    var s := TrimBack(TrimFront(Scan(name).text));
    if s == "" then "snap" else s
  }

  method FileStem(name: string) returns (stem: string)
    ensures stem == StemOf(name)
  {
    var b, lastUnderscore := "", false;
    for i := 0 to |name|
      invariant Stem(b, lastUnderscore) == Scan(name[..i])
    {
      assert name[..i + 1][..i] == name[..i];
      if StemChar(name[i]) {
        b := b + [name[i]];
        lastUnderscore := false;
      } else if !lastUnderscore {
        b := b + ['_'];
        lastUnderscore := true;
      }
    }
    assert name[..|name|] == name;
    var s := TrimBack(TrimFront(b));
    stem := if s == "" then "snap" else s;
  }

  predicate AllStem(s: string) {
    forall i :: 0 <= i < |s| ==> StemChar(s[i])
  }

  /** A plain file name component: no slash, and never `.`, `..` or empty. */
  predicate IsStem(s: string) {
    s != "" && AllStem(s) && !EdgeChar(s[0]) && !EdgeChar(s[|s| - 1])
  }

  lemma {:induction false} ScanChars(name: string)
    ensures AllStem(Scan(name).text)
  {
    if name != "" { ScanChars(name[..|name| - 1]); }
  }

  lemma LastBack(s: string)
    requires s != ""
    ensures s[..|s| - 1] + [s[|s| - 1]] == s
  {
  }

  lemma {:induction false} ScanPlain(name: string)
    requires AllStem(name)
    ensures Scan(name) == Stem(name, false)
  {
    hide StemChar;
    if name != "" {
      ScanPlain(name[..|name| - 1]);
      LastBack(name);
    }
  }

  /** Trimming keeps a middle part. */
  lemma TrimmedChars(t: string)
    requires AllStem(t)
    ensures var s := TrimBack(TrimFront(t)); s == "" || IsStem(s)
  {
    hide StemChar, EdgeChar, TrimFront, TrimBack;
    var f := TrimFront(t);
    var s := TrimBack(f);
    forall i | 0 <= i < |s| ensures StemChar(s[i]) {
      assert s[i] == f[..|s|][i] == f[i];
      assert f[i] == t[|t| - |f|..][i] == t[|t| - |f| + i];
    }
    if s != "" { assert s[0] == f[..|s|][0] == f[0]; }
  }

  lemma NothingToTrim(t: string)
    requires t != "" && !EdgeChar(t[0]) && !EdgeChar(t[|t| - 1])
    ensures TrimBack(TrimFront(t)) == t
  {
  }

  lemma Fallback()
    ensures IsStem("snap")
  {
    assert "snap" == ['s', 'n', 'a', 'p'];
  }

  /** Every name gets a safe stem; the names that are their own stem are exactly the safe ones: nothing but
      ASCII letters, digits, dots, dashes and underscores, and no dot or underscore at either end. */
  lemma StemFixedIff(name: string)
    ensures IsStem(StemOf(name)) && (StemOf(name) == name <==> IsStem(name))
    ensures IsStem(name) <==>
            && name != "" && name[0] != '.' && name[0] != '_' && name[|name| - 1] != '.' && name[|name| - 1] != '_'
            && forall i :: 0 <= i < |name| ==>
                 || 'a' <= name[i] <= 'z' || 'A' <= name[i] <= 'Z' || '0' <= name[i] <= '9'
                 || name[i] == '.' || name[i] == '-' || name[i] == '_'
  {
    SafeIs(name);
    hide StemChar, EdgeChar, TrimFront, TrimBack, Scan;
    ScanChars(name);
    TrimmedChars(Scan(name).text);
    Fallback();
    if IsStem(name) {
      ScanPlain(name);
      NothingToTrim(name);
    }
  }

  lemma SafeIs(name: string)
    ensures IsStem(name) <==>
            && name != "" && name[0] != '.' && name[0] != '_' && name[|name| - 1] != '.' && name[|name| - 1] != '_'
            && forall i :: 0 <= i < |name| ==>
                 || 'a' <= name[i] <= 'z' || 'A' <= name[i] <= 'Z' || '0' <= name[i] <= '9'
                 || name[i] == '.' || name[i] == '-' || name[i] == '_'
  {
  }

  /** Characters outside the alphabet. */
  predicate AllOther(s: string) {
    forall i :: 0 <= i < |s| ==> !StemChar(s[i])
  }

  /** A run of other characters is one underscore, unless it follows one that stands for another run. */
  lemma {:induction false} ScanRun(u: string, g: string)
    requires g != "" && AllOther(g)
    ensures Scan(u + g) == if Scan(u).last then Scan(u) else Stem(Scan(u).text + "_", true)
  {
    hide StemChar;
    assert (u + g)[..|u + g| - 1] == u + g[..|g| - 1];
    if |g| > 1 { ScanRun(u, g[..|g| - 1]); } else { assert u + g[..0] == u; }
  }

  lemma {:induction false} ScanMore(u: string, z: string)
    requires z != "" && AllStem(z)
    ensures Scan(u + z) == Stem(Scan(u).text + z, false)
  {
    hide StemChar;
    assert (u + z)[..|u + z| - 1] == u + z[..|z| - 1];
    LastBack(z);
    if |z| > 1 {
      ScanMore(u, z[..|z| - 1]);
      assert Scan(u).text + z[..|z| - 1] + [z[|z| - 1]] == Scan(u).text + z;
    } else {
      assert u + z[..0] == u;
    }
  }

  /** Each run of other characters inside a name becomes one underscore, at its ends none at all, and a name of
      nothing else becomes "snap". */
  lemma StemJoins(g: string, x: string, h: string, z: string, k: string)
    requires AllOther(g) && IsStem(x) && AllOther(h) && h != "" && IsStem(z) && AllOther(k)
    ensures StemOf(g + x + h + z + k) == x + "_" + z
    ensures StemOf(g + x + k) == x && StemOf(g) == "snap"
  {
    hide StemChar, EdgeChar, TrimFront, TrimBack, Scan, AllStem, AllOther;
    ScanFront(g);
    var f := Scan(g).text;
    ScanMore(g, x);
    ScanRun(g + x, h);
    ScanMore(g + x + h, z);
    var all := g + x + h + z;
    assert Scan(all).text == f + (x + "_" + z);
    assert IsEdged(x + "_" + z) by { EdgedJoin(x, z); }
    ScanBack(all, k);
    EdgesGo(f, x + "_" + z, Tail(k));
    ScanBack(g + x, k);
    EdgesGo(f, x, Tail(k));
    OnlyEdges(f);
  }

  /** What a run at an end is scanned to. */
  function Tail(k: string): string { if k == "" then "" else "_" }

  predicate IsEdged(s: string) { s != "" && !EdgeChar(s[0]) && !EdgeChar(s[|s| - 1]) }

  lemma EdgedJoin(x: string, z: string)
    requires IsEdged(x) && IsEdged(z)
    ensures IsEdged(x + "_" + z)
  {
    hide EdgeChar;
  }

  lemma ScanFront(g: string)
    requires AllOther(g)
    ensures Scan(g).text == Tail(g)
  {
    hide StemChar;
    if g != "" {
      ScanRun("", g);
      assert "" + g == g;
    }
  }

  lemma ScanBack(u: string, k: string)
    requires AllOther(k) && !Scan(u).last
    ensures Scan(u + k).text == Scan(u).text + Tail(k)
  {
    hide StemChar, Scan;
    if k == "" { assert u + k == u; } else { ScanRun(u, k); }
  }

  lemma EdgesGo(f: string, s: string, b: string)
    requires (f == "" || f == "_") && (b == "" || b == "_") && IsEdged(s)
    ensures TrimBack(TrimFront(f + s + b)) == s
  {
    hide EdgeChar, TrimFront, TrimBack;
    assert f + s + b == f + (s + b) && (s + b)[0] == s[0];
    FrontGoes(f, s + b);
    BackGoes(s, b);
  }

  lemma FrontGoes(f: string, s: string)
    requires (f == "" || f == "_") && s != "" && !EdgeChar(s[0])
    ensures TrimFront(f + s) == s
  {
    assert EdgeChar('_');
    hide EdgeChar;
    if f == "" { assert f + s == s; } else { assert (f + s)[0] == '_' && (f + s)[1..] == s; }
  }

  lemma BackGoes(s: string, b: string)
    requires (b == "" || b == "_") && s != "" && !EdgeChar(s[|s| - 1])
    ensures TrimBack(s + b) == s
  {
    assert EdgeChar('_');
    hide EdgeChar;
    if b == "" { assert s + b == s; } else { assert (s + b)[|s|] == '_' && (s + b)[..|s|] == s; }
  }

  lemma OnlyEdges(f: string)
    requires f == "" || f == "_"
    ensures TrimBack(TrimFront(f)) == ""
  {
  }

  /** Different accepted names may share a stem. */
  lemma StemsCollide()
    ensures SnapTable.ValidSnapshotName("a b") && SnapTable.ValidSnapshotName("a_b")
    ensures StemOf("a b") == "a_b" && StemOf("a_b") == "a_b"
  {
    hide *;
    assert "a b" == ['a', ' ', 'b'] && "a_b" == ['a', '_', 'b'];
    ShortNameOk(' ');
    ShortNameOk('_');
    ShortStem(' ');
    ShortStem('_');
  }

  lemma ShortStem(c: char)
    requires c == ' ' || c == '_'
    ensures StemOf(['a', c, 'b']) == ['a', '_', 'b']
  {
    hide TrimFront, TrimBack, Scan;
    ScanThree('a', c, 'b');
    NothingToTrim(['a', '_', 'b']);
  }

  lemma ShortNameOk(c: char)
    requires c == ' ' || c == '_'
    ensures SnapTable.ValidSnapshotName(['a', c, 'b'])
  {
    hide TrimSpace, Contains;
    var s := ['a', c, 'b'];
    TrimsNothing(s);
    NoPair(s, ' ');
    NoPair(s, '.');
    assert "  " == [' ', ' '] && ".." == ['.', '.'];
    assert |s| == 3 && |"."| == 1 && |".."| == 2;
    assert SnapTable.NameChar('a') && SnapTable.NameChar('b') && SnapTable.NameChar(c);
  }

  lemma TrimsNothing(s: string)
    requires s != "" && !IsSpace(s[0]) && !IsSpace(s[|s| - 1])
    ensures TrimSpace(s) == s
  {
  }

  lemma NoPair(s: string, c: char)
    requires |s| == 3 && s[0] != c && s[2] != c
    ensures !Contains(s, [c, c])
  {
    hide IndexFrom;
    forall j | 0 <= j ensures !At(s, j, [c, c]) {
      if j == 0 { assert s[j + 0] != [c, c][0]; }
      else if j == 1 { assert s[j + 1] != [c, c][1]; }
    }
  }

  lemma ScanThree(x: char, y: char, z: char)
    requires StemChar(x) && StemChar(z)
    ensures Scan([x, y, z]).text == [x, if StemChar(y) then y else '_', z]
  {
    hide StemChar;
    assert [x, y, z][..2] == [x, y] && [x, y][..1] == [x] && [x][..0] == "";
    assert Scan([x]) == Stem([x], false);
    assert Scan([x, y]).text == [x, if StemChar(y) then y else '_'];
  }

  // ---------- the arguments of snapshot-create-as ----------

  datatype Disk = Disk(device: string, target: string)

  /** One `--diskspec`: removable media are left out of the snapshot. */
  datatype Spec = NoSnapshot(target: string) | External(target: string, file: string)

  predicate Removable(d: Disk) { d.device == "cdrom" || d.device == "floppy" }

  /** strings.TrimRight(dir, "/"). */
  function TrimSlashes(dir: string): (r: string)
    ensures r <= dir && (r == "" || r[|r| - 1] != '/') && forall i :: |r| <= i < |dir| ==> dir[i] == '/'
  {
    if dir != "" && dir[|dir| - 1] == '/' then TrimSlashes(dir[..|dir| - 1]) else dir
  }

  function DiskFile(dir: string, stem: string, target: string, i: nat): string {
    TrimSlashes(dir) + "/" + stem + "-" + target + "-" + Itoa(i) + ".qcow2"
  }

  function MemoryFile(dir: string, stem: string): string {
    TrimSlashes(dir) + "/" + stem + "-memory.save"
  }

  function SpecOf(d: Disk, i: nat, dir: string, stem: string): Spec {
    if Removable(d) then NoSnapshot(d.target) else External(d.target, DiskFile(dir, stem, d.target, i))
  }

  /** The external part of CreateSnapshot; None without a directory. */
  method Specs(disks: seq<Disk>, name: string, state: string, dir: string)
      returns (r: Option<(seq<Spec>, Option<string>)>)
    ensures r.None? <==> dir == ""
    ensures r.Some? ==>
              && |r.value.0| == |disks|
              && (forall i :: 0 <= i < |disks| ==>
                    r.value.0[i] ==
                      if disks[i].device == "cdrom" || disks[i].device == "floppy" then NoSnapshot(disks[i].target)
                      else External(disks[i].target, TrimSlashes(dir) + "/" + StemOf(name) + "-" + disks[i].target +
                                                     "-" + Itoa(i) + ".qcow2"))
              && r.value.1 == if state == "running" || state == "paused"
                  then Some(TrimSlashes(dir) + "/" + StemOf(name) + "-memory.save") else None
  {
    hide DiskFile, MemoryFile, StemOf, TrimSlashes;
    if dir == "" { return None; }
    var stem := FileStem(name);
    var specs: seq<Spec> := [];
    for i := 0 to |disks|
      invariant |specs| == i && forall j :: 0 <= j < i ==> specs[j] == SpecOf(disks[j], j, dir, stem)
    {
      var d := disks[i];
      if Removable(d) {
        specs := specs + [NoSnapshot(d.target)];
        continue;
      }
      specs := specs + [External(d.target, DiskFile(dir, stem, d.target, i))];
    }
    var mem := if state == "running" || state == "paused" then Some(MemoryFile(dir, stem)) else None;
    SpecsSpelled(disks, dir, stem);
    return Some((specs, mem));
  }

  lemma SpecsSpelled(disks: seq<Disk>, dir: string, stem: string)
    ensures forall i :: 0 <= i < |disks| ==>
        SpecOf(disks[i], i, dir, stem) ==
          if disks[i].device == "cdrom" || disks[i].device == "floppy" then NoSnapshot(disks[i].target)
          else External(disks[i].target,
                        TrimSlashes(dir) + "/" + stem + "-" + disks[i].target + "-" + Itoa(i) + ".qcow2")
    ensures MemoryFile(dir, stem) == TrimSlashes(dir) + "/" + stem + "-memory.save"
  {
    hide TrimSlashes, Itoa;
  }

  // ---------- no two of them are the same file ----------

  lemma SameSuffix(x: string, y: string, e: string)
    requires x + e == y + e
    ensures x == y
  {
    assert |x| == |y| && x == (x + e)[..|x|] && y == (y + e)[..|y|];
  }

  lemma DashInside(x: string, a: string, y: string, b: string)
    requires x + "-" + a == y + "-" + b && |x| < |y|
    ensures '-' in a
  {
    assert (y + "-" + b)[|y|] == '-';
    assert (x + "-" + a)[|y|] == a[|y| - |x| - 1];
  }

  /** What follows the last dash is determined. */
  lemma LastDash(x: string, a: string, y: string, b: string)
    requires '-' !in a && '-' !in b && x + "-" + a == y + "-" + b
    ensures x == y && a == b
  {
    if |x| < |y| { DashInside(x, a, y, b); }
    if |y| < |x| { DashInside(y, b, x, a); }
    var s := x + "-" + a;
    assert x == s[..|x|] && y == s[..|y|] && a == s[|x| + 1..] && b == s[|y| + 1..];
  }

  lemma NoDash(i: nat)
    ensures '-' !in Itoa(i)
  {
    ItoaDigits(i);
    assert !IsDigit('-');
  }

  lemma ItoaInjective(i: nat, j: nat)
    requires Itoa(i) == Itoa(j)
    ensures i == j
  {
    ItoaDigits(i);
    ItoaDigits(j);
  }

  lemma Regroup(d: string, s: string, t: string, n: string, e: string)
    ensures d + "/" + s + "-" + t + "-" + n + e == (d + "/" + s + "-" + t) + "-" + n + e
    ensures d + "/" + s + "-" + t == (d + "/") + (s + ("-" + t))
  {
  }

  /** Two disks of snapshots of one VM go to the same file exactly when it is the same disk and the
      snapshots' names have the same stem. */
  lemma SameFileIff(disks: seq<Disk>, dir: string, s1: string, i: nat, s2: string, j: nat)
    requires i < |disks| && j < |disks|
    ensures DiskFile(dir, s1, disks[i].target, i) == DiskFile(dir, s2, disks[j].target, j) <==> i == j && s1 == s2
  {
    var d, t1, t2 := TrimSlashes(dir), disks[i].target, disks[j].target;
    if DiskFile(dir, s1, t1, i) == DiskFile(dir, s2, t2, j) {
      Regroup(d, s1, t1, Itoa(i), ".qcow2");
      Regroup(d, s2, t2, Itoa(j), ".qcow2");
      var x, y := d + "/" + s1 + "-" + t1, d + "/" + s2 + "-" + t2;
      SameSuffix(x + "-" + Itoa(i), y + "-" + Itoa(j), ".qcow2");
      NoDash(i);
      NoDash(j);
      LastDash(x, Itoa(i), y, Itoa(j));
      ItoaInjective(i, j);
      assert (d + "/") + (s1 + ("-" + t1)) == (d + "/") + (s2 + ("-" + t1));
      SameFront(d + "/", s1 + ("-" + t1), s2 + ("-" + t1));
      SameSuffix(s1, s2, "-" + t1);
    }
  }

  lemma SameFront(d: string, x: string, y: string)
    requires d + x == d + y
    ensures x == y
  {
    assert x == (d + x)[|d|..] && y == (d + y)[|d|..];
  }

  /** The memory file is none of the disk files. */
  lemma MemoryIsApart(dir: string, s1: string, target: string, i: nat, s2: string)
    ensures DiskFile(dir, s1, target, i) != MemoryFile(dir, s2)
  {
    var x, y := DiskFile(dir, s1, target, i), MemoryFile(dir, s2);
    assert ".qcow2"[5] == '2' && "-memory.save"[11] == 'e';
    assert x[|x| - 1] == '2' && y[|y| - 1] == 'e';
  }
}
