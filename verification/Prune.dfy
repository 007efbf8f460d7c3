/** internal/schedule/schedule.go: pruning, and how many scheduled snapshots a VM ever holds. */
module Prune {
  import opened GoStrings
  import opened Retention

  predicate IsAuto(name: string) {
    StartsWith(name, AUTO)
  }

  function Autos(names: seq<string>): seq<string> {
    if names == [] then []
    else Autos(names[..|names| - 1]) + (if IsAuto(names[|names| - 1]) then [names[|names| - 1]] else [])
  }

  /** The names prune asks to delete, in order. */
  function Doomed(names: seq<string>, keep: Int): seq<string> {
    var autos := SortStrings(Autos(names));
    if keep <= 0 || |autos| <= keep then [] else autos[..|autos| - keep]
  }

  ghost predicate Distinct(s: seq<string>) {
    forall i, j :: 0 <= i < j < |s| ==> s[i] != s[j]
  }

  function Elems(s: seq<string>): set<string> {
    set x | x in s
  }

  lemma ElemsAppend(s: seq<string>, t: seq<string>)
    ensures Elems(s + t) == Elems(s) + Elems(t)
  {
  }

  ghost predicate IsListing(names: seq<string>, snaps: set<string>) {
    Distinct(names) && Elems(names) == snaps
  }

  /** One domain's snapshots; `stuck` are those whose deletion fails. */
  class Domain {
    var snaps: set<string>
    const stuck: set<string>
    ghost var asked: seq<string>

    constructor (snaps: set<string>, stuck: set<string>)
      ensures this.snaps == snaps && this.stuck == stuck && asked == []
    {
      this.snaps := snaps;
      this.stuck := stuck;
      asked := [];
    }

    method ListSnapshots() returns (names: seq<string>)
      ensures IsListing(names, snaps)
    {
      names := [];
      var left := snaps;
      while left != {}
        invariant left <= snaps && Distinct(names) && Elems(names) == snaps - left
        decreases left
      {
        var n :| n in left;
        assert forall i :: 0 <= i < |names| ==> names[i] in Elems(names);
        ElemsAppend(names, [n]);
        names := names + [n];
        left := left - {n};
      }
    }

    method DeleteSnapshot(name: string) returns (ok: bool)
      modifies this
      ensures asked == old(asked) + [name] && ok == (name !in stuck)
      ensures snaps == if ok then old(snaps) - {name} else old(snaps)
    {
      asked := asked + [name];
      ok := name !in stuck;
      if ok { snaps := snaps - {name}; }
    }

    /** The deletions of one prune. */
    method DeleteAll(doomed: seq<string>)
      modifies this
      ensures asked == old(asked) + doomed && snaps == old(snaps) - (Elems(doomed) - stuck)
    {
      for i := 0 to |doomed|
        invariant asked == old(asked) + doomed[..i]
        invariant snaps == old(snaps) - (Elems(doomed[..i]) - stuck)
      {
        assert doomed[..i + 1] == doomed[..i] + [doomed[i]];
        ElemsAppend(doomed[..i], [doomed[i]]);
        var ok := DeleteSnapshot(doomed[i]);
      }
      assert doomed[..|doomed|] == doomed;
    }

    /** Deletes scheduled snapshots beyond the newest `keep`; a failed deletion does not stop it. */
    method PruneAutos(keep: Int) returns (ghost listing: seq<string>)
      modifies this
      ensures IsListing(listing, old(snaps))
      ensures asked == old(asked) + Doomed(listing, keep)
      ensures snaps == old(snaps) - (Elems(Doomed(listing, keep)) - stuck)
      ensures keep <= 0 ==> asked == old(asked) && snaps == old(snaps)
    {
      hide IsAuto, SortStrings, IsListing;
      listing := [];
      var names := ListSnapshots();
      listing := names;
      if keep <= 0 { return; }
      var autos := [];
      for i := 0 to |names|
        invariant autos == Autos(names[..i])
      {
        assert names[..i + 1][..i] == names[..i];
        if IsAuto(names[i]) { autos := autos + [names[i]]; }
      }
      assert names[..|names|] == names;
      autos := SortStrings(autos);
      if |autos| <= keep { return; }
      DeleteAll(autos[..|autos| - keep]);
    }
  }

  // ---------- which names are pruned ----------

  function AutoSet(snaps: set<string>): set<string> {
    set n | n in snaps && IsAuto(n)
  }

  lemma AutoIs(snaps: set<string>)
    ensures AutoSet(snaps) == set n | n in snaps && |n| >= 5 && n[..5] == ['a', 'u', 't', 'o', '-']
  {
    assert AUTO == ['a', 'u', 't', 'o', '-'];
  }

  lemma {:induction false} AutosElems(names: seq<string>)
    requires Distinct(names)
    ensures Distinct(Autos(names)) && Elems(Autos(names)) == set n | n in Elems(names) && IsAuto(n)
  {
    hide IsAuto;
    if names != [] {
      var k := |names| - 1;
      var front, x := names[..k], names[k];
      AutosElems(front);
      assert names == front + [x];
      ElemsAppend(front, [x]);
      ElemsAppend(Autos(front), if IsAuto(x) then [x] else []);
      assert x !in front;
      forall i | 0 <= i < |Autos(front)| ensures Autos(front)[i] != x { assert Autos(front)[i] in Elems(Autos(front)); }
    }
  }

  lemma {:induction false} DistinctCard(s: seq<string>)
    requires Distinct(s)
    ensures |Elems(s)| == |s|
  {
    if s != [] {
      var k := |s| - 1;
      DistinctCard(s[..k]);
      assert s[k] !in s[..k];
      assert Elems(s) == Elems(s[..k]) + {s[k]};
    }
  }

  lemma {:induction false} DistinctOnce(s: seq<string>, x: string)
    requires Distinct(s)
    ensures multiset(s)[x] == if x in s then 1 else 0
  {
    if s != [] {
      var k := |s| - 1;
      assert s == s[..k] + [s[k]];
      DistinctOnce(s[..k], x);
    }
  }

  lemma Twice(r: seq<string>, i: nat, j: nat)
    requires i < j < |r| && r[i] == r[j]
    ensures multiset(r)[r[i]] >= 2
  {
    assert r == r[..j] + [r[j]] + r[j + 1..];
    assert r[..j][i] == r[i];
  }

  lemma SortDistinct(s: seq<string>)
    requires Distinct(s)
    ensures var r := SortStrings(s); Distinct(r) && Elems(r) == Elems(s) && Ascending(r)
  {
    hide Less;
    var r := SortStrings(s);
    SortSorts(s);
    forall i, j | 0 <= i < j < |r| ensures r[i] != r[j] && Less(r[i], r[j]) {
      DistinctOnce(s, r[i]);
      if r[i] == r[j] { Twice(r, i, j); }
      LessTotal(r[i], r[j]);
    }
    forall x ensures x in r <==> x in s { assert x in multiset(r) <==> x in multiset(s); }
  }

  ghost predicate Ascending(s: seq<string>) {
    forall i, j :: 0 <= i < j < |s| ==> Less(s[i], s[j])
  }

  function NewerThan(n: string, autos: set<string>): set<string> {
    set m | m in autos && Less(n, m)
  }

  /** In an ascending list, the names before the last `keep` are those with `keep` newer ones. */
  lemma CutIff(a: seq<string>, cut: nat, keep: nat)
    requires Distinct(a) && Ascending(a) && cut <= |a| && (|a| <= keep ==> cut == 0)
        && (|a| > keep ==> cut == |a| - keep)
    ensures forall n :: n in a[..cut] <==> n in Elems(a) && |NewerThan(n, Elems(a))| >= keep
    ensures Elems(a) - Elems(a[..cut]) == Elems(a[cut..]) && |Elems(a[cut..])| == |a| - cut
  {
    hide Ascending;
    forall n ensures n in a[..cut] <==> n in Elems(a) && |NewerThan(n, Elems(a))| >= keep {
      if n in Elems(a) {
        var i :| 0 <= i < |a| && a[i] == n;
        RankOf(a, i);
        assert i < cut ==> a[..cut][i] == n;
      }
    }
    assert a == a[..cut] + a[cut..];
    ElemsAppend(a[..cut], a[cut..]);
    DistinctCard(a[cut..]);
  }

  /** prune asks to delete, oldest first, exactly the scheduled snapshots that have `keep` newer ones. */
  lemma DoomedIff(names: seq<string>, snaps: set<string>, keep: Int)
    requires IsListing(names, snaps) && keep > 0
    ensures AutoSet(snaps) == set n | n in snaps && |n| >= 5 && n[..5] == ['a', 'u', 't', 'o', '-']
    ensures var d, autos := Doomed(names, keep), AutoSet(snaps);
      && Ascending(d) && (forall n :: n in d <==> n in autos && |NewerThan(n, autos)| >= keep)
      && |autos - Elems(d)| == (if |autos| < keep then |autos| else keep)
  {
    var a, cut := SortStrings(Autos(names)), DoomedCut(names, keep);
    ListedAutos(names, snaps);
    AutoIs(snaps);
    hide IsAuto, Less, SortStrings, Autos, NewerThan, IsListing, AutoSet, Elems;
    AscendingFront(a, cut);
    CutIff(a, cut, keep);
  }

  /** How many names prune asks to delete. */
  function DoomedCut(names: seq<string>, keep: Int): (cut: nat)
    requires keep > 0
    ensures cut <= |SortStrings(Autos(names))| && Doomed(names, keep) == SortStrings(Autos(names))[..cut]
  {
    var n := |SortStrings(Autos(names))|;
    if n <= keep then 0 else n - keep
  }

  lemma ListedAutos(names: seq<string>, snaps: set<string>)
    requires IsListing(names, snaps)
    ensures var a := SortStrings(Autos(names));
      Distinct(a) && Ascending(a) && Elems(a) == AutoSet(snaps) && |a| == |AutoSet(snaps)|
  {
    hide IsAuto, Less, SortStrings, Autos;
    AutosElems(names);
    SortDistinct(Autos(names));
    DistinctCard(SortStrings(Autos(names)));
  }

  lemma AscendingFront(a: seq<string>, cut: nat)
    requires Ascending(a) && cut <= |a|
    ensures Ascending(a[..cut])
  {
  }

  lemma RankOf(a: seq<string>, i: nat)
    requires i < |a| && Distinct(a) && Ascending(a)
    ensures |NewerThan(a[i], Elems(a))| == |a| - 1 - i
  {
    hide Less;
    var newer, later := NewerThan(a[i], Elems(a)), a[i + 1..];
    forall m | m in newer ensures m in later {
      var j :| 0 <= j < |a| && a[j] == m;
      LessTotal(a[i], a[j]);
      assert later[j - i - 1] == m;
    }
    forall m | m in later ensures m in newer {
      var j :| 0 <= j < |later| && later[j] == m;
      assert a[i + 1 + j] in Elems(a);
    }
    assert newer == Elems(later);
    DistinctCard(later);
  }

  // ---------- whole runs without errors ----------

  /** One scheduled run: the snapshot taken at `t`, then pruning over some listing. */
  ghost predicate Scheduled(snaps: set<string>, t: Civil, keep: Int, after: set<string>) {
    exists names :: IsListing(names, snaps + {Name(t)}) && after == snaps + {Name(t)} - Elems(Doomed(names, keep))
  }

  ghost predicate Older(snaps: set<string>, t: Civil) {
    forall n :: n in AutoSet(snaps) ==> Less(n, Name(t))
  }

  lemma NameIsAuto(t: Civil)
    ensures IsAuto(Name(t))
  {
    assert Name(t)[..|AUTO|] == AUTO;
  }

  lemma NothingNewer(snaps: set<string>, t: Civil)
    requires Older(snaps, t)
    ensures NewerThan(Name(t), AutoSet(snaps + {Name(t)})) == {}
  {
    hide IsAuto, Less, Name;
    forall n | n in AutoSet(snaps + {Name(t)}) ensures !Less(Name(t), n) {
      LessTotal(n, Name(t));
      if n in snaps { assert n in AutoSet(snaps); }
    }
  }

  /** After a scheduled run the VM holds, of all its snapshots and the one just taken, exactly the `auto-` ones
      with fewer than `keep` newer ones, so at most `keep`, and every other one.  The snapshot just taken is
      pruned at once exactly when at least `keep` hand-made `auto-` names sort behind it. */
  lemma ScheduledHolds(snaps: set<string>, t: Civil, keep: Int, after: set<string>)
    requires keep > 0 && Scheduled(snaps, t, keep, after)
    ensures var autos := AutoSet(snaps + {Name(t)});
      && (forall n :: n in AutoSet(after) <==> n in autos && |NewerThan(n, autos)| < keep)
      && |AutoSet(after)| == (if |autos| < keep then |autos| else keep)
      && (Name(t) in after <==> |NewerThan(Name(t), autos)| < keep)
    ensures forall n :: !IsAuto(n) ==> (n in after <==> n in snaps)
    ensures after <= snaps + {Name(t)}
  {
    hide IsAuto, Less, Name, Doomed, NewerThan, IsListing;
    var all := snaps + {Name(t)};
    var names :| IsListing(names, all) && after == all - Elems(Doomed(names, keep));
    DoomedIff(names, all, keep);
    NameIsAuto(t);
    assert AutoSet(after) == AutoSet(all) - Elems(Doomed(names, keep));
  }

  ghost predicate ScheduledRun(states: seq<set<string>>, times: seq<Civil>, keep: Int) {
    && |states| == |times| + 1
    && forall i :: 0 <= i < |times| ==> Scheduled(states[i], times[i], keep, states[i + 1])
  }

  /** Over any run of scheduled snapshots, every state after the first holds at most `keep` `auto-` snapshots,
      the newest of them exactly unless `keep` hand-made names sort behind it, and all snapshots made by hand
      under other names. */
  lemma {:induction false} RunHolds(states: seq<set<string>>, times: seq<Civil>, keep: Int)
    requires keep > 0 && ScheduledRun(states, times, keep) && |times| > 0
    ensures var n := |times|; var last := Name(times[n - 1]);
      && |AutoSet(states[n])| <= keep
      && (last in states[n] <==> |NewerThan(last, AutoSet(states[n - 1] + {last}))| < keep)
      && (forall m :: !IsAuto(m) ==> (m in states[n] <==> m in states[0]))
    decreases |times|
  {
    hide IsAuto, Less, Name, Scheduled, NewerThan;
    var n := |times|;
    if n > 1 { RunHolds(states[..n], times[..n - 1], keep); }
    assert Scheduled(states[n - 1], times[n - 1], keep, states[n - 1 + 1]);
    ScheduledHolds(states[n - 1], times[n - 1], keep, states[n]);
  }

  ghost predicate Increasing(times: seq<Civil>) {
    (forall i :: 0 <= i < |times| ==> times[i].Ok()) && forall i :: 1 <= i < |times| ==> Before(times[i - 1], times[i])
  }

  /** At increasing civil times, from a state whose `auto-` snapshots are older, the snapshot just taken is held
      and is the newest. */
  lemma {:induction false} RunHoldsNewest(states: seq<set<string>>, times: seq<Civil>, keep: Int)
    requires keep > 0 && ScheduledRun(states, times, keep) && |times| > 0
    requires Increasing(times) && Older(states[0], times[0])
    ensures var n := |times|; var last := Name(times[n - 1]);
      last in states[n] && forall m :: m in AutoSet(states[n]) ==> m == last || Less(m, last)
    decreases |times|
  {
    hide IsAuto, Less, Name, Scheduled, Civil.Ok, Before, NewerThan;
    var n := |times|;
    var last := Name(times[n - 1]);
    if n > 1 {
      RunHoldsNewest(states[..n], times[..n - 1], keep);
      assert Before(times[n - 1 - 1], times[n - 1]);
      NameOrder(times[n - 2], times[n - 1]);
      NewestOlder(states[n - 1], times[n - 2], times[n - 1]);
    }
    assert Scheduled(states[n - 1], times[n - 1], keep, states[n - 1 + 1]);
    ScheduledHolds(states[n - 1], times[n - 1], keep, states[n]);
    NothingNewer(states[n - 1], times[n - 1]);
    forall m | m in AutoSet(states[n]) && m != last ensures Less(m, last) {
      assert m in AutoSet(states[n - 1]);
    }
  }

  lemma NewestOlder(snaps: set<string>, t: Civil, u: Civil)
    requires Less(Name(t), Name(u)) && forall m :: m in AutoSet(snaps) ==> m == Name(t) || Less(m, Name(t))
    ensures Older(snaps, u)
  {
    hide IsAuto, Less, Name;
    forall m | m in AutoSet(snaps) ensures Less(m, Name(u)) {
      if m != Name(t) { LessTrans(m, Name(t), Name(u)); }
    }
  }
}
