/** When the text edits mean what XML means: consequences of the exact refinement in AttrList. */
module AttrLaws {
  import opened GoStrings
  import opened AttrList

  predicate Named(attrs: seq<Attr>, name: string) {
    exists i :: 0 <= i < |attrs| && attrs[i].name == name
  }

  /** Attribute `k` swallows its neighbour when ` name='` is dropped: its value ends in ` name=`, the
      search reaches it before any attribute `name`, and there is a neighbour to swallow (other than
      the one whose swallowing restores the very same text). */
  predicate Swallows(attrs: seq<Attr>, k: int, name: string) {
    && 0 <= k < |attrs| - 1
    && EndsWith(attrs[k].value, " " + name + "=")
    && !Named(attrs[..k + 1], name)
    && attrs[k + 1] != Attr(name, " " + name + "=")
  }

  /** Structured and XML deletion agree exactly when no attribute swallows its neighbour. */
  lemma {:induction false} DropIsRemoveIff(attrs: seq<Attr>, name: string)
    requires WellFormed(attrs)
    ensures DropFirst(attrs, name) == Remove(attrs, name) <==> forall k :: !Swallows(attrs, k, name)
  {
    if attrs == [] {
      return;
    }
    var a, rest := attrs[0], attrs[1..];
    if a.name == name {
      forall k | 0 <= k < |attrs| ensures !Swallows(attrs, k, name) {
        assert attrs[..k + 1][0].name == name;
      }
    } else if EndsWith(a.value, " " + name + "=") {
      SwallowFirst(attrs, name);
    } else {
      DropIsRemoveIff(rest, name);
      forall k | 0 <= k < |rest|
        ensures Swallows(rest, k, name) <==> Swallows(attrs, k + 1, name)
      {
        SwallowsShift(attrs, k, name);
      }
      if j :| Swallows(attrs, j, name) { assert j != 0 && Swallows(rest, j - 1, name); }
      assert DropFirst(attrs, name)[1..] == DropFirst(rest, name);
      assert Remove(attrs, name)[1..] == Remove(rest, name);
    }
  }

  lemma SwallowsShift(attrs: seq<Attr>, k: nat, name: string)
    requires k + 1 < |attrs| && attrs[0].name != name
    ensures Swallows(attrs[1..], k, name) <==> Swallows(attrs, k + 1, name)
  {
    var u, v := attrs[1..][..k + 1], attrs[..k + 2];
    assert v[0] == attrs[0] && v[1..] == u;
    if i :| 0 <= i < |u| && u[i].name == name { assert v[i + 1].name == name; }
    if i :| 0 <= i < |v| && v[i].name == name { assert u[i - 1].name == name; }
  }

  lemma SwallowFirst(attrs: seq<Attr>, name: string)
    requires WellFormed(attrs) && attrs != []
    requires attrs[0].name != name && EndsWith(attrs[0].value, " " + name + "=")
    ensures DropFirst(attrs, name) == Remove(attrs, name) <==> forall k :: !Swallows(attrs, k, name)
  {
    var a := attrs[0];
    if |attrs| == 1 {
      assert Remove(attrs, name) == [a] + [];
      return;
    }
    var b, cut := attrs[1], a.value[..|a.value| - |name| - 2];
    assert a.value == cut + (" " + name + "=");
    assert !Named(attrs[..1], name);
    var got, want := DropFirst(attrs, name), Remove(attrs, name);
    assert got[0] == Attr(a.name, cut + b.value) && want[0] == a;
    if b.name == name {
      assert want == [a] + attrs[2..];
      if b.value != " " + name + "=" {
        assert Swallows(attrs, 0, name);
        assert (cut + b.value)[|cut|..] == b.value && a.value[|cut|..] == " " + name + "=";
      } else {
        assert got == want;
        forall k | 1 <= k < |attrs| ensures !Swallows(attrs, k, name) {
          assert attrs[..k + 1][1].name == name;
        }
      }
    } else {
      assert Swallows(attrs, 0, name);
      assert want[1] == b;
      if |attrs| > 2 { assert got[1] == attrs[2]; }
    }
  }

  // ---------- reading ----------

  /** An attribute at which the search for `key='` stops: its name or its value ends in the key. */
  predicate Hits(a: Attr, key: string) {
    EndsWith(a.name, key) || EndsWith(a.value, key + "=")
  }

  /** What is read there: behind a name its value, behind a value the text up to the next quote. */
  function Yield(attrs: seq<Attr>, i: nat, key: string): string
    requires i < |attrs|
  {
    if EndsWith(attrs[i].name, key) then attrs[i].value
    else if i + 1 == |attrs| then "" else " " + attrs[i + 1].name + "="
  }

  /** Attribute `i` shadows the attribute `key`: the search stops there first, it is another attribute, and
      what is read there is not what stands under `key` (nothing, when there is no such attribute). */
  predicate Shadows(attrs: seq<Attr>, i: int, key: string) {
    && 0 <= i < |attrs|
    && Hits(attrs[i], key) && attrs[i].name != key
    && (forall j :: 0 <= j < i ==> !Hits(attrs[j], key))
    && if Named(attrs, key) then Attr(key, Yield(attrs, i, key)) !in attrs else Yield(attrs, i, key) != ""
  }

  /** Structured reading and XML lookup agree exactly when no attribute shadows the one asked for. */
  lemma {:induction false} ReadIsLookupIff(attrs: seq<Attr>, key: string)
    requires WellFormed(attrs)
    ensures ReadFirst(attrs, key) == Lookup(attrs, key) <==> forall i :: !Shadows(attrs, i, key)
  {
    hide EndsWith;
    if attrs == [] {
    } else if Hits(attrs[0], key) {
      StopsFirst(attrs, key);
    } else {
      var rest := attrs[1..];
      ReadIsLookupIff(rest, key);
      OwnHits(attrs[0], key);
      forall i | 0 <= i < |rest| ensures Shadows(rest, i, key) <==> Shadows(attrs, i + 1, key) {
        ShadowsShift(attrs, i, key);
      }
      if i :| Shadows(attrs, i, key) { assert i != 0 && Shadows(rest, i - 1, key); }
    }
  }

  lemma OwnHits(a: Attr, key: string)
    ensures a.name == key ==> Hits(a, key)
  {
    assert a.name == key ==> a.name[0..] == key;
  }

  lemma StopsFirst(attrs: seq<Attr>, key: string)
    requires WellFormed(attrs) && attrs != [] && Hits(attrs[0], key)
    ensures ReadFirst(attrs, key) == Lookup(attrs, key) <==> forall i :: !Shadows(attrs, i, key)
  {
    var a, y := attrs[0], Yield(attrs, 0, key);
    OwnHits(a, key);
    assert a.name == key ==> EndsWith(a.name, key) by { assert a.name[0..] == a.name; }
    assert ReadFirst(attrs, key) == y;
    hide EndsWith;
    forall i | 0 < i ensures !Shadows(attrs, i, key) {}
    LookupIs(attrs, key, y);
    if a.name != key && Lookup(attrs, key) != y { assert Shadows(attrs, 0, key); }
  }

  lemma {:induction false} LookupIs(attrs: seq<Attr>, key: string, v: string)
    requires WellFormed(attrs)
    ensures Named(attrs, key) ==> (Lookup(attrs, key) == v <==> Attr(key, v) in attrs)
    ensures !Named(attrs, key) ==> Lookup(attrs, key) == ""
  {
    if attrs != [] {
      var rest := attrs[1..];
      LookupIs(rest, key, v);
      NamedFirst(attrs, key);
      assert attrs == [attrs[0]] + rest;
      if attrs[0].name == key {
        assert forall b :: b in rest ==> b.name != key;
      }
    }
  }

  lemma NamedFirst(x: seq<Attr>, name: string)
    requires x != []
    ensures Named(x, name) <==> x[0].name == name || Named(x[1..], name)
  {
    if i :| 0 <= i < |x| && x[i].name == name { assert i > 0 ==> x[1..][i - 1].name == name; }
    if i :| 0 <= i < |x[1..]| && x[1..][i].name == name { assert x[i + 1].name == name; }
  }

  lemma ShadowsShift(attrs: seq<Attr>, i: nat, key: string)
    requires i + 1 < |attrs| && !Hits(attrs[0], key)
    ensures Shadows(attrs[1..], i, key) <==> Shadows(attrs, i + 1, key)
  {
    OwnHits(attrs[0], key);
    NamedFirst(attrs, key);
    hide EndsWith, Named;
    var rest := attrs[1..];
    assert attrs == [attrs[0]] + rest;
    assert Yield(rest, i, key) == Yield(attrs, i + 1, key);
    if forall j :: 0 <= j < i ==> !Hits(rest[j], key) {
      forall j | 0 <= j < i + 1 ensures !Hits(attrs[j], key) { assert j > 0 ==> attrs[j] == rest[j - 1]; }
    }
    if forall j :: 0 <= j < i + 1 ==> !Hits(attrs[j], key) {
      forall j | 0 <= j < i ensures !Hits(rest[j], key) { assert rest[j] == attrs[j + 1]; }
    }
  }

  /** tagAttr returns the value of the attribute, exactly when no attribute shadows it. */
  lemma ReadTextIff(head: string, attrs: seq<Attr>, tail: string, key: string)
    requires HeadOk(head) && WellFormed(attrs) && TailOk(tail) && NameOk(key)
    ensures AttrText(Tag(head, attrs, tail), key) == Lookup(attrs, key) <==> forall i :: !Shadows(attrs, i, key)
  {
    ReadRefines(head, attrs, tail, key);
    ReadIsLookupIff(attrs, key);
  }

  // ---------- deletion as text ----------

  /** Rendering loses nothing: equal text means equal attributes. */
  lemma {:induction false} BodyInjective(x: seq<Attr>, y: seq<Attr>, tail: string)
    requires Shaped(x) && Shaped(y) && TailOk(tail) && Body(x, tail) == Body(y, tail)
    ensures x == y
  {
    FirstQuote(x, tail);
    FirstQuote(y, tail);
    if x != [] {
      var r, t := Body(x[1..], tail), Body(y[1..], tail);
      ChunkInjective(x[0], y[0], r, t);
      BodyInjective(x[1..], y[1..], tail);
      assert x == [x[0]] + x[1..] && y == [y[0]] + y[1..];
    }
  }

  lemma ChunkInjective(a: Attr, b: Attr, r: string, t: string)
    requires NameOk(a.name) && ValueOk(a.value) && NameOk(b.name) && ValueOk(b.value) && Chunk(a) + r == Chunk(b) + t
    ensures a == b && r == t
  {
    hide CharFrom, NameOk, ValueOk;
    NextQuote(a, r);
    NextQuote(b, t);
    CloseQuote(a.value, r);
    CloseQuote(b.value, t);
    NameOf(a, r);
    NameOf(b, t);
    ValueOf(a.value, r);
    ValueOf(b.value, t);
  }

  lemma NameOf(a: Attr, r: string)
    ensures |a.name| + 1 <= |Chunk(a) + r| && (Chunk(a) + r)[1..|a.name| + 1] == a.name
  {
  }

  lemma ValueOf(v: string, r: string)
    ensures var s := v + "'" + r; s[..|v|] == v && s[|v| + 1..] == r
  {
  }

  lemma {:induction false} DropKeeps(attrs: seq<Attr>, name: string)
    requires WellFormed(attrs)
    ensures WellFormed(DropFirst(attrs, name)) && |DropFirst(attrs, name)| <= |attrs|
    ensures forall i :: 0 <= i < |DropFirst(attrs, name)| ==> Named(attrs, DropFirst(attrs, name)[i].name)
  {
    if attrs != [] {
      var d, rest := DropFirst(attrs, name), attrs[1..];
      if attrs[0].name != name && !EndsWith(attrs[0].value, " " + name + "=") {
        DropKeeps(rest, name);
        forall i | 0 <= i < |d| ensures Named(attrs, d[i].name) && (i > 0 ==> d[i].name != d[0].name) {
          if i == 0 { assert attrs[0].name == d[0].name; }
          else {
            var j :| 0 <= j < |rest| && rest[j].name == d[i].name;
            assert attrs[j + 1].name == d[i].name;
          }
        }
        forall i, j | 0 <= i < j < |d| ensures d[i].name != d[j].name {
          if i > 0 { assert d[i] == d[1..][i - 1] && d[j] == d[1..][j - 1]; }
        }
      } else {
        var shift := |attrs| - |d|;
        forall i | 0 <= i < |d| ensures Named(attrs, d[i].name) {
          assert d[i].name == attrs[i].name || (i + shift < |attrs| && d[i].name == attrs[i + shift].name);
        }
      }
    }
  }

  /** The text edit deletes the attribute, exactly when no attribute swallows its neighbour. */
  lemma DropTextIff(head: string, attrs: seq<Attr>, tail: string, name: string)
    requires HeadOk(head) && WellFormed(attrs) && TailOk(tail) && NameOk(name)
    ensures DropText(Tag(head, attrs, tail), name) == Tag(head, Remove(attrs, name), tail)
            <==> forall k :: !Swallows(attrs, k, name)
  {
    DropRefines(head, attrs, tail, name);
    DropIsRemoveIff(attrs, name);
    DropKeeps(attrs, name);
    RemoveKeeps(attrs, name);
    var x, y := DropFirst(attrs, name), Remove(attrs, name);
    if Tag(head, x, tail) == Tag(head, y, tail) {
      assert Body(x, tail) == Tag(head, x, tail)[|head|..];
      assert Body(y, tail) == Tag(head, y, tail)[|head|..];
      BodyInjective(x, y, tail);
    }
  }

  lemma {:induction false} RemoveMembers(attrs: seq<Attr>, name: string)
    requires WellFormed(attrs)
    ensures forall a :: a in Remove(attrs, name) <==> a in attrs && a.name != name
  {
    if attrs != [] {
      var rest := attrs[1..];
      assert attrs == [attrs[0]] + rest;
      if attrs[0].name == name {
        assert forall a :: a in rest ==> a.name != name;
      } else {
        RemoveMembers(rest, name);
      }
    }
  }

  lemma {:induction false} RemoveKeeps(attrs: seq<Attr>, name: string)
    requires WellFormed(attrs)
    ensures WellFormed(Remove(attrs, name)) && !Named(Remove(attrs, name), name)
  {
    RemoveMembers(attrs, name);
    if attrs != [] && attrs[0].name != name {
      var rest, d := attrs[1..], Remove(attrs, name);
      RemoveKeeps(rest, name);
      RemoveMembers(rest, name);
      assert d[1..] == Remove(rest, name);
      forall i | 1 <= i < |d| ensures d[i].name != d[0].name && d[i] == d[1..][i - 1] {
        assert d[i] in Remove(rest, name);
      }
    }
  }
}
