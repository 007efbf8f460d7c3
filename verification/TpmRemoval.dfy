/** Removing every TPM device leaves none behind, on documents whose tags do not open inside one another. */
module TpmRemoval {
  import opened GoStrings
  import opened VncXml
  import opened TpmXml

  ghost predicate NoClose(w: string, from: nat) {
    forall j {:trigger At(w, j, CLOSE_TPM)} :: from <= j ==> !At(w, j, CLOSE_TPM)
  }

  /** What stands in front of a match closes all its tags. */
  lemma FrontClosed(w: string)
    requires WellNested(w) && FindTpm(w).Span?
    ensures AllClosed(w[..FindTpm(w).start])
  {
    hide IndexFrom, ElementEnd;
    TpmLiterals();
    var s, p := FindTpm(w).start, ElementFrom(w, 0);
    assert w[p + 0] == TPM[0];
    assert forall x :: s <= x < p ==> IsBlank(w[x]) && w[x] != '>';
    forall i | 0 <= i < s && w[i] == '<'
      ensures exists k :: i < k < s && w[..s][k] == '>'
    {
      var k :| i < k < p && w[k] == '>';
      assert w[..s][k] == '>';
    }
  }

  lemma BackNested(w: string, e: nat)
    requires WellNested(w) && e <= |w|
    ensures WellNested(w[e..])
  {
    var v := w[e..];
    forall i, j | 0 <= i < j < |v| && v[i] == '<' && v[j] == '<'
      ensures exists k :: i < k < j && v[k] == '>'
    {
      assert w[e + i] == '<' && w[e + j] == '<';
      var k :| e + i < k < e + j && w[k] == '>';
      assert v[k - e] == '>';
    }
  }

  lemma BackNoClose(w: string, from: nat, e: nat)
    requires NoClose(w, from) && from <= e <= |w|
    ensures NoClose(w[e..], 0)
  {
    hide At;
    assert w == w[..e] + w[e..];
    forall j | 0 <= j ensures !At(w[e..], j, CLOSE_TPM) {
      AtShift(w[..e], w[e..], CLOSE_TPM, j);
    }
  }

  /** Text in front of `r` that closes its tags brings no new `</tpm>`. */
  lemma JoinNoClose(w: string, s: nat, r: string, from: nat)
    requires s <= |w| && AllClosed(w[..s]) && NoClose(w, from) && NoClose(r, 0)
    ensures NoClose(w[..s] + r, from)
  {
    TpmLiterals();
    hide At, CLOSE_TPM;
    var u := w[..s];
    forall j | from <= j
      ensures !At(u + r, j, CLOSE_TPM)
    {
      if j + 6 <= s {
        AtFront(u, r, CLOSE_TPM, j);
        AtFront(u, w[s..], CLOSE_TPM, j);
        assert u + w[s..] == w;
      } else if j < s {
        NoStraddle(u, r, CLOSE_TPM, j);
      } else {
        AtShift(u, r, CLOSE_TPM, j - s);
      }
    }
  }

  lemma {:induction false} RemovalNoClose(w: string)
    requires WellNested(w) && NoClose(w, 0)
    ensures NoClose(RemoveTpm(w), 0)
  {
    hide FindTpm, NoClose, AllClosed, WellNested;
    if FindTpm(w).Span? {
      var Span(s, e) := FindTpm(w);
      BackNested(w, e);
      BackNoClose(w, 0, e);
      RemovalNoClose(w[e..]);
      FrontClosed(w);
      JoinNoClose(w, s, RemoveTpm(w[e..]), 0);
    }
  }

  /** Looking for the end of an element looks only forward. */
  lemma EndShift(u: string, r: string, k: nat)
    requires k + |TPM| <= |r|
    ensures ElementEnd(u + r, |u| + k) == -1 <==> ElementEnd(r, k) == -1
  {
    hide At, CLOSE_TPM;
    var w, q := u + r, k + |TPM|;
    assert forall x :: 0 <= x < |r| ==> w[|u| + x] == r[x];
    CharShift(u, r, '>', q);
    IndexShift(u, r, CLOSE_TPM, q);
  }

  /** An unfinished element in front of a match stays unfinished. */
  lemma StaysUnfinished(w: string, s: nat, r: string, j: nat)
    requires s <= |w| && AllClosed(w[..s]) && j + |TPM| <= s && At(w, j, TPM) && ElementEnd(w, j) == -1
    requires NoClose(w, j + |TPM|) ==> NoClose(r, 0)
    ensures ElementEnd(w[..s] + r, j) == -1
  {
    TpmLiterals();
    var u, v, q := w[..s], w[..s] + r, j + |TPM|;
    assert u[j] == w[j + 0] == '<';
    var k :| j < k < |u| && u[k] == '>';
    forall x | j <= x < q ensures w[x] != '>' { assert w[j + (x - j)] == TPM[x - j]; }
    assert forall x :: 0 <= x < s ==> v[x] == w[x];
    if !IsWord(w[q]) {
      SameCharFrom(w, v, s, q, k);
      assert NoClose(w, q);
      JoinNoClose(w, s, r, q);
    }
  }

  lemma SameCharFrom(w: string, v: string, s: nat, q: nat, k: nat)
    requires q <= k < s <= |w| && s <= |v| && w[k] == '>' && forall x :: 0 <= x < s ==> v[x] == w[x]
    ensures q <= CharFrom(v, '>', q) == CharFrom(w, '>', q) <= k
  {
  }

  ghost predicate Unfinished(w: string) {
    forall j {:trigger At(w, j, TPM)} :: 0 <= j && j + |TPM| <= |w| && At(w, j, TPM) ==> ElementEnd(w, j) == -1
  }

  lemma NoneFound(w: string)
    ensures FindTpm(w).NoSpan? <==> Unfinished(w)
  {
    hide IndexFrom, At, ElementEnd;
  }

  lemma JoinUnfinished(w: string, r: string)
    requires WellNested(w) && FindTpm(w).Span? && Unfinished(r)
    requires forall from: nat :: from <= FindTpm(w).end && NoClose(w, from) ==> NoClose(r, 0)
    ensures Unfinished(w[..FindTpm(w).start] + r)
  {
    hide IndexFrom, At, ElementEnd, NoClose, AllClosed, WellNested;
    TpmLiterals();
    FrontClosed(w);
    var s, p := FindTpm(w).start, ElementFrom(w, 0);
    var u := w[..s];
    assert u + w[s..] == w;
    forall j | 0 <= j && j + |TPM| <= |u + r| && At(u + r, j, TPM)
      ensures ElementEnd(u + r, j) == -1
    {
      if j + 4 <= s {
        AtFront(u, r, TPM, j);
        AtFront(u, w[s..], TPM, j);
        StaysUnfinished(w, s, r, j);
      } else if j < s {
        NoStraddle(u, r, TPM, j);
      } else {
        AtShift(u, r, TPM, j - s);
        EndShift(u, r, j - s);
      }
    }
  }

  /** After removing every match there is no match. */
  lemma {:induction false} RemovalLeavesNone(w: string)
    requires WellNested(w)
    ensures FindTpm(RemoveTpm(w)).NoSpan?
  {
    hide FindTpm, Unfinished, WellNested, NoClose;
    if FindTpm(w).Span? {
      var Span(s, e) := FindTpm(w);
      BackNested(w, e);
      RemovalLeavesNone(w[e..]);
      var r := RemoveTpm(w[e..]);
      NoneFound(r);
      forall from: nat | from <= e && NoClose(w, from)
        ensures NoClose(r, 0)
      {
        BackNoClose(w, from, e);
        RemovalNoClose(w[e..]);
      }
      JoinUnfinished(w, r);
      NoneFound(w[..s] + r);
    }
  }

  // ---------- where it fails ----------

  lemma FindWhole(w: string, p: nat, e: nat)
    requires p + 4 <= |w| && At(w, p, TPM) && ElementEnd(w, p) == e && (p == 0 || !IsBlank(w[p - 1]))
        && (e == |w| || !IsReSpace(w[e]))
    requires forall j {:trigger At(w, j, TPM)} :: 0 <= j < p ==> !At(w, j, TPM)
    ensures FindTpm(w) == Span(p, e)
  {
    hide ElementEnd, At;
    TpmLiterals();
    assert IndexFrom(w, TPM, 0) == p;
    assert ElementFrom(w, 0) == p;
  }

  lemma Bits()
    ensures TPM == ['<', 't', 'p', 'm']
  {
  }

  lemma RemoveOnce(w: string, s: nat, e: nat)
    requires FindTpm(w) == Span(s, e)
    ensures s <= e <= |w| && RemoveTpm(w) == w[..s] + RemoveTpm(w[e..])
  {
    hide FindTpm;
  }

  const REJOINING := ['<', 't', '<', 't', 'p', 'm', '/', '>', 'p', 'm', '/', '>']
  const BARE_DEVICE := ['<', 't', 'p', 'm', '/', '>']

  lemma Rejoining()
    ensures FindTpm(REJOINING) == Span(2, 8) && FindTpm(BARE_DEVICE) == Span(0, 6)
  {
    hide ElementEnd, FindTpm;
    EndHere(REJOINING, 2);
    EndHere(BARE_DEVICE, 0);
    NotHere(REJOINING, 0, 2);
    NotHere(REJOINING, 1, 0);
    hide At, TPM;
    assert |TPM| == 4 by { Bits(); }
    FindWhole(REJOINING, 2, 8);
    FindWhole(BARE_DEVICE, 0, 6);
  }

  lemma NotHere(w: string, j: nat, k: nat)
    requires k < 4 && j + k < |w| && w[j + k] != ['<', 't', 'p', 'm'][k]
    ensures !At(w, j, TPM)
  {
    Bits();
  }

  /** A `<` left open in front of a device can join what stands behind it into a new device. */
  lemma OpenTagsRejoin()
    ensures !WellNested(REJOINING) && RemoveTpm(REJOINING) == BARE_DEVICE && FindTpm(BARE_DEVICE).Span?
  {
    hide FindTpm, RemoveTpm;
    Rejoining();
    RemoveOnce(REJOINING, 2, 8);
    assert REJOINING[0] == '<' && REJOINING[2] == '<';
    var x := ['p', 'm', '/', '>'];
    assert REJOINING[8..] == x && REJOINING[..2] + x == BARE_DEVICE;
    Index0(x);
  }

  lemma EndHere(w: string, p: nat)
    requires p + 6 <= |w| && w[p..p + 6] == ['<', 't', 'p', 'm', '/', '>']
    ensures At(w, p, TPM) && ElementEnd(w, p) == p + 6
  {
    Bits();
    var v := w[p..p + 6];
    assert v[0] == w[p] && v[1] == w[p + 1] && v[2] == w[p + 2] && v[3] == w[p + 3] && v[4] == w[p + 4]
        && v[5] == w[p + 5];
    assert CharFrom(w, '>', p + 4) == p + 5;
  }

  lemma Index0(x: string)
    requires '<' !in x
    ensures RemoveTpm(x) == x
  {
    Bits();
    AbsentChar(x, TPM, 0);
  }
}
