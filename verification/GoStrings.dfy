/** The parts of Go's `strings` and `strconv` packages the modelled code leans on. */
module GoStrings {

  datatype Option<+T> = None | Some(value: T)

  // ---------- searching ----------

  /** `pat` occurs in `s` at offset `i`. */
  predicate At(s: string, i: int, pat: string) {
    && 0 <= i && i + |pat| <= |s|
    && forall k {:trigger pat[k]} :: 0 <= k < |pat| ==> s[i + k] == pat[k]
  }

  /** `from + strings.Index(s[from:], pat)`: the first occurrence at or after `from`, or -1. */
  function IndexFrom(s: string, pat: string, from: nat): (r: int)
    requires from <= |s|
    ensures r == -1 || (from <= r && At(s, r, pat))
    ensures forall j {:trigger At(s, j, pat)} :: from <= j && (r == -1 || j < r) ==> !At(s, j, pat)
    decreases |s| - from
  {
    if At(s, from, pat) then from
    else if from == |s| then -1
    else IndexFrom(s, pat, from + 1)
  }

  function Index(s: string, pat: string): (r: int)
    ensures -1 <= r <= |s| - |pat| || r == -1
    ensures r != -1 ==> At(s, r, pat)
    ensures forall j {:trigger At(s, j, pat)} :: 0 <= j && (r == -1 || j < r) ==> !At(s, j, pat)
  {
    IndexFrom(s, pat, 0)
  }

  /** `strings.LastIndex`. */
  function LastIndexBelow(s: string, pat: string, bound: nat): (r: int)
    ensures r == -1 || (0 <= r < bound && At(s, r, pat))
    ensures forall j {:trigger At(s, j, pat)} :: r < j < bound ==> !At(s, j, pat)
  {
    if bound == 0 then -1
    else if At(s, bound - 1, pat) then bound - 1
    else LastIndexBelow(s, pat, bound - 1)
  }

  function LastIndex(s: string, pat: string): (r: int)
    ensures r == -1 || At(s, r, pat)
    ensures forall j {:trigger At(s, j, pat)} :: r < j ==> !At(s, j, pat)
  {
    LastIndexBelow(s, pat, |s| + 1)
  }

  /** `from + strings.IndexByte(s[from:], c)`, or -1. */
  function CharFrom(s: string, c: char, from: nat): (r: int)
    requires from <= |s|
    ensures r == -1 || (from <= r < |s| && s[r] == c)
    ensures forall j :: from <= j < |s| && (r == -1 || j < r) ==> s[j] != c
    decreases |s| - from
  {
    if from == |s| then -1
    else if s[from] == c then from
    else CharFrom(s, c, from + 1)
  }

  predicate Contains(s: string, pat: string) {
    Index(s, pat) >= 0
  }

  predicate EndsWith(s: string, suffix: string) {
    |suffix| <= |s| && s[|s| - |suffix|..] == suffix
  }

  predicate StartsWith(s: string, prefix: string) {
    |prefix| <= |s| && s[..|prefix|] == prefix
  }

  /** An occurrence with no occurrence before it is what Index returns. */
  lemma IndexIs(s: string, pat: string, i: nat)
    requires At(s, i, pat)
    requires forall j {:trigger At(s, j, pat)} :: 0 <= j < i ==> !At(s, j, pat)
    ensures Index(s, pat) == i
  {
  }

  /** If no occurrence starts inside `u`, searching `u + r` is searching `r`. */
  lemma IndexSkip(u: string, r: string, pat: string)
    requires forall j {:trigger At(u + r, j, pat)} :: 0 <= j < |u| ==> !At(u + r, j, pat)
    ensures Index(u + r, pat) == (if Index(r, pat) < 0 then -1 else |u| + Index(r, pat))
  {
    forall j | |u| <= j
      ensures At(u + r, j, pat) <==> At(r, j - |u|, pat)
    {
      AtShift(u, r, pat, j - |u|);
    }
    var i := Index(r, pat);
    if i >= 0 {
      AtShift(u, r, pat, i);
      assert At(u + r, |u| + i, pat);
      forall j | 0 <= j < |u| + i
        ensures !At(u + r, j, pat)
      {
        if j >= |u| { assert !At(r, j - |u|, pat); }
      }
      IndexIs(u + r, pat, |u| + i);
    }
  }

  lemma AtShift(u: string, r: string, pat: string, i: int)
    requires 0 <= i
    ensures At(u + r, |u| + i, pat) <==> At(r, i, pat)
  {
    var s := u + r;
    if At(r, i, pat) {
      forall k | 0 <= k < |pat| ensures s[|u| + i + k] == pat[k] {
        assert s[|u| + (i + k)] == r[i + k];
      }
    }
    if At(s, |u| + i, pat) {
      forall k | 0 <= k < |pat| ensures r[i + k] == pat[k] {
        assert s[|u| + i + k] == r[i + k];
      }
    }
  }

  lemma CharShift(u: string, r: string, c: char, from: nat)
    requires from <= |r|
    ensures CharFrom(u + r, c, |u| + from) == (if CharFrom(r, c, from) < 0 then -1 else |u| + CharFrom(r, c, from))
  {
    var w := u + r;
    assert forall x :: 0 <= x < |r| ==> w[|u| + x] == r[x];
    var i, j := CharFrom(r, c, from), CharFrom(w, c, |u| + from);
    if j >= 0 { assert r[j - |u|] == c; }
    if i >= 0 { assert w[|u| + i] == c; }
  }

  lemma IndexShift(u: string, r: string, pat: string, from: nat)
    requires from <= |r|
    ensures IndexFrom(u + r, pat, |u| + from) ==
        (if IndexFrom(r, pat, from) < 0 then -1 else |u| + IndexFrom(r, pat, from))
  {
    hide At;
    var w := u + r;
    var i, j := IndexFrom(r, pat, from), IndexFrom(w, pat, |u| + from);
    if i >= 0 { AtShift(u, r, pat, i); }
    if j >= 0 { AtShift(u, r, pat, j - |u|); }
  }

  lemma CharIs(s: string, c: char, i: nat)
    requires i < |s| && s[i] == c
    requires forall j :: 0 <= j < i ==> s[j] != c
    ensures CharFrom(s, c, 0) == i
  {
  }

  lemma AbsentChar(s: string, pat: string, k: nat)
    requires k < |pat| && pat[k] !in s
    ensures Index(s, pat) == -1
  {
    var c := pat[k];
  }

  // ---------- trimming ----------

  /** `unicode.IsSpace`. */
  predicate IsSpace(c: char) {
    || c == ' ' || '\t' <= c <= '\r' || c == '\U{0085}' || c == '\U{00A0}' || c == '\U{1680}'
    || '\U{2000}' <= c <= '\U{200A}' || c == '\U{2028}' || c == '\U{2029}' || c == '\U{202F}'
    || c == '\U{205F}' || c == '\U{3000}'
  }

  /** A space or a tab. */
  predicate IsBlank(c: char) { c == ' ' || c == '\t' }

  function TrimLeft(s: string): (t: string)
    ensures t == [] || !IsSpace(t[0])
    ensures |t| <= |s| && s[|s| - |t|..] == t && forall i :: 0 <= i < |s| - |t| ==> IsSpace(s[i])
  {
    if s != [] && IsSpace(s[0]) then TrimLeft(s[1..]) else s
  }

  function TrimRight(s: string): (t: string)
    ensures t == [] || !IsSpace(t[|t| - 1])
    ensures |t| <= |s| && s[..|t|] == t && forall i :: |t| <= i < |s| ==> IsSpace(s[i])
  {
    if s != [] && IsSpace(s[|s| - 1]) then TrimRight(s[..|s| - 1]) else s
  }

  /** `strings.TrimSpace`. */
  function TrimSpace(s: string): string {
    TrimRight(TrimLeft(s))
  }

  // ---------- decimal numbers ----------

  const MIN_INT := -0x8000_0000_0000_0000
  const MAX_INT := 0x7FFF_FFFF_FFFF_FFFF

  /** Go's 64-bit `int`. */
  type Int = x: int | MIN_INT <= x <= MAX_INT

  predicate IsDigit(c: char) { '0' <= c <= '9' }

  predicate Digits(s: string) { forall i :: 0 <= i < |s| ==> IsDigit(s[i]) }

  function Itoa(n: nat): string {
    if n < 10 then ['0' + n as char] else Itoa(n / 10) + ['0' + (n % 10) as char]
  }

  function Decimal(s: string): nat
    requires Digits(s)
  {
    if s == [] then 0 else Decimal(s[..|s| - 1]) * 10 + (s[|s| - 1] - '0') as nat
  }

  /** `strconv.Atoi`: an optional sign, digits, and the 64-bit range check. */
  function Atoi(s: string): Option<Int> {
    var signed := s != [] && (s[0] == '-' || s[0] == '+');
    var body := if signed then s[1..] else s;
    if body == [] || !Digits(body) then None else
    var n: int := if signed && s[0] == '-' then 0 - Decimal(body) else Decimal(body);
    if MIN_INT <= n <= MAX_INT then Some(n) else None
  }

  lemma {:induction false} ItoaDigits(n: nat)
    ensures Itoa(n) != [] && Digits(Itoa(n)) && Decimal(Itoa(n)) == n
  {
    if n >= 10 {
      ItoaDigits(n / 10);
      var s := Itoa(n);
      assert s[..|s| - 1] == Itoa(n / 10);
    }
  }

  /** Printing then parsing a number gives it back. */
  lemma AtoiItoa(n: nat)
    requires n <= MAX_INT
    ensures Atoi(Itoa(n)) == Some(n)
  {
    ItoaDigits(n);
    assert IsDigit(Itoa(n)[0]);
  }

  /** A sign is read, and a number that does not fit is none. */
  lemma AtoiSigned(n: nat)
    ensures var r := Atoi("-" + Itoa(n)); if n <= MAX_INT + 1 then r.Some? && r.value + n == 0 else r.None?
    ensures var r := Atoi("+" + Itoa(n)); r == Atoi(Itoa(n)) && if n <= MAX_INT then r == Some(n) else r.None?
  {
    ItoaDigits(n);
    hide Itoa;
    SignedDigits(Itoa(n), n);
    assert "-" == ['-'] && "+" == ['+'];
  }

  lemma SignedDigits(s: string, n: nat)
    requires s != [] && Digits(s) && Decimal(s) == n
    ensures var r := Atoi(['-'] + s); if n <= MAX_INT + 1 then r.Some? && r.value + n == 0 else r.None?
    ensures var r := Atoi(['+'] + s); r == Atoi(s) && if n <= MAX_INT then r == Some(n) else r.None?
  {
    assert (['-'] + s)[1..] == s && (['+'] + s)[1..] == s && IsDigit(s[0]);
    hide Digits, Decimal;
  }
}
