/** PCI addresses: internal/pci/pci.go writes them into a <hostdev>, internal/virsh/virsh.go compares them. */
module PciAddress {
  import opened GoStrings

  // ---------- strings.Cut, strings.ToLower, strconv.ParseUint(s, 16, 64) ----------

  datatype CutResult = CutResult(before: string, after: string, found: bool)

  function Cut(s: string, sep: char): CutResult {
    var i := CharFrom(s, sep, 0);
    if i < 0 then CutResult(s, "", false) else CutResult(s[..i], s[i + 1..], true)
  }

  function LowerChar(c: char): char {
    if 'A' <= c <= 'Z' then 'a' + (c - 'A') else c
  }

  /** strings.ToLower on ASCII. */
  function ToLower(s: string): (t: string)
    ensures |t| == |s|
  {
    seq(|s|, i requires 0 <= i < |s| => LowerChar(s[i]))
  }

  predicate HexChar(c: char) {
    '0' <= c <= '9' || 'a' <= c <= 'f' || 'A' <= c <= 'F'
  }

  function Digit(c: char): nat
    requires HexChar(c)
  {
    if c <= '9' then (c - '0') as nat else if c <= 'F' then 10 + (c - 'A') as nat else 10 + (c - 'a') as nat
  }

  /** isHex. */
  predicate IsHex(s: string) {
    s != "" && forall i :: 0 <= i < |s| ==> HexChar(s[i])
  }

  function Hex(s: string): nat
    requires forall i :: 0 <= i < |s| ==> HexChar(s[i])
  {
    if s == "" then 0 else 16 * Hex(s[..|s| - 1]) + Digit(s[|s| - 1])
  }

  const MAX_UINT64: nat := 0xFFFF_FFFF_FFFF_FFFF

  /** The value ParseUint returns: 0 on a syntax error, the maximum when out of range. */
  function ParseUint(s: string): nat {
    if !IsHex(s) then 0 else if Hex(s) > MAX_UINT64 then MAX_UINT64 else Hex(s)
  }

  /** parseHexU: trims, lowers, tolerates an `0x` prefix. */
  function ParseHexU(s: string): nat {
    var t := ToLower(TrimSpace(s));
    ParseUint(if StartsWith(t, "0x") then t[2..] else t)
  }

  // ---------- addresses ----------

  datatype Quad<T> = Quad(domain: T, bus: T, slot: T, fn: T)

  /** The three cuts shared by ValidAddress, HostdevXML and parsePCIAddr. */
  function Fields(s: string): Option<Quad<string>> {
    var c1 := Cut(s, ':');
    var c2 := Cut(c1.after, ':');
    var c3 := Cut(c2.after, '.');
    if c1.found && c2.found && c3.found then Some(Quad(c1.before, c2.before, c3.before, c3.after)) else None
  }

  /** ValidAddress: `domain:bus:slot.function`. */
  predicate ValidAddress(s: string) {
    var c1 := Cut(s, ':');
    c1.found && |c1.before| == 4 && IsHex(c1.before) &&
    var c2 := Cut(c1.after, ':');
    c2.found && |c2.before| == 2 && IsHex(c2.before) &&
    var c3 := Cut(c2.after, '.');
    c3.found && |c3.before| == 2 && IsHex(c3.before) && |c3.after| == 1 && '0' <= c3.after[0] <= '7'
  }

  /** parsePCIAddr. */
  function ParsePCIAddr(addr: string): Option<Quad<nat>> {
    match Fields(addr)
    case None => None
    case Some(q) => Some(Quad(ParseHexU(q.domain), ParseHexU(q.bus), ParseHexU(q.slot), ParseHexU(q.fn)))
  }

  /** The four attributes of the <address> HostdevXML emits. */
  function HostdevAttrs(addr: string): Option<Quad<string>> {
    if !ValidAddress(addr) then None else
    var q := Fields(addr).value;
    Some(Quad("0x" + ToLower(q.domain), "0x" + ToLower(q.bus), "0x" + ToLower(q.slot), "0x" + ToLower(q.fn)))
  }

  /** hasPCIHostdev on the <address> attributes of a domain's PCI hostdevs. */
  predicate HasHostdev(hostdevs: seq<Quad<string>>, addr: string) {
    match ParsePCIAddr(addr)
    case None => false
    case Some(w) =>
      exists i :: 0 <= i < |hostdevs| &&
        Quad(ParseHexU(hostdevs[i].domain), ParseHexU(hostdevs[i].bus), ParseHexU(hostdevs[i].slot),
            ParseHexU(hostdevs[i].fn)) == w
  }

  // ---------- hexadecimal ----------

  predicate AllHex(s: string) { forall i :: 0 <= i < |s| ==> HexChar(s[i]) }

  lemma LowerHex(c: char)
    requires HexChar(c)
    ensures HexChar(LowerChar(c)) && Digit(LowerChar(c)) == Digit(c) && LowerChar(LowerChar(c)) == LowerChar(c)
    ensures LowerChar(c) != 'x' && !IsSpace(c) && !IsSpace(LowerChar(c))
  {
  }

  lemma {:induction false} HexLower(s: string)
    requires AllHex(s)
    ensures AllHex(ToLower(s)) && Hex(ToLower(s)) == Hex(s)
  {
    forall i | 0 <= i < |s| ensures HexChar(ToLower(s)[i]) { LowerHex(s[i]); }
    if s != "" {
      HexLower(s[..|s| - 1]);
      LowerHex(s[|s| - 1]);
      assert ToLower(s)[..|s| - 1] == ToLower(s[..|s| - 1]);
    }
  }

  function Pow16(n: nat): nat { if n == 0 then 1 else 16 * Pow16(n - 1) }

  lemma {:induction false} HexBound(s: string)
    requires AllHex(s)
    ensures Hex(s) < Pow16(|s|)
  {
    if s != "" { HexBound(s[..|s| - 1]); }
  }

  /** Equally long hexadecimal texts have the same value exactly when they are equal ignoring case. */
  lemma {:induction false} HexInjective(s: string, t: string)
    requires AllHex(s) && AllHex(t) && |s| == |t|
    ensures Hex(s) == Hex(t) <==> ToLower(s) == ToLower(t)
  {
    if s != "" {
      var a, b, c, d := s[..|s| - 1], t[..|t| - 1], s[|s| - 1], t[|t| - 1];
      HexInjective(a, b);
      DigitInjective(c, d);
      LowerLast(s);
      LowerLast(t);
      hide ToLower, LowerChar, HexChar;
      LastSame(ToLower(a), LowerChar(c), ToLower(b), LowerChar(d));
    } else {
      assert t == s;
    }
  }

  lemma LowerLast(s: string)
    requires s != ""
    ensures ToLower(s) == ToLower(s[..|s| - 1]) + [LowerChar(s[|s| - 1])]
  {
    hide LowerChar;
  }

  lemma LastSame(a: string, c: char, b: string, d: char)
    ensures a + [c] == b + [d] <==> a == b && c == d
  {
    if a + [c] == b + [d] {
      assert |a| == |b|;
      assert a == (a + [c])[..|a|] && b == (b + [d])[..|b|];
      assert (a + [c])[|a|] == c && (b + [d])[|b|] == d;
    }
  }

  lemma DigitInjective(c: char, d: char)
    requires HexChar(c) && HexChar(d)
    ensures (Digit(c) == Digit(d) <==> LowerChar(c) == LowerChar(d)) && Digit(c) < 16 && Digit(d) < 16
  {
  }

  lemma Pow16Limit(n: nat)
    requires n <= 4
    ensures Pow16(n) <= 65536
  {
    assert Pow16(1) == 16 && Pow16(2) == 256 && Pow16(3) == 4096 && Pow16(4) == 65536;
  }

  lemma ParseUintIs(s: string)
    requires IsHex(s) && |s| <= 4
    ensures ParseUint(ToLower(s)) == Hex(s)
  {
    hide Hex, Pow16, ToLower;
    HexLower(s);
    HexBound(s);
    Pow16Limit(|s|);
  }

  lemma Unprefixed(s: string)
    requires IsHex(s)
    ensures !StartsWith(ToLower(s), "0x")
  {
    var low := ToLower(s);
    if |s| > 1 {
      LowerHex(s[1]);
      assert low[..2][1] == low[1] == LowerChar(s[1]);
      assert "0x"[1] == 'x';
    }
  }

  lemma ParseBare(s: string)
    requires IsHex(s) && |s| <= 4
    ensures ParseHexU(s) == Hex(s)
  {
    hide ParseUint, ToLower, StartsWith;
    LowerHex(s[0]);
    LowerHex(s[|s| - 1]);
    NoTrim(s);
    Unprefixed(s);
    ParseUintIs(s);
  }

  lemma LowerParts(x: string, y: string)
    ensures ToLower(x + y) == ToLower(x) + ToLower(y)
  {
  }

  lemma PrefixedLower(s: string)
    requires IsHex(s)
    ensures ToLower("0x" + ToLower(s)) == "0x" + ToLower(s)
  {
    hide ToLower;
    LowerParts("0x", ToLower(s));
    LowerTwice(s);
    assert ToLower("0x") == "0x" by { LowerPrefix(); }
  }

  lemma LowerPrefix()
    ensures ToLower("0x") == "0x"
  {
  }

  lemma Prefixed(p: string, low: string)
    requires p != "" && low != ""
    ensures var t := p + low; t[0] == p[0] && t[|t| - 1] == low[|low| - 1] && StartsWith(t, p) && t[|p|..] == low
  {
  }

  lemma PrefixedTrim(s: string)
    requires IsHex(s)
    ensures var t := "0x" + ToLower(s); t[2..] == ToLower(s) && StartsWith(t, "0x") && TrimSpace(t) == t
  {
    LowerHex(s[|s| - 1]);
    LowerAt(s, |s| - 1);
    Zero();
    hide TrimSpace, ToLower, IsSpace, IsHex, HexChar, StartsWith, LowerChar;
    Prefixed("0x", ToLower(s));
    NoTrim("0x" + ToLower(s));
  }

  lemma LowerAt(s: string, i: nat)
    requires i < |s|
    ensures ToLower(s)[i] == LowerChar(s[i])
  {
  }

  lemma Zero()
    ensures !IsSpace('0') && "0x"[0] == '0' && |"0x"| == 2
  {
  }

  /** What parseHexU makes of a hexadecimal text of an address, bare or as written to the XML. */
  lemma ParseHexIs(s: string)
    requires IsHex(s) && |s| <= 4
    ensures ParseHexU(s) == Hex(s) && ParseHexU("0x" + ToLower(s)) == Hex(s)
  {
    ParseBare(s);
    hide ParseUint, ToLower, StartsWith, TrimSpace;
    PrefixedLower(s);
    PrefixedTrim(s);
    ParseUintIs(s);
  }

  lemma LowerTwice(s: string)
    requires AllHex(s)
    ensures ToLower(ToLower(s)) == ToLower(s)
  {
    forall i | 0 <= i < |s| ensures ToLower(ToLower(s))[i] == ToLower(s)[i] { LowerHex(s[i]); }
  }

  lemma NoTrim(t: string)
    requires t != "" && !IsSpace(t[0]) && !IsSpace(t[|t| - 1])
    ensures TrimSpace(t) == t
  {
  }

  // ---------- round trip ----------

  function Values(q: Quad<string>): Quad<nat>
    requires AllHex(q.domain) && AllHex(q.bus) && AllHex(q.slot) && AllHex(q.fn)
  {
    Quad(Hex(q.domain), Hex(q.bus), Hex(q.slot), Hex(q.fn))
  }

  lemma ValidFields(a: string)
    requires ValidAddress(a)
    ensures Fields(a).Some?
    ensures var q := Fields(a).value;
      && IsHex(q.domain) && IsHex(q.bus) && IsHex(q.slot) && IsHex(q.fn)
      && |q.domain| == 4 && |q.bus| == 2 && |q.slot| == 2 && |q.fn| == 1 && '0' <= q.fn[0] <= '7'
      && a == q.domain + ":" + q.bus + ":" + q.slot + "." + q.fn
  {
    hide IsHex;
    var c1 := Cut(a, ':');
    var c2 := Cut(c1.after, ':');
    var c3 := Cut(c2.after, '.');
    CutParts(a, ':');
    CutParts(c1.after, ':');
    CutParts(c2.after, '.');
    OneDigit(c3.after);
  }

  /** A valid address is four, two and two hexadecimal digits and an octal one, with `:`, `:` and `.` between. */
  lemma ValidAddressIff(a: string)
    ensures ValidAddress(a) <==>
            && |a| == 12 && a[4] == ':' && a[7] == ':' && a[10] == '.' && '0' <= a[11] <= '7'
            && forall i :: 0 <= i < 10 && i != 4 && i != 7 ==>
                 '0' <= a[i] <= '9' || 'a' <= a[i] <= 'f' || 'A' <= a[i] <= 'F'
  {
    if ValidAddress(a) {
      ValidFields(a);
      hide ValidAddress, Fields;
      LaidOut(a, Fields(a).value);
    }
    if |a| == 12 && a[4] == ':' && a[7] == ':' && a[10] == '.' && '0' <= a[11] <= '7'
       && forall i :: 0 <= i < 10 && i != 4 && i != 7 ==> HexChar(a[i])
    {
      hide ValidAddress, Fields;
      HexAt(a);
      PlainAddress(a, a[..4], a[5..7], a[8..10], a[11..]);
    }
  }

  lemma HexAt(a: string)
    requires |a| == 12 && a[4] == ':' && a[7] == ':' && a[10] == '.' && '0' <= a[11] <= '7'
    requires forall i :: 0 <= i < 10 && i != 4 && i != 7 ==> HexChar(a[i])
    ensures IsHex(a[..4]) && IsHex(a[5..7]) && IsHex(a[8..10]) && |a[11..]| == 1 && a[11..][0] == a[11]
    ensures a == a[..4] + ":" + a[5..7] + ":" + a[8..10] + "." + a[11..]
  {
    hide HexChar;
    assert a[4..5] == ":" && a[7..8] == ":" && a[10..11] == ".";
  }

  lemma LaidOut(a: string, q: Quad<string>)
    requires IsHex(q.domain) && IsHex(q.bus) && IsHex(q.slot) && |q.domain| == 4 && |q.bus| == 2 && |q.slot| == 2
    requires |q.fn| == 1 && '0' <= q.fn[0] <= '7' && a == q.domain + ":" + q.bus + ":" + q.slot + "." + q.fn
    ensures |a| == 12 && a[4] == ':' && a[7] == ':' && a[10] == '.' && a[11] == q.fn[0]
    ensures forall i :: 0 <= i < 10 && i != 4 && i != 7 ==> HexChar(a[i])
    ensures a[..4] == q.domain && a[5..7] == q.bus && a[8..10] == q.slot && a[11..] == q.fn
  {
    hide HexChar;
    forall i | 0 <= i < 10 && i != 4 && i != 7 ensures HexChar(a[i]) {
      if i < 4 { assert a[i] == q.domain[i]; }
      else if i < 7 { assert a[i] == q.bus[i - 5]; }
      else { assert a[i] == q.slot[i - 8]; }
    }
  }

  /** Four parts of the right form make a valid address. */
  lemma PlainAddress(a: string, dom: string, bus: string, slot: string, fn: string)
    requires IsHex(dom) && IsHex(bus) && IsHex(slot) && |dom| == 4 && |bus| == 2 && |slot| == 2
    requires |fn| == 1 && '0' <= fn[0] <= '7' && a == dom + ":" + bus + ":" + slot + "." + fn
    ensures ValidAddress(a)
  {
    HexPlain(dom); HexPlain(bus); HexPlain(slot);
    hide Cut, IsHex, ValidAddress;
    var s2 := slot + "." + fn;
    var s1 := bus + ":" + s2;
    assert a == dom + ":" + s1;
    CutIs(a, ':', dom, s1);
    CutIs(s1, ':', bus, s2);
    CutIs(s2, '.', slot, fn);
    ValidParts(a, dom, s1, bus, s2, slot, fn);
  }

  lemma HexPlain(s: string)
    requires IsHex(s)
    ensures ':' !in s && '.' !in s
  {
  }

  /** What is written for a valid address and the numbers read from it are those of its four parts. */
  lemma AddressIs(a: string)
    requires ValidAddress(a)
    ensures |a| == 12 && AllHex(a[..4]) && AllHex(a[5..7]) && AllHex(a[8..10]) && AllHex(a[11..])
    ensures HostdevAttrs(a) == Some(Quad("0x" + ToLower(a[..4]), "0x" + ToLower(a[5..7]), "0x" + ToLower(a[8..10]),
                                         "0x" + ToLower(a[11..])))
    ensures ParsePCIAddr(a) == Some(Quad(Hex(a[..4]), Hex(a[5..7]), Hex(a[8..10]), Hex(a[11..])))
  {
    ValidFields(a);
    hide ToLower, Hex, ParsePCIAddr, HostdevAttrs, ValidAddress, Fields;
    var q := Fields(a).value;
    LaidOut(a, q);
    Attrs(a);
    Parsed(a, q);
  }

  /** A number in hexadecimal digits, in a field of the given width. */
  function HexText(n: nat, width: nat): (s: string)
    ensures |s| == width
  {
    if width == 0 then "" else HexText(n / 16, width - 1) + ["0123456789abcdef"[n % 16]]
  }

  lemma HexDigit(d: nat)
    requires d < 16
    ensures HexChar("0123456789abcdef"[d]) && Digit("0123456789abcdef"[d]) == d
  {
    assert "0123456789abcdef"
        == ['0', '1', '2', '3', '4', '5', '6', '7', '8', '9', 'a', 'b', 'c', 'd', 'e', 'f'];
  }

  lemma {:induction false} HexPrints(n: nat, width: nat)
    requires n < Pow16(width)
    ensures AllHex(HexText(n, width)) && Hex(HexText(n, width)) == n
  {
    if width > 0 {
      hide Digit, HexChar;
      HexPrints(n / 16, width - 1);
      HexDigit(n % 16);
      var s := HexText(n, width);
      assert s[..width - 1] == HexText(n / 16, width - 1) && s[width - 1] == "0123456789abcdef"[n % 16];
    }
  }

  /** An attribute written with any number of leading zeros, with or without the prefix, reads as its number. */
  lemma WidthsRead(n: nat, width: nat)
    requires n < Pow16(width) && 1 <= width <= 4
    ensures ParseHexU(HexText(n, width)) == n && ParseHexU("0x" + HexText(n, width)) == n
  {
    HexPrints(n, width);
    LowerText(n, width);
    hide ParseHexU, ToLower, Hex, HexText, Pow16;
    ParseHexIs(HexText(n, width));
  }

  lemma {:induction false} LowerText(n: nat, width: nat)
    ensures ToLower(HexText(n, width)) == HexText(n, width)
  {
    if width > 0 {
      LowerText(n / 16, width - 1);
      LowerDigit(n % 16);
      var s := HexText(n, width);
      hide LowerChar, ToLower;
      LowerLast(s);
      assert s[..width - 1] == HexText(n / 16, width - 1);
    } else {
      assert ToLower("") == "";
    }
  }

  lemma LowerDigit(d: nat)
    requires d < 16
    ensures LowerChar("0123456789abcdef"[d]) == "0123456789abcdef"[d]
  {
    assert "0123456789abcdef"
        == ['0', '1', '2', '3', '4', '5', '6', '7', '8', '9', 'a', 'b', 'c', 'd', 'e', 'f'];
  }

  /** Validity does not depend on case. */
  lemma LowerValid(a: string, b: string)
    requires ValidAddress(a) && ToLower(a) == ToLower(b)
    ensures ValidAddress(b)
  {
    ValidAddressIff(a);
    ValidAddressIff(b);
    hide ValidAddress;
    forall i | 0 <= i < |a| ensures LowerChar(a[i]) == LowerChar(b[i]) {
      assert ToLower(a)[i] == ToLower(b)[i];
    }
    hide ToLower;
  }

  lemma ValidParts(s: string, dom: string, s1: string, bus: string, s2: string, slot: string, fn: string)
    requires Cut(s, ':') == CutResult(dom, s1, true) && Cut(s1, ':') == CutResult(bus, s2, true)
    requires Cut(s2, '.') == CutResult(slot, fn, true) && IsHex(dom) && IsHex(bus) && IsHex(slot)
    requires |dom| == 4 && |bus| == 2 && |slot| == 2 && |fn| == 1 && '0' <= fn[0] <= '7'
    ensures ValidAddress(s)
  {
    hide Cut, IsHex;
  }

  lemma CutIs(s: string, sep: char, before: string, after: string)
    requires s == before + [sep] + after && sep !in before
    ensures Cut(s, sep) == CutResult(before, after, true)
  {
    CharIs(s, sep, |before|);
    assert s[..|before|] == before && s[|before| + 1..] == after;
  }

  lemma CutParts(s: string, sep: char)
    requires Cut(s, sep).found
    ensures s == Cut(s, sep).before + [sep] + Cut(s, sep).after
  {
  }

  lemma OneDigit(f: string)
    requires |f| == 1 && '0' <= f[0] <= '7'
    ensures IsHex(f)
  {
  }

  /** For every valid address, the reader's numbers are the numbers of the four hexadecimal attributes
      that HostdevXML emits, so a repaired pin reads back as present. */
  lemma HostdevReadsBack(a: string, others: seq<Quad<string>>)
    requires ValidAddress(a)
    ensures HostdevAttrs(a).Some? && var x := HostdevAttrs(a).value;
      && ParsePCIAddr(a) == Some(Quad(ParseHexU(x.domain), ParseHexU(x.bus), ParseHexU(x.slot), ParseHexU(x.fn)))
      && HasHostdev(others + [x], a)
  {
    ValidFields(a);
    Attrs(a);
    var q, x := Fields(a).value, HostdevAttrs(a).value;
    hide ValidAddress, Fields, ParseHexU, ToLower, Hex, IsHex, HostdevAttrs, HasHostdev;
    ParseHexIs(q.domain); ParseHexIs(q.bus); ParseHexIs(q.slot); ParseHexIs(q.fn);
    Parsed(a, q);
    Listed(others, x, a);
  }

  lemma Parsed(a: string, q: Quad<string>)
    requires Fields(a) == Some(q) && IsHex(q.domain) && IsHex(q.bus) && IsHex(q.slot) && IsHex(q.fn)
    requires |q.domain| <= 4 && |q.bus| <= 4 && |q.slot| <= 4 && |q.fn| <= 4
    ensures ParsePCIAddr(a) == Some(Values(q))
  {
    hide Fields, ParseHexU, ToLower, Hex;
    ParseHexIs(q.domain); ParseHexIs(q.bus); ParseHexIs(q.slot); ParseHexIs(q.fn);
  }

  lemma Attrs(a: string)
    requires ValidAddress(a) && Fields(a).Some?
    ensures var q := Fields(a).value;
      HostdevAttrs(a) == Some(Quad("0x" + ToLower(q.domain), "0x" + ToLower(q.bus), "0x" + ToLower(q.slot),
          "0x" + ToLower(q.fn)))
  {
    hide ValidAddress, Fields, ToLower;
  }

  lemma Listed(others: seq<Quad<string>>, x: Quad<string>, a: string)
    requires ParsePCIAddr(a) == Some(Quad(ParseHexU(x.domain), ParseHexU(x.bus), ParseHexU(x.slot), ParseHexU(x.fn)))
    ensures HasHostdev(others + [x], a)
  {
    hide ParsePCIAddr, ParseHexU;
    assert (others + [x])[|others|] == x;
  }

  lemma LowerAddress(q: Quad<string>)
    ensures ToLower(q.domain + ":" + q.bus + ":" + q.slot + "." + q.fn)
            == ToLower(q.domain) + ":" + ToLower(q.bus) + ":" + ToLower(q.slot) + "." + ToLower(q.fn)
  {
    hide ToLower;
    LowerParts(q.domain + ":" + q.bus + ":" + q.slot + ".", q.fn);
    LowerParts(q.domain + ":" + q.bus + ":" + q.slot, ".");
    LowerParts(q.domain + ":" + q.bus + ":", q.slot);
    LowerParts(q.domain + ":" + q.bus, ":");
    LowerParts(q.domain + ":", q.bus);
    LowerParts(q.domain, ":");
    Separators();
  }

  lemma Separators()
    ensures ToLower(":") == ":" && ToLower(".") == "."
  {
  }

  /** Two valid addresses name the same device exactly when they are equal ignoring case. */
  lemma SameDeviceIff(a: string, b: string)
    requires ValidAddress(a) && ValidAddress(b)
    ensures ParsePCIAddr(a) == ParsePCIAddr(b) <==> ToLower(a) == ToLower(b)
  {
    ValidFields(a);
    ValidFields(b);
    var p, q := Fields(a).value, Fields(b).value;
    Parsed(a, p);
    Parsed(b, q);
    hide ValidAddress, Fields, ParsePCIAddr, HasHostdev, HostdevAttrs, ToLower;
    HexInjective(p.domain, q.domain); HexInjective(p.bus, q.bus);
    HexInjective(p.slot, q.slot); HexInjective(p.fn, q.fn);
    LowerAddress(p);
    LowerAddress(q);
    SameParts(p, q);
  }

  lemma SameParts(p: Quad<string>, q: Quad<string>)
    requires |p.domain| == |q.domain| && |p.bus| == |q.bus| && |p.slot| == |q.slot| && |p.fn| == |q.fn|
    ensures var x := ToLower(p.domain) + ":" + ToLower(p.bus) + ":" + ToLower(p.slot) + "." + ToLower(p.fn);
      var y := ToLower(q.domain) + ":" + ToLower(q.bus) + ":" + ToLower(q.slot) + "." + ToLower(q.fn);
      x == y <==> ToLower(p.domain) == ToLower(q.domain) && ToLower(p.bus) == ToLower(q.bus)
                  && ToLower(p.slot) == ToLower(q.slot) && ToLower(p.fn) == ToLower(q.fn)
  {
    SamePair(ToLower(p.domain) + ":" + ToLower(p.bus) + ":" + ToLower(p.slot) + ".", ToLower(p.fn),
             ToLower(q.domain) + ":" + ToLower(q.bus) + ":" + ToLower(q.slot) + ".", ToLower(q.fn));
    SamePair(ToLower(p.domain) + ":" + ToLower(p.bus) + ":" + ToLower(p.slot), ".",
             ToLower(q.domain) + ":" + ToLower(q.bus) + ":" + ToLower(q.slot), ".");
    SamePair(ToLower(p.domain) + ":" + ToLower(p.bus) + ":", ToLower(p.slot),
        ToLower(q.domain) + ":" + ToLower(q.bus) + ":", ToLower(q.slot));
    SamePair(ToLower(p.domain) + ":" + ToLower(p.bus), ":", ToLower(q.domain) + ":" + ToLower(q.bus), ":");
    SamePair(ToLower(p.domain) + ":", ToLower(p.bus), ToLower(q.domain) + ":", ToLower(q.bus));
    SamePair(ToLower(p.domain), ":", ToLower(q.domain), ":");
  }

  lemma SamePair(a: string, b: string, x: string, y: string)
    requires |a| == |x| && |b| == |y|
    ensures a + b == x + y <==> a == x && b == y
  {
    if a + b == x + y {
      assert a == (a + b)[..|a|] && b == (a + b)[|a|..];
      assert x == (x + y)[..|a|] && y == (x + y)[|a|..];
    }
  }
}
