/** internal/schedule/schedule.go: which scheduled snapshots are pruned. */
module Retention {
  import opened GoStrings

  const AUTO := "auto-"

  // ---------- the order of Go strings ----------

  predicate Less(a: string, b: string) {
    if b == "" then false
    else if a == "" then true
    else a[0] < b[0] || (a[0] == b[0] && Less(a[1..], b[1..]))
  }

  /** The order of Go strings: the first difference decides, and a proper prefix comes first. */
  lemma {:induction false} LessIff(a: string, b: string)
    ensures Less(a, b) <==> (a != b && a <= b) ||
                            exists i :: 0 <= i < |a| && i < |b| && a[..i] == b[..i] && a[i] < b[i]
  {
    if a != "" && b != "" {
      if a[0] == b[0] {
        var x, y := a[1..], b[1..];
        LessIff(x, y);
        assert a == [a[0]] + x && b == [b[0]] + y;
        if i :| 0 <= i < |x| && i < |y| && x[..i] == y[..i] && x[i] < y[i] {
          assert a[..i + 1] == [a[0]] + x[..i] && b[..i + 1] == [b[0]] + y[..i];
        }
        if i :| 0 <= i < |a| && i < |b| && a[..i] == b[..i] && a[i] < b[i] {
          assert i > 0;
          assert x[..i - 1] == a[..i][1..] && y[..i - 1] == b[..i][1..];
        }
      } else if a[0] < b[0] {
        assert a[..0] == b[..0];
      } else {
        assert forall i :: 0 < i < |a| && i < |b| ==> a[..i][0] != b[..i][0];
      }
    }
  }

  lemma {:induction false} LessTotal(a: string, b: string)
    ensures Less(a, b) || Less(b, a) || a == b
    ensures !(Less(a, b) && Less(b, a)) && !Less(a, a)
  {
    if a != "" && b != "" {
      LessTotal(a[1..], b[1..]);
      assert a == [a[0]] + a[1..] && b == [b[0]] + b[1..];
    }
    if a != "" { LessTotal(a[1..], a[1..]); }
  }

  lemma {:induction false} LessTrans(a: string, b: string, c: string)
    requires Less(a, b) && Less(b, c)
    ensures Less(a, c)
  {
    if a != "" && a[0] == b[0] && b[0] == c[0] { LessTrans(a[1..], b[1..], c[1..]); }
  }

  /** Comparing concatenations of equally long parts compares the parts in turn. */
  lemma {:induction false} LessConcat(a: string, b: string, x: string, y: string)
    requires |a| == |b|
    ensures Less(a + x, b + y) <==> Less(a, b) || (a == b && Less(x, y))
  {
    if a == "" {
      assert a + x == x && b + y == y;
      assert b == "";
    } else {
      assert (a + x)[1..] == a[1..] + x && (b + y)[1..] == b[1..] + y;
      LessConcat(a[1..], b[1..], x, y);
      assert a == [a[0]] + a[1..] && b == [b[0]] + b[1..];
    }
  }

  // ---------- sort.Strings ----------

  predicate Sorted(s: seq<string>) {
    forall i, j :: 0 <= i < j < |s| ==> !Less(s[j], s[i])
  }

  function Insert(x: string, s: seq<string>): (r: seq<string>)
    ensures multiset(r) == multiset(s) + multiset{x}
  {
    if s == [] || !Less(s[0], x) then [x] + s
    else
      assert s == [s[0]] + s[1..];
      [s[0]] + Insert(x, s[1..])
  }

  function SortStrings(s: seq<string>): (r: seq<string>)
    ensures multiset(r) == multiset(s) && |r| == |s|
  {
    if s == [] then []
    else
      assert s == [s[0]] + s[1..];
      var r := Insert(s[0], SortStrings(s[1..]));
      assert |multiset(r)| == |multiset(s)|;
      r
  }

  lemma {:induction false} InsertSorted(x: string, s: seq<string>)
    requires Sorted(s)
    ensures Sorted(Insert(x, s))
  {
    hide Less;
    if s == [] {
    } else if !Less(s[0], x) {
      forall j | 0 <= j < |s| ensures !Less(s[j], x) {
        if Less(s[j], x) {
          LessTotal(s[0], s[j]);
          if Less(s[0], s[j]) { LessTrans(s[0], s[j], x); }
        }
      }
      ConsSorted(x, s);
    } else {
      InsertSorted(x, s[1..]);
      var t := Insert(x, s[1..]);
      forall j | 0 <= j < |t| ensures !Less(t[j], s[0]) {
        assert t[j] in multiset(t);
        if t[j] != x {
          var k :| 0 <= k < |s[1..]| && s[1..][k] == t[j];
          assert s[k + 1] == t[j];
        } else {
          LessTotal(s[0], x);
        }
      }
      ConsSorted(s[0], t);
    }
  }

  lemma ConsSorted(x: string, s: seq<string>)
    requires Sorted(s) && forall j :: 0 <= j < |s| ==> !Less(s[j], x)
    ensures Sorted([x] + s)
  {
    hide Less;
  }

  lemma {:induction false} SortSorts(s: seq<string>)
    ensures Sorted(SortStrings(s))
  {
    if s != [] {
      SortSorts(s[1..]);
      InsertSorted(s[0], SortStrings(s[1..]));
    }
  }

  // ---------- timestamps ----------

  /** A civil time with a 4-digit year. */
  datatype Civil = Civil(year: nat, month: nat, day: nat, hour: nat, minute: nat, second: nat) {
    predicate Ok() {
      year < 10000 && month < 100 && day < 100 && hour < 100 && minute < 100 && second < 100
    }
  }

  predicate Before(a: Civil, b: Civil) {
    a.year < b.year || (a.year == b.year && (a.month < b.month || (a.month == b.month && (
      a.day < b.day || (a.day == b.day && (a.hour < b.hour || (a.hour == b.hour && (
        a.minute < b.minute || (a.minute == b.minute && a.second < b.second)))))))))
  }

  /** Zero-padded decimal of fixed width. */
  function Pad(n: nat, width: nat): (s: string)
    ensures |s| == width
    decreases width
  {
    if width == 0 then "" else Pad(n / 10, width - 1) + ['0' + (n % 10) as char]
  }

  function Pow10(w: nat): nat { if w == 0 then 1 else 10 * Pow10(w - 1) }

  lemma {:induction false} PadOrder(a: nat, b: nat, width: nat)
    requires a < Pow10(width) && b < Pow10(width)
    ensures (Less(Pad(a, width), Pad(b, width)) <==> a < b) && (Pad(a, width) == Pad(b, width) <==> a == b)
  {
    if width > 0 {
      var x, y := Pad(a / 10, width - 1), Pad(b / 10, width - 1);
      var c, d := ['0' + (a % 10) as char], ['0' + (b % 10) as char];
      PadOrder(a / 10, b / 10, width - 1);
      LessConcat(x, y, c, d);
      assert Less(c, d) <==> a % 10 < b % 10;
      assert Pad(a, width)[..width - 1] == x && Pad(b, width)[..width - 1] == y;
      assert Pad(a, width)[width - 1] == c[0] && Pad(b, width)[width - 1] == d[0];
    }
  }

  /** `AutoPrefix + now.Format("20060102-150405")`. */
  function Name(t: Civil): string {
    AUTO + (Pad(t.year, 4) + (Pad(t.month, 2) + (Pad(t.day, 2) + ("-" +
        (Pad(t.hour, 2) + (Pad(t.minute, 2) + Pad(t.second, 2)))))))
  }

  lemma PadLimits()
    ensures Pow10(2) == 100 && Pow10(4) == 10000
  {
    assert Pow10(1) == 10 && Pow10(2) == 100 && Pow10(3) == 1000;
  }

  /** Lexical order of snapshot names is civil-time order. */
  lemma NameOrder(a: Civil, b: Civil)
    requires a.Ok() && b.Ok()
    ensures (Less(Name(a), Name(b)) <==> Before(a, b))
  {
    hide Pad, Less, Pow10;
    PadLimits();
    PadOrder(a.year, b.year, 4); PadOrder(a.month, b.month, 2); PadOrder(a.day, b.day, 2);
    PadOrder(a.hour, b.hour, 2); PadOrder(a.minute, b.minute, 2); PadOrder(a.second, b.second, 2);
    var a6, b6 := Pad(a.second, 2), Pad(b.second, 2);
    var a5, b5 := Pad(a.minute, 2) + a6, Pad(b.minute, 2) + b6;
    var a4, b4 := Pad(a.hour, 2) + a5, Pad(b.hour, 2) + b5;
    var a3, b3 := Pad(a.day, 2) + ("-" + a4), Pad(b.day, 2) + ("-" + b4);
    var a2, b2 := Pad(a.month, 2) + a3, Pad(b.month, 2) + b3;
    LessConcat(Pad(a.minute, 2), Pad(b.minute, 2), a6, b6);
    LessConcat(Pad(a.hour, 2), Pad(b.hour, 2), a5, b5);
    LessConcat("-", "-", a4, b4);
    LessConcat(Pad(a.day, 2), Pad(b.day, 2), "-" + a4, "-" + b4);
    LessConcat(Pad(a.month, 2), Pad(b.month, 2), a3, b3);
    LessConcat(Pad(a.year, 4), Pad(b.year, 4), a2, b2);
    LessConcat(AUTO, AUTO, Pad(a.year, 4) + a2, Pad(b.year, 4) + b2);
    LessTotal("-", "-");
    LessTotal(AUTO, AUTO);
  }

  lemma {:induction false} PadReads(n: nat, width: nat)
    requires n < Pow10(width)
    ensures Digits(Pad(n, width)) && Decimal(Pad(n, width)) == n
  {
    if width > 0 {
      PadReads(n / 10, width - 1);
      var s := Pad(n, width);
      assert s[..width - 1] == Pad(n / 10, width - 1) && s[width - 1] == '0' + (n % 10) as char;
    }
  }

  /** A name is "auto-", the date in eight digits, a dash and the time in six. */
  lemma NameReads(t: Civil)
    requires t.Ok()
    ensures var n := Name(t);
      && |n| == 20 && n[..5] == ['a', 'u', 't', 'o', '-'] && n[13] == '-'
      && Digits(n[5..13]) && Digits(n[14..])
      && Decimal(n[5..9]) == t.year && Decimal(n[9..11]) == t.month && Decimal(n[11..13]) == t.day
      && Decimal(n[14..16]) == t.hour && Decimal(n[16..18]) == t.minute && Decimal(n[18..]) == t.second
  {
    hide Pad, Pow10, Digits, Decimal;
    PadLimits();
    PadReads(t.year, 4); PadReads(t.month, 2); PadReads(t.day, 2);
    PadReads(t.hour, 2); PadReads(t.minute, 2); PadReads(t.second, 2);
    assert AUTO == ['a', 'u', 't', 'o', '-'];
    var date := Pad(t.year, 4) + Pad(t.month, 2) + Pad(t.day, 2);
    var time := Pad(t.hour, 2) + Pad(t.minute, 2) + Pad(t.second, 2);
    DigitsMore(Pad(t.year, 4), Pad(t.month, 2), Pad(t.day, 2));
    DigitsMore(Pad(t.hour, 2), Pad(t.minute, 2), Pad(t.second, 2));
    assert Name(t) == AUTO + date + "-" + time;
    Cuts(AUTO, date, time);
    Thirds(date, Pad(t.year, 4), Pad(t.month, 2), Pad(t.day, 2));
    Thirds(time, Pad(t.hour, 2), Pad(t.minute, 2), Pad(t.second, 2));
    var n := Name(t);
    assert n[5..9] == n[5..13][..4] && n[9..11] == n[5..13][4..6] && n[11..13] == n[5..13][6..];
    assert n[14..16] == n[14..][..2] && n[16..18] == n[14..][2..4] && n[18..] == n[14..][4..];
  }

  lemma DigitsMore(a: string, b: string, c: string)
    requires Digits(a) && Digits(b) && Digits(c)
    ensures Digits(a + b + c)
  {
  }

  lemma Cuts(a: string, date: string, time: string)
    requires |a| == 5 && |date| == 8 && |time| == 6
    ensures var n := a + date + "-" + time; n[..5] == a && n[5..13] == date && n[13] == '-' && n[14..] == time
  {
  }

  lemma Thirds(s: string, a: string, b: string, c: string)
    requires s == a + b + c
    ensures s[..|a|] == a && s[|a|..|a| + |b|] == b && s[|a| + |b|..] == c
  {
  }
}
