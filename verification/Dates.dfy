/** The date strings of tfm_repo/scripts/create_temporal_splits.py and their order. */
module Dates {
  import opened StringOrder
  import opened Decimals

  /** `utf8_lpad(s, 2, "0")` of a numeral. */
  function Pad2(s: string): string {
    if |s| < 2 then "0" + s else s
  }

  function DateString(year: nat, month: nat, day: nat): string {
    Dec(year) + ("-" + (Pad2(Dec(month)) + ("-" + Pad2(Dec(day)))))
  }

  /** The order of calendar dates. */
  predicate DateLt(y1: nat, m1: nat, d1: nat, y2: nat, m2: nat, d2: nat) {
    y1 < y2 || (y1 == y2 && (m1 < m2 || (m1 == m2 && d1 < d2)))
  }

  lemma {:induction false} Pad2Digits(n: nat)
    requires n < 100
    ensures Pad2(Dec(n)) == [Digit(n / 10), Digit(n % 10)]
  {
    if n >= 10 {
      assert Dec(n / 10) == [Digit(n / 10)];
    }
  }

  lemma {:induction false} Pad2Order(a: nat, b: nat)
    requires a < 100 && b < 100
    ensures |Pad2(Dec(a))| == |Pad2(Dec(b))| == 2
    ensures StrLt(Pad2(Dec(a)), Pad2(Dec(b))) <==> a < b
    ensures Pad2(Dec(a)) == Pad2(Dec(b)) <==> a == b
  {
    Pad2Digits(a);
    Pad2Digits(b);
    DigitOrder(a / 10, b / 10);
    DigitOrder(a % 10, b % 10);
    CompareTwo(Digit(a / 10), Digit(a % 10), Digit(b / 10), Digit(b % 10));
  }

  lemma {:induction false} CompareTwo(a: char, b: char, c: char, d: char)
    ensures StrLt([a, b], [c, d]) <==> a < c || (a == c && b < d)
    ensures [a, b] == [c, d] <==> a == c && b == d
  {
    assert [a, b][1..] == [b] && [c, d][1..] == [d];
    assert StrLt([b], [d]) <==> b < d by { assert [b][1..] == "" && [d][1..] == ""; }
    assert [a, b][0] == a && [a, b][1] == b && [c, d][0] == c && [c, d][1] == d;
  }

  lemma {:induction false} DashedInjective(p: string, q: string, a: string, b: string)
    requires |p| == |q|
    ensures p + ("-" + a) == q + ("-" + b) <==> p == q && a == b
  {
    var s, t := p + ("-" + a), q + ("-" + b);
    assert s[..|p|] == p && t[..|q|] == q;
    assert s[|p| + 1..] == a && t[|q| + 1..] == b;
  }

  /** Compare heads of equal length first, then the rest after a dash. */
  lemma {:induction false} CompareDashed(p: string, q: string, a: string, b: string)
    requires |p| == |q|
    ensures StrLt(p + ("-" + a), q + ("-" + b)) <==> StrLt(p, q) || (p == q && StrLt(a, b))
    ensures p + ("-" + a) == q + ("-" + b) <==> p == q && a == b
  {
    StrTrichotomy(p, q);
    DashedInjective(p, q, a, b);
    if p == q {
      StrLtPrefix(p, "-" + a, "-" + b);
      StrLtPrefix("-", a, b);
    } else {
      StrLtHead(p, q, "-" + a, "-" + b);
    }
  }

  /**
   * For years with equally many digits and one- or two-digit months and days, the strings are ordered
   * as the dates are, and no two dates share a string.
   */
  lemma {:induction false} SameLengthOrder(y1: nat, m1: nat, d1: nat, y2: nat, m2: nat, d2: nat)
    requires |Dec(y1)| == |Dec(y2)| && m1 < 100 && d1 < 100 && m2 < 100 && d2 < 100
    ensures StrLt(DateString(y1, m1, d1), DateString(y2, m2, d2)) <==> DateLt(y1, m1, d1, y2, m2, d2)
    ensures DateString(y1, m1, d1) == DateString(y2, m2, d2) <==> y1 == y2 && m1 == m2 && d1 == d2
  {
    DecOrder(y1, y2);
    Pad2Order(m1, m2);
    Pad2Order(d1, d2);
    CompareDashed(Pad2(Dec(m1)), Pad2(Dec(m2)), Pad2(Dec(d1)), Pad2(Dec(d2)));
    CompareDashed(Dec(y1), Dec(y2), Pad2(Dec(m1)) + ("-" + Pad2(Dec(d1))), Pad2(Dec(m2)) + ("-" + Pad2(Dec(d2))));
  }

  /** A year with fewer digits sorts first exactly when it is at most the leading digits of the longer one. */
  lemma {:induction false} ShortYearOrder(y1: nat, y2: nat, a: string, b: string)
    requires |Dec(y1)| < |Dec(y2)|
    ensures StrLt(Dec(y1) + ("-" + a), Dec(y2) + ("-" + b)) <==> y1 <= DropDigits(y2, |Dec(y2)| - |Dec(y1)|)
    ensures StrLt(Dec(y2) + ("-" + b), Dec(y1) + ("-" + a)) <==> y1 > DropDigits(y2, |Dec(y2)| - |Dec(y1)|)
    ensures y1 < y2
  {
    var n := |Dec(y1)|;
    var lead, more := DropDigits(y2, |Dec(y2)| - n), Dec(y2)[n..] + ("-" + b);
    DecPrefix(y2, |Dec(y2)| - n);
    DecDigit(y2, n);
    DecOrder(y1, lead);
    assert Dec(y2) + ("-" + b) == Dec(lead) + more;
    StrTrichotomy(Dec(y1) + ("-" + a), Dec(lead) + more);
    if y1 == lead {
      StrLtPrefix(Dec(y1), "-" + a, more);
      assert (Dec(y1) + ("-" + a))[n] == '-' && (Dec(lead) + more)[n] == more[0];
    } else {
      StrLtHead(Dec(y1), Dec(lead), "-" + a, more);
      assert (Dec(y1) + ("-" + a))[..n] == Dec(y1) && (Dec(lead) + more)[..n] == Dec(lead);
    }
    if y2 <= y1 {
      DecLength(y2, y1);
      assert false;
    }
  }

  /** Numerals of equal length, or the shorter year is at most the leading digits of the longer one. */
  predicate YearsAgree(y1: nat, y2: nat) {
    var n1, n2 := |Dec(y1)|, |Dec(y2)|;
    if n1 <= n2 then n1 == n2 || y1 <= DropDigits(y2, n2 - n1) else y2 <= DropDigits(y1, n1 - n2)
  }

  /**
   * For all years: two different dates sort as the calendar has them if and only if their years agree,
   * and no two dates share a string.
   */
  lemma {:induction false} DateOrder(y1: nat, m1: nat, d1: nat, y2: nat, m2: nat, d2: nat)
    requires m1 < 100 && d1 < 100 && m2 < 100 && d2 < 100
    ensures (StrLt(DateString(y1, m1, d1), DateString(y2, m2, d2)) <==> DateLt(y1, m1, d1, y2, m2, d2))
       <==> YearsAgree(y1, y2)
    ensures DateString(y1, m1, d1) == DateString(y2, m2, d2) <==> y1 == y2 && m1 == m2 && d1 == d2
  {
    var a, b := Pad2(Dec(m1)) + ("-" + Pad2(Dec(d1))), Pad2(Dec(m2)) + ("-" + Pad2(Dec(d2)));
    if |Dec(y1)| == |Dec(y2)| {
      SameLengthOrder(y1, m1, d1, y2, m2, d2);
    } else {
      Pad2Order(m1, m2);
      Pad2Order(d1, d2);
      if |Dec(y1)| < |Dec(y2)| {
        ShortYearOrder(y1, y2, a, b);
      } else {
        ShortYearOrder(y2, y1, b, a);
      }
    }
  }

  /** Every four-digit year has a four-digit numeral, so `SameLengthOrder` covers them all. */
  lemma {:induction false} FourDigitYears(y: nat)
    requires 1000 <= y < 10000
    ensures |Dec(y)| == 4
  {
    assert Dec(y) == Dec(y / 10) + [Digit(y % 10)];
    assert Dec(y / 10) == Dec(y / 100) + [Digit(y / 10 % 10)] by { assert y / 10 / 10 == y / 100; }
    assert Dec(y / 100) == Dec(y / 1000) + [Digit(y / 100 % 10)] by { assert y / 100 / 10 == y / 1000; }
  }

  /** Years that disagree: the year 999 sorts after the year 1000. */
  lemma {:induction false} ShortYearSortsLate()
    ensures StrLt(DateString(1000, 1, 1), DateString(999, 12, 31)) && DateLt(999, 12, 31, 1000, 1, 1)
    ensures !YearsAgree(999, 1000)
  {
    assert Dec(1000)[0] == '1' by {
      assert Dec(1000) == Dec(100) + "0" && Dec(100) == Dec(10) + "0" && Dec(10) == Dec(1) + "0";
    }
    assert Dec(999)[0] == '9' by {
      assert Dec(999) == Dec(99) + "9" && Dec(99) == Dec(9) + "9";
    }
    assert DateString(1000, 1, 1)[0] == '1' && DateString(999, 12, 31)[0] == '9';
  }
}
