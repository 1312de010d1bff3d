/** Decimal numerals of natural numbers, as `str(n)` prints them. */
module Decimals {
  import opened StringOrder

  function Digit(d: nat): char
    requires d < 10
  {
    '0' + d as char
  }

  function Dec(n: nat): (s: string)
    ensures |s| > 0
  {
    if n < 10 then [Digit(n)] else Dec(n / 10) + [Digit(n % 10)]
  }

  lemma DigitOrder(a: nat, b: nat)
    requires a < 10 && b < 10
    ensures Digit(a) < Digit(b) <==> a < b
    ensures Digit(a) == Digit(b) <==> a == b
  {}

  /** Numerals of equal length compare as the numbers do. */
  lemma {:induction false} DecOrder(a: nat, b: nat)
    requires |Dec(a)| == |Dec(b)|
    ensures StrLt(Dec(a), Dec(b)) <==> a < b
    ensures Dec(a) == Dec(b) <==> a == b
  {
    if a < 10 && b < 10 {
      DigitOrder(a, b);
    } else if a >= 10 && b >= 10 {
      var p, q := Dec(a / 10), Dec(b / 10);
      var x, y := [Digit(a % 10)], [Digit(b % 10)];
      DecOrder(a / 10, b / 10);
      DigitOrder(a % 10, b % 10);
      assert Dec(a) == p + x && Dec(b) == q + y;
      if p == q {
        StrLtPrefix(p, x, y);
        assert (p + x)[|p|] == x[0] && (p + y)[|p|] == y[0];
      } else {
        StrLtHead(p, q, x, y);
        assert Dec(a)[..|p|] == p && Dec(b)[..|q|] == q;
      }
    }
  }

  lemma {:induction false} DecDigit(n: nat, i: nat)
    requires i < |Dec(n)|
    ensures '0' <= Dec(n)[i] <= '9'
  {
    if n >= 10 && i < |Dec(n)| - 1 {
      DecDigit(n / 10, i);
    }
  }

  /** A number with fewer digits is smaller. */
  lemma {:induction false} DecLength(a: nat, b: nat)
    requires a <= b
    ensures |Dec(a)| <= |Dec(b)|
  {
    if a >= 10 {
      DecLength(a / 10, b / 10);
    }
  }

  /** `n` without its last `k` digits. */
  function DropDigits(n: nat, k: nat): nat {
    if k == 0 then n else DropDigits(n / 10, k - 1)
  }

  lemma {:induction false} DecPrefix(n: nat, k: nat)
    requires k < |Dec(n)|
    ensures Dec(n)[..|Dec(n)| - k] == Dec(DropDigits(n, k))
  {
    if k == 0 {
      assert Dec(n)[..|Dec(n)|] == Dec(n);
    } else {
      DecPrefix(n / 10, k - 1);
      assert Dec(n)[..|Dec(n)| - k] == Dec(n / 10)[..|Dec(n / 10)| - (k - 1)];
    }
  }
}
