/** Decimal numbers in text, and the message length that counts its own digits
    (section 5.1 of RFC 6787). */
module Decimal {

  predicate IsDigit(c: char) { '0' <= c <= '9' }

  function DigitChar(d: nat): (c: char)
    requires d < 10
    ensures IsDigit(c)
  {
    '0' + d as char
  }

  /** The decimal digits of `n`, as printf writes them. */
  function Digits(n: nat): (s: string)
    ensures |s| > 0 && forall i | 0 <= i < |s| :: IsDigit(s[i])
  {
    if n < 10 then [DigitChar(n)] else Digits(n / 10) + [DigitChar(n % 10)]
  }

  /** atoi from its first digit on: the digits end at any other character. */
  function Number(s: string, sofar: nat): nat
    decreases |s|
  {
    if s == "" || !IsDigit(s[0]) then sofar else Number(s[1..], 10 * sofar + (s[0] - '0') as nat)
  }

  lemma {:induction false} NumberConcat(s: string, t: string, sofar: nat)
    requires forall i | 0 <= i < |s| :: IsDigit(s[i])
    ensures Number(s + t, sofar) == Number(t, Number(s, sofar))
    decreases |s|
  {
    if s == "" {
      assert s + t == t;
    } else {
      assert (s + t)[1..] == s[1..] + t;
      NumberConcat(s[1..], t, 10 * sofar + (s[0] - '0') as nat);
    }
  }

  /** Reading back what was printed. */
  lemma {:induction false} NumberOfDigits(n: nat)
    ensures Number(Digits(n), 0) == n
  {
    if n >= 10 {
      NumberOfDigits(n / 10);
      NumberConcat(Digits(n / 10), [DigitChar(n % 10)], 0);
    }
  }

  function Pow10(m: nat): (p: nat)
    ensures p > 0
  {
    if m == 0 then 1 else 10 * Pow10(m - 1)
  }

  /** m digits are what the numbers from 10^(m-1) to 10^m - 1 take. */
  lemma {:induction false} DigitCount(n: nat)
    ensures n < Pow10(|Digits(n)|)
    ensures |Digits(n)| > 1 ==> Pow10(|Digits(n)| - 1) <= n
  {
    if n >= 10 {
      DigitCount(n / 10);
    }
  }

  lemma {:induction false} Pow10Grows(a: nat, b: nat)
    requires a <= b
    ensures Pow10(a) <= Pow10(b)
  {
    if a < b {
      Pow10Grows(a, b - 1);
    }
  }

  /** These bounds determine the number of digits. */
  lemma {:induction false} DigitCountIs(n: nat, m: nat)
    requires m >= 1 && n < Pow10(m) && (m > 1 ==> Pow10(m - 1) <= n)
    ensures |Digits(n)| == m
  {
    DigitCount(n);
    var d := |Digits(n)|;
    if d < m {
      Pow10Grows(d, m - 1);
    } else if m < d {
      Pow10Grows(m, d - 1);
    }
  }

  lemma {:induction false} DigitsGrow(a: nat, b: nat)
    requires a <= b
    ensures |Digits(a)| <= |Digits(b)|
  {
    DigitCount(a);
    DigitCount(b);
    if |Digits(b)| < |Digits(a)| {
      Pow10Grows(|Digits(b)|, |Digits(a)| - 1);
    }
  }

  lemma {:induction false} Pow10Bound(m: nat)
    ensures m < Pow10(m)
  {
    if m > 0 {
      Pow10Bound(m - 1);
    }
  }

  lemma Pow10Of19()
    ensures Pow10(19) == 10_000_000_000_000_000_000
  {
    assert Pow10(3) == 1000;
    assert Pow10(6) == 1_000_000;
    assert Pow10(9) == 1_000_000_000;
    assert Pow10(12) == 1_000_000_000_000;
    assert Pow10(15) == 1_000_000_000_000_000;
    assert Pow10(18) == 1_000_000_000_000_000_000;
  }

  /** The sum of `n` and the number of its own digits. */
  function WithOwnLength(n: nat): nat
  {
    var m := |Digits(n)|;
    if n >= Pow10(m) - m then n + m + 1 else n + m
  }

  lemma {:induction false} WithOwnLengthCounts(n: nat)
    ensures WithOwnLength(n) == n + |Digits(WithOwnLength(n))|
  {
    var m := |Digits(n)|;
    DigitCount(n);
    Pow10Bound(m);
    DigitCountIs(WithOwnLength(n), if n >= Pow10(m) - m then m + 1 else m);
  }

  lemma {:induction false} WithOwnLengthIsLeast(n: nat, w: nat)
    requires w == n + |Digits(w)|
    ensures WithOwnLength(n) <= w
  {
    DigitsGrow(n, w);
    DigitCount(w);
  }

  /** Adds to `n` the number of digits of the sum itself. The sum is the least
      number with that property, and `text` is its digits unless there are more
      than `maxCount`. The 64-bit arithmetic of the original holds powers of ten up
      to 10^19. */
  method VarLengthValueGenerate(n: nat, maxCount: nat) returns (ok: bool, value: nat, text: string)
    requires n < 10_000_000_000_000_000_000
    ensures value < 0x1_0000_0000_0000_0000
    ensures value == n + |Digits(value)|
    ensures forall w: nat | w == n + |Digits(w)| :: value <= w
    ensures ok == (|Digits(value)| <= maxCount)
    ensures ok ==> text == Digits(value)
  {
    var temp, count := n / 10, 1;
    while temp > 0
      invariant |Digits(n)| == count + if temp > 0 then |Digits(temp)| else 0
    {
      count := count + 1;
      temp := temp / 10;
    }
    var bounds := 10;
    temp := count - 1;
    while temp > 0
      invariant temp < count && bounds == Pow10(count - temp)
    {
      bounds := bounds * 10;
      temp := temp - 1;
    }
    CountFits(n);
    if n >= bounds - count {
      count := count + 1;
    }
    value := n + count;
    WithOwnLengthCounts(n);
    forall w: nat | w == n + |Digits(w)| ensures value <= w {
      WithOwnLengthIsLeast(n, w);
    }
    text := "";
    ok := count <= maxCount;
    if ok {
      text := Digits(value);
    }
  }

  lemma {:induction false} CountFits(n: nat)
    requires n < 10_000_000_000_000_000_000
    ensures |Digits(n)| <= 19
  {
    DigitCount(n);
    Pow10Of19();
    if |Digits(n)| > 19 {
      Pow10Grows(19, |Digits(n)| - 1);
    }
  }
}
