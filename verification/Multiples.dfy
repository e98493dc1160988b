/** Facts about quotients and multiples that the solver needs spelled out. */
module Multiples {
  lemma Ordered(p: int, q: int, unit: int)
    requires unit > 0
    ensures p < q ==> unit * p + unit <= unit * q
    ensures unit * p < unit * q ==> p < q
  {
    if p < q {
      NotNegative(unit, q - p - 1);
      Distributed(unit, q, p + 1);
      Distributed(unit, p + 1, p);
    } else {
      NotNegative(unit, p - q);
      Distributed(unit, p, q);
    }
  }

  lemma NotNegative(a: int, b: int)
    requires a >= 0 && b >= 0
    ensures a * b >= 0
  {
  }

  lemma Distributed(a: int, b: int, c: int)
    ensures a * (b - c) == a * b - a * c
  {
  }

  lemma Quotient(x: int, q: int, r: int, unit: int)
    requires unit > 0 && x == unit * q + r && 0 <= r < unit
    ensures x / unit == q && x % unit == r
  {
    var p := x / unit;
    assert x == unit * p + x % unit;
    Ordered(p, q, unit);
    Ordered(q, p, unit);
  }

  lemma Multiple(q: int, unit: int)
    requires unit > 0
    ensures unit * q % unit == 0 && unit * q / unit == q
  {
    Quotient(unit * q, q, 0, unit);
  }

  lemma Sum(x: int, y: int, unit: int)
    requires unit > 0 && x % unit == 0
    ensures (x + y) / unit == x / unit + y / unit && (x + y) % unit == y % unit
  {
    var p, q := x / unit, y / unit;
    assert x == unit * p && y == unit * q + y % unit;
    assert unit * (p + q) == unit * p + unit * q;
    Quotient(x + y, p + q, y % unit, unit);
  }

  lemma Difference(x: int, y: int, unit: int)
    requires unit > 0 && x % unit == 0 && y % unit == 0
    ensures (x - y) % unit == 0 && (x - y) / unit == x / unit - y / unit
    ensures y < x ==> y + unit <= x
  {
    var p, q := x / unit, y / unit;
    assert x == unit * p && y == unit * q;
    assert x - y == unit * (p - q) by { assert unit * (p - q) == unit * p - unit * q; }
    Multiple(p - q, unit);
    Ordered(q, p, unit);
  }

  lemma DivMonotone(x: int, y: int, unit: int)
    requires unit > 0 && x <= y
    ensures x / unit <= y / unit
  {
    var p, q := x / unit, y / unit;
    assert x == unit * p + x % unit && y == unit * q + y % unit;
    Ordered(q, p, unit);
  }

  lemma Below(y: int, x: int, unit: int)
    requires unit > 0 && x % unit == 0 && y < x
    ensures y / unit < x / unit
  {
    var p, q := y / unit, x / unit;
    assert x == unit * q && y == unit * p + y % unit;
    Ordered(p, q, unit);
  }

  lemma Next(q: int, unit: int)
    ensures unit * (q + 1) == unit * q + unit && unit * (q - 1) == unit * q - unit
  {
  }

  lemma Monotone(p: int, q: int, unit: int)
    requires unit >= 0 && p <= q
    ensures unit * p <= unit * q
  {
    assert unit * (q - p) >= 0;
  }

  lemma Floor(x: int, unit: int)
    requires x >= 0 && unit > 0
    ensures 0 <= x / unit <= x && unit * (x / unit) <= x
  {
    var q := x / unit;
    assert x == unit * q + x % unit;
    Ordered(q, 0, unit);
    if q > x {
      Ordered(x, q, unit);
      Monotone(1, unit, x);
    }
  }

  lemma Exchanged(a: int, b: int, c: int)
    ensures a * (b * c) == b * (a * c)
  {
  }
}
