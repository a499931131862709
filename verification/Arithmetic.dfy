/** Facts about products and quotients of reals, one small step each. */
module Arithmetic {
  lemma MulMono(a: real, b: real, c: real)
    requires a <= b && c >= 0.0
    ensures a * c <= b * c && c * a <= c * b
  {
    assert (b - a) * c >= 0.0;
  }

  lemma MulStrict(a: real, b: real, c: real)
    requires a < b && c > 0.0
    ensures a * c < b * c && c * a < c * b
  {
    assert (b - a) * c > 0.0;
  }

  lemma Distribute(a: real, b: real, c: real)
    ensures (a - b) * c == a * c - b * c
    ensures (a + b) * c == a * c + b * c
    ensures c * (a - b) == c * a - c * b
    ensures c * (a + b) == c * a + c * b
  {
  }

  lemma DivCancels(x: real, y: real)
    requires y != 0.0
    ensures (x / y) * y == x && y * (x / y) == x
  {
  }

  // x / y lies between two bounds when x lies between their multiples.
  lemma DivBetween(x: real, y: real, lo: real, hi: real)
    requires y > 0.0 && lo * y <= x <= hi * y
    ensures lo <= x / y <= hi
  {
    var q := x / y;
    DivCancels(x, y);
    if q < lo {
      MulStrict(q, lo, y);
    }
    if q > hi {
      MulStrict(hi, q, y);
    }
  }

  // The value of a number of shares at a price.
  function Notional(price: real, shares: real): real {
    price * shares
  }

  // The profit on shares bought at one price and gone at another.
  function Gain(exit: real, entry: real, shares: real): real {
    (exit - entry) * shares
  }

  lemma GainIsDifference(exit: real, entry: real, shares: real)
    ensures Gain(exit, entry, shares) == Notional(exit, shares) - Notional(entry, shares)
  {
    Distribute(exit, entry, shares);
  }

  lemma NotionalSplits(price: real, a: real, b: real)
    ensures Notional(price, a + b) == Notional(price, a) + Notional(price, b)
    ensures Notional(price, a - b) == Notional(price, a) - Notional(price, b)
    ensures Notional(price, 0.0) == 0.0
  {
    Distribute(a, b, price);
  }

  lemma NotionalMono(lo: real, hi: real, shares: real)
    requires lo <= hi && shares >= 0.0
    ensures Notional(lo, shares) <= Notional(hi, shares)
  {
    MulMono(lo, hi, shares);
  }
}
