/** Products, quotients and remainders. */
module Arithmetic {

  function Mul(x: nat, y: nat): nat { x * y }

  lemma NextRow(t: nat, rows: nat, d: nat)
    requires t < rows
    ensures Mul(t + 1, d) == Mul(t, d) + d <= Mul(rows, d)
  {
    BelowProduct(t, rows, d);
  }

  lemma MulPlus(a: nat, b: nat, d: nat)
    ensures Mul(a + b, d) == Mul(a, d) + Mul(b, d)
  {
  }

  lemma MulUnits(d: nat)
    ensures Mul(0, d) == 0 && Mul(1, d) == d
  {
  }

  function Div(x: nat, m: nat): nat
    requires m > 0
  {
    x / m
  }

  function Rem(x: nat, m: nat): (r: nat)
    requires m > 0
    ensures r < m
  {
    x % m
  }

  lemma Multiples(d: int, m: nat)
    ensures d >= 1 ==> d * m >= m
    ensures d >= 0 ==> d * m >= 0
    ensures d <= -1 ==> d * m <= 0 - m
  {
  }

  /** Division undoes what multiplication and a small remainder did. */
  lemma DivMod(x: int, q: int, r: int, m: nat)
    requires 0 <= r < m && x == q * m + r
    ensures x / m == q && x % m == r
  {
    var d := x / m - q;
    assert x == (x / m) * m + x % m;
    assert d * m == r - x % m;
    Multiples(d, m);
  }

  lemma DivMonotone(x: nat, y: nat, m: nat)
    requires x <= y && m > 0
    ensures x / m <= y / m
  {
    var a, b := x / m, y / m;
    assert a * m <= x && y < b * m + m;
    Multiples(a - b - 1, m);
  }

  lemma QuotientBelow(k: nat, rows: nat, size: nat)
    requires size > 0 && k < Mul(rows, size)
    ensures Div(k, size) < rows && k == Div(k, size) * size + k % size
  {
    Multiples(Div(k, size) - rows, size);
    assert (k / size - rows) * size == k / size * size - rows * size;
  }

  /** Dividing twice is dividing by the product. */
  lemma DivDiv(x: nat, a: nat, b: nat)
    requires a > 0 && b > 0
    ensures a * b > 0 && x / a / b == x / (a * b)
    ensures x % (a * b) == (x / a % b) * a + x % a
  {
    var q, r := x / a, x % a;
    var p, s := q / b, q % b;
    Quotients(x, q, r, p, s, a, b);
    DivMod(x, p, s * a + r, a * b);
  }

  lemma Quotients(x: nat, q: nat, r: nat, p: nat, s: nat, a: nat, b: nat)
    requires x == q * a + r && q == p * b + s && r < a && s < b
    ensures x == p * (a * b) + (s * a + r) && s * a + r < a * b
  {
    Nested(q, p, b, s, a);
    BelowProduct(s, b, a);
  }

  lemma Nested(q: nat, p: nat, b: nat, s: nat, a: nat)
    requires q == p * b + s
    ensures q * a == p * (a * b) + s * a
  {
    assert (p * b + s) * a == p * b * a + s * a;
    assert p * b * a == p * (a * b);
  }

  lemma BelowProduct(s: nat, b: nat, a: nat)
    requires s < b
    ensures s * a + a <= a * b
  {
    Multiples(b - s, a);
    assert (b - s) * a == a * b - s * a;
  }
}
