/** Division by a variable. */
module Arithmetic {

  lemma UniqueRemainder(x: nat, n: nat, q: nat, r: nat)
    requires n > 0 && r < n && x == q * n + r
    ensures x % n == r && x / n == q
  {
    var q', r' := x / n, x % n;
    assert x == q' * n + r';
    if q > q' {
      Multiples(q, q', n);
    } else if q < q' {
      Multiples(q', q, n);
    }
  }

  lemma Multiples(a: nat, b: nat, n: nat)
    requires a > b
    ensures a * n >= b * n + n
  {
    assert a * n == b * n + (a - b) * n;
    assert (a - b) * n == (a - b - 1) * n + n;
  }
}
