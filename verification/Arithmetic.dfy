/**
 Facts about products, quotients and remainders that several parts of the model need.
 */
module Arithmetic {

  /** The product as a repeated sum. */
  function Times(a: nat, b: nat): nat {
    if a == 0 then 0 else Times(a - 1, b) + b
  }

  lemma {:induction false} TimesIs(a: nat, b: nat)
    ensures Times(a, b) == a * b
  {
    if a > 0 { TimesIs(a - 1, b); }
  }

  lemma {:induction false} TimesMonotone(a: nat, a': nat, b: nat)
    requires a <= a'
    ensures Times(a, b) <= Times(a', b)
  {
    if a < a' { TimesMonotone(a, a' - 1, b); }
  }

  lemma MulLe(a: nat, b: nat, d: nat)
    requires a <= b
    ensures a * d <= b * d
  {
  }

  lemma DigitsUnique(q: nat, r: nat, q': nat, r': nat, base: nat)
    requires q * base + r == q' * base + r' && r < base && r' < base
    ensures q == q' && r == r'
  {
    if q < q' {
      MulLe(q + 1, q', base);
    } else if q' < q {
      MulLe(q' + 1, q, base);
    }
  }

  lemma QuotientBound(id: nat, base: nat, top: nat)
    requires 0 < base && id < top * base
    ensures id / base < top && (id / base) * base + id % base == id
  {
    if id / base >= top {
      MulLe(top, id / base, base);
    }
  }

  /** The quotient of a number between two neighbouring multiples. */
  lemma QuotientIs(c: nat, i: nat, d: nat)
    requires 0 < d && Times(i, d) <= c < Times(i + 1, d)
    ensures c / d == i
  {
    TimesIs(i, d);
    DigitsUnique(c / d, c % d, i, c - i * d, d);
  }

  lemma Division(a: nat, d: nat)
    requires d > 0
    ensures a == (a / d) * d + a % d && 0 <= a % d < d && 0 <= a / d
  {
  }

  lemma QuotientUnique(a: nat, d: nat, q: nat, r: nat)
    requires r < d && a == q * d + r
    ensures a / d == q && a % d == r
  {
    Division(a, d);
    DigitsUnique(a / d, a % d, q, r, d);
  }

  lemma MulAssoc(a: nat, b: nat, c: nat)
    ensures (a * b) * c == a * (b * c)
  {
  }

  lemma Regroup(b: nat, c: nat, u: nat, v: nat)
    ensures (u * c + v) * b == u * (b * c) + v * b
  {
    MulAssoc(u, c, b);
    assert (u * c + v) * b == (u * c) * b + v * b;
  }

  /** Dividing twice is dividing by the product. */
  lemma QuotientTwice(a: nat, b: nat, c: nat)
    requires b > 0 && c > 0
    ensures b * c > 0 && a / b / c == a / (b * c)
  {
    var q, r := a / b, a % b;
    var u, v := q / c, q % c;
    Division(a, b);
    Division(q, c);
    MulLe(1, b, c);
    MulLe(v + 1, c, b);
    Regroup(b, c, u, v);
    assert (v + 1) * b == v * b + b;
    QuotientUnique(a, b * c, u, v * b + r);
  }
}
