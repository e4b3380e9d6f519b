/** Remainders of products and sums, as the probe arithmetic needs them. */
module Remainders {
  lemma Small(n: nat, m: nat)
    requires n < m
    ensures n % m == n
  {
  }

  lemma {:induction false} Steps(x: nat, y: nat, m: nat)
    requires x < y
    ensures x * m + m <= y * m
    decreases y
  {
    assert y * m == (y - 1) * m + m;
    if x + 1 < y {
      Steps(x, y - 1, m);
    }
  }

  lemma Euclid(n: nat, m: nat)
    requires 0 < m
    ensures n == n / m * m + n % m && n % m < m
  {
  }

  /** Quotient and remainder are determined by their equation. */
  lemma Of(n: nat, q: nat, r: nat, m: nat)
    requires r < m && n == q * m + r
    ensures n % m == r && n / m == q
  {
    var d, e := n / m, n % m;
    Euclid(n, m);
    if d > q {
      Steps(q, d, m);
    } else if d < q {
      Steps(d, q, m);
    }
  }

  lemma DropMultiples(n: nat, k: nat, m: nat)
    requires 0 < m
    ensures (n + k * m) % m == n % m
  {
    Euclid(n, m);
    var q, r := n / m, n % m;
    assert n + k * m == (q + k) * m + r;
    Of(n + k * m, q + k, r, m);
  }

  /** A remainder of a remainder, where one modulus divides the other. */
  lemma Twice(n: nat, big: nat, m: nat)
    requires 0 < m && 0 < big && big % m == 0
    ensures n % big % m == n % m
  {
    Euclid(n, big);
    Euclid(big, m);
    var q, k, r := n / big, big / m, n % big;
    Regroup(q, k, m);
    DropMultiples(r, q * k, m);
  }

  /** Numbers a multiple apart, seen through a modulus that is a multiple too. */
  lemma Apart(a: nat, b: nat, k: nat, big: nat, m: nat)
    requires 0 < m && 0 < big && big % m == 0 && b == a + k * m
    ensures b % big % m == a % big % m
  {
    Twice(a, big, m);
    Twice(b, big, m);
    DropMultiples(a, k, m);
  }

  lemma Regroup(a: nat, b: nat, c: nat)
    ensures a * (b * c) == a * b * c
  {
  }

  /** A multiple of `i` from the quotient and the remainder of `i`. */
  lemma Spread(i: nat, h: nat, m: nat)
    requires 0 < m
    ensures i * h == i % m * h + i / m * h * m
  {
    Euclid(i, m);
    var q, r := i / m, i % m;
    assert i * h == (q * m + r) * h == q * m * h + r * h;
    Swap(q, m, h);
  }

  lemma Swap(a: nat, b: nat, c: nat)
    ensures a * b * c == a * c * b
  {
  }

  /** Adding a number that is not a multiple changes the remainder. */
  lemma TellApart(n: nat, t: nat, m: nat)
    requires t < m && (n + t) % m == t
    ensures n % m == 0
  {
    Euclid(n + t, m);
    Of(n, (n + t) / m, 0, m);
  }

  /** Dividing twice is dividing by the product. */
  lemma DivideTwice(n: nat, a: nat, b: nat)
    requires 0 < a && 0 < b
    ensures 0 < a * b && n / (a * b) == n / a / b
  {
    var q, r := n / a, n % a;
    var p, t := q / b, q % b;
    Euclid(n, a);
    Euclid(q, b);
    Steps(0, a, b);
    assert n == (p * b + t) * a + r == p * b * a + (t * a + r);
    Swap(p, b, a);
    Regroup(p, a, b);
    Steps(t, b, a);
    Of(n, p, t * a + r, a * b);
  }
}
