/** Bit operations on unsigned words, bit by bit, and what they are in arithmetic. */
module Bits {

  function Pow2(k: nat): (p: nat)
    ensures p > 0
  {
    if k == 0 then 1 else 2 * Pow2(k - 1)
  }

  /** `n << k`, when no bit is shifted out. */
  function Shl(n: nat, k: nat): nat {
    if k == 0 then n else 2 * Shl(n, k - 1)
  }

  /** `n >> k`. */
  function Shr(n: nat, k: nat): nat {
    if k == 0 then n else Shr(n, k - 1) / 2
  }

  /** `a | b`. */
  function Or(a: nat, b: nat): nat {
    if a == 0 && b == 0 then 0
    else 2 * Or(a / 2, b / 2) + if a % 2 == 1 || b % 2 == 1 then 1 else 0
  }

  /** `a & b`. */
  function And(a: nat, b: nat): nat {
    if a == 0 then 0
    else 2 * And(a / 2, b / 2) + if a % 2 == 1 && b % 2 == 1 then 1 else 0
  }

  /** A left shift is a product. */
  lemma {:induction false} ShlIsProduct(n: nat, k: nat)
    ensures Shl(n, k) == n * Pow2(k)
  {
    if k > 0 {
      ShlIsProduct(n, k - 1);
      assert 2 * (n * Pow2(k - 1)) == n * (2 * Pow2(k - 1));
    }
  }

  /** A right shift is a quotient. */
  lemma {:induction false} ShrIsQuotient(n: nat, k: nat)
    ensures Shr(n, k) == n / Pow2(k)
  {
    if k > 0 {
      ShrIsQuotient(n, k - 1);
      HalfQuotient(n, Pow2(k - 1));
    }
  }

  lemma DivisionUnique(n: int, m: int, q: int, r: int)
    requires 0 <= r < m && n == q * m + r
    ensures n / m == q && n % m == r
  {
    var d := n / m - q;
    assert d * m == (n / m) * m - q * m;
    assert d * m == r - n % m;
    assert d >= 1 ==> d * m >= m;
    assert d <= -1 ==> d * m <= -m;
  }

  lemma HalfQuotient(n: nat, p: nat)
    requires p > 0
    ensures n / (2 * p) == n / p / 2
  {
    var q := n / p;
    assert n == q * p + n % p && q == 2 * (q / 2) + q % 2;
    assert q * p == (q / 2) * (2 * p) + (q % 2) * p;
    DivisionUnique(n, 2 * p, q / 2, (q % 2) * p + n % p);
  }

  lemma HalfRemainder(n: nat, p: nat)
    requires p > 0
    ensures n % (2 * p) == 2 * (n / 2 % p) + n % 2
  {
    var q, r := n / 2 / p, n / 2 % p;
    assert n / 2 == q * p + r && n == 2 * (n / 2) + n % 2;
    assert 2 * (q * p) == q * (2 * p);
    DivisionUnique(n, 2 * p, q, 2 * r + n % 2);
  }

  lemma {:induction false} OrZero(a: nat)
    ensures Or(a, 0) == a
  {
    if a > 0 {
      OrZero(a / 2);
    }
  }

  lemma OrHalves(x: nat, b: nat)
    ensures Or(2 * x, b) == 2 * Or(x, b / 2) + b % 2
  {
    assert 2 * x / 2 == x && 2 * x % 2 == 0;
  }

  /** `|` of a shifted word and of bits below the shift is their sum. */
  lemma {:induction false} OrIsSum(a: nat, k: nat, b: nat)
    requires b < Pow2(k)
    ensures Or(Shl(a, k), b) == Shl(a, k) + b
  {
    if k == 0 {
      OrZero(a);
    } else {
      OrIsSum(a, k - 1, b / 2);
      OrHalves(Shl(a, k - 1), b);
    }
  }

  /** Two fields side by side, shifted together. */
  lemma {:induction false} OrJoins(a: nat, b: nat, j: nat, k: nat)
    requires b < Pow2(j)
    ensures Or(Shl(a, j + k), Shl(b, k)) == Shl(a * Pow2(j) + b, k)
  {
    if k == 0 {
      OrIsSum(a, j, b);
      ShlIsProduct(a, j);
    } else {
      OrJoins(a, b, j, k - 1);
      OrHalves(Shl(a, j + k - 1), Shl(b, k));
    }
  }

  lemma {:induction false} AndZero(n: nat)
    ensures And(n, 0) == 0
  {
    if n > 0 {
      AndZero(n / 2);
    }
  }

  /** `&` with a mask of `k` ones is the remainder. */
  lemma {:induction false} AndIsRemainder(n: nat, k: nat)
    ensures And(n, Pow2(k) - 1) == n % Pow2(k)
  {
    if k == 0 {
      AndZero(n);
    } else {
      var p := Pow2(k - 1);
      AndIsRemainder(n / 2, k - 1);
      assert (2 * p - 1) / 2 == p - 1 && (2 * p - 1) % 2 == 1;
      HalfRemainder(n, p);
    }
  }
}
