/** Division with remainder for a divisor that is not a constant. */
module Arith {
  lemma MulMono(b: int, x: int, y: int)
    requires b >= 0 && x <= y
    ensures b * x <= b * y
  {
  }

  /** Rounding up to whole blocks of b. */
  lemma RoundsUp(n: int, b: int, count: int)
    requires n > 0 && b > 0 && count == (n + b - 1) / b
    ensures count > 0 && n <= b * count
  {
    assert n + b - 1 == b * count + (n + b - 1) % b;
    if count <= 0 {
      MulMono(b, count, 0);
    }
  }

  /** A quotient and a remainder in range are the quotient and the remainder. */
  lemma QuotientRemainder(p: int, b: int, q: int, r: int)
    requires b > 0 && p == b * q + r && 0 <= r < b
    ensures p / b == q && p % b == r
  {
    assert p == b * (p / b) + p % b && 0 <= p % b < b;
    if p / b < q {
      MulMono(b, p / b, q - 1);
    } else if p / b > q {
      MulMono(b, q, p / b - 1);
    }
  }
}

/** The bit operators of the code on natural numbers, and the arithmetic they amount to. */
module Bits {
  import opened Arith

  function Pow2(n: nat): (p: nat)
    ensures p >= 1
  {
    if n == 0 then 1 else 2 * Pow2(n - 1)
  }

  function And(a: nat, b: nat): nat {
    if a == 0 || b == 0 then 0
    else (if a % 2 == 1 && b % 2 == 1 then 1 else 0) + 2 * And(a / 2, b / 2)
  }

  function Or(a: nat, b: nat): nat {
    if a == 0 then b else if b == 0 then a
    else (if a % 2 == 1 || b % 2 == 1 then 1 else 0) + 2 * Or(a / 2, b / 2)
  }

  function Xor(a: nat, b: nat): nat {
    if a == 0 then b else if b == 0 then a
    else (if a % 2 != b % 2 then 1 else 0) + 2 * Xor(a / 2, b / 2)
  }

  lemma Pow2Sum(m: nat, n: nat)
    ensures Pow2(m + n) == Pow2(m) * Pow2(n)
  {
    if m > 0 {
      Pow2Sum(m - 1, n);
      assert Pow2(m + n) == 2 * (Pow2(m - 1) * Pow2(n));
    }
  }

  lemma Pow2Mono(m: nat, n: nat)
    requires m <= n
    ensures Pow2(m) <= Pow2(n)
  {
    if m < n {
      Pow2Mono(m, n - 1);
    }
  }

  /** x & (2^n - 1) keeps the n low bits. */
  lemma {:induction false} AndMask(low: nat, high: nat, n: nat)
    requires low < Pow2(n)
    ensures And(low + high * Pow2(n), Pow2(n) - 1) == low
  {
    if n > 0 {
      HalfOf(low, high, n);
      AndMask(low / 2, high, n - 1);
      assert (Pow2(n) - 1) / 2 == Pow2(n - 1) - 1;
    }
  }

  lemma AndLow(x: nat, low: nat, high: nat, n: nat, p: nat)
    requires p == Pow2(n) && x == low + high * p && low < p
    ensures And(x, p - 1) == low
  {
    AndMask(low, high, n);
  }

  lemma HalfOf(low: nat, high: nat, n: nat)
    requires n > 0
    ensures (low + high * Pow2(n)) / 2 == low / 2 + high * Pow2(n - 1)
    ensures (low + high * Pow2(n)) % 2 == low % 2
  {
    var c := high * Pow2(n - 1);
    assert high * Pow2(n) == 2 * c;
  }

  /** a | (b << n) is a sum when a has only n bits. */
  lemma {:induction false} OrDisjoint(a: nat, b: nat, n: nat)
    requires a < Pow2(n)
    ensures Or(a, b * Pow2(n)) == a + b * Pow2(n)
  {
    if n > 0 && a != 0 && b != 0 {
      var c := b * Pow2(n - 1);
      assert b * Pow2(n) == 2 * c;
      OrDisjoint(a / 2, b, n - 1);
    }
  }

  lemma {:induction false} OrBound(a: nat, b: nat, n: nat)
    requires a < Pow2(n) && b < Pow2(n)
    ensures Or(a, b) < Pow2(n)
  {
    if a != 0 && b != 0 {
      OrBound(a / 2, b / 2, n - 1);
    }
  }

  /** x ^ (2^n - 1) flips the n low bits. */
  lemma {:induction false} XorOnes(x: nat, n: nat)
    requires x < Pow2(n)
    ensures Xor(x, Pow2(n) - 1) == Pow2(n) - 1 - x
  {
    if n > 0 && x != 0 {
      XorOnes(x / 2, n - 1);
    }
  }
}
