/** Bitwise or and and of natural numbers, in the two forms the sources use: joining fields that share no bit,
    and masking with a power of two minus one. */
module Bits {
  /** Bitwise or of two numbers. */
  function Or(a: nat, b: nat): nat {
    if a == 0 then b else if b == 0 then a
    else (if a % 2 == 1 || b % 2 == 1 then 1 else 0) + 2 * Or(a / 2, b / 2)
  }

  function Pow2(k: nat): (p: nat)
    ensures p >= 1
  {
    if k == 0 then 1 else 2 * Pow2(k - 1)
  }

  /** Numbers that share no bit are joined by adding them. */
  lemma {:induction false} OrDisjoint(q: nat, b: nat, k: nat)
    requires b < Pow2(k)
    ensures q * Pow2(k) >= 0 && Or(q * Pow2(k), b) == q * Pow2(k) + b
    decreases k
  {
    if k > 0 && q != 0 && b != 0 {
      var p := Pow2(k - 1);
      var a := q * p;
      assert q * Pow2(k) == 2 * a;
      OrDisjoint(q, b / 2, k - 1);
      OrEven(a, b);
    }
  }

  lemma OrEven(a: nat, b: nat)
    requires Or(a, b / 2) == a + b / 2
    ensures Or(2 * a, b) == 2 * a + b
  {
    if a != 0 && b != 0 {
      assert 2 * a % 2 == 0 && 2 * a / 2 == a;
    }
  }

  /** Bitwise and of two numbers. */
  function And(a: nat, b: nat): nat {
    if a == 0 || b == 0 then 0
    else (if a % 2 == 1 && b % 2 == 1 then 1 else 0) + 2 * And(a / 2, b / 2)
  }

  lemma AndStep(a: nat, p: nat)
    requires a > 0 && p >= 1
    ensures And(a, 2 * p - 1) == a % 2 + 2 * And(a / 2, p - 1)
  {
    assert (2 * p - 1) / 2 == p - 1 && (2 * p - 1) % 2 == 1;
  }

  /** Masking with 2^k - 1 keeps the remainder by 2^k. */
  lemma {:induction false} MaskIsMod(a: nat, k: nat)
    ensures And(a, Pow2(k) - 1) == a % Pow2(k)
    decreases k, 1
  {
    hide And;
    if k == 0 || a == 0 {
      AndZero(a, Pow2(k) - 1);
      ModOfZero(Pow2(k));
    } else {
      Halve(a, k);
    }
  }

  lemma AndZero(a: nat, b: nat)
    ensures a == 0 || b == 0 ==> And(a, b) == 0
  {
  }

  lemma ModOfZero(n: nat)
    requires n > 0
    ensures 0 % n == 0
  {
  }

  lemma Halve(a: nat, k: nat)
    requires k > 0 && a > 0
    ensures And(a, Pow2(k) - 1) == a % Pow2(k)
    decreases k, 0
  {
    hide And, Pow2;
    PowStep(k);
    MaskIsMod(a / 2, k - 1);
    HalveBy(a, Pow2(k - 1));
  }

  lemma HalveBy(a: nat, p: nat)
    requires a > 0 && p >= 1 && And(a / 2, p - 1) == a / 2 % p
    ensures And(a, 2 * p - 1) == a % (2 * p)
  {
    hide And;
    AndStep(a, p);
    HalfMod(a, p);
  }

  lemma PowStep(k: nat)
    requires k > 0
    ensures Pow2(k) == 2 * Pow2(k - 1) && Pow2(k - 1) >= 1
  {
  }

  lemma HalfMod(a: nat, p: nat)
    requires p >= 1
    ensures a % (2 * p) == a % 2 + 2 * (a / 2 % p)
  {
    var h := a / 2;
    assert h == h / p * p + h % p;
    assert a == (2 * p) * (h / p) + (a % 2 + 2 * (h % p));
    RemainderOf(2 * p, h / p, a % 2 + 2 * (h % p));
  }

  lemma MulBound(d: int, m: int)
    requires d > 0
    ensures m >= 1 ==> d * m >= d
    ensures m <= -1 ==> d * m <= -d
  {
  }

  /** Quotient and remainder are unique. */
  lemma RemainderOf(d: int, q: int, r: int)
    requires 0 <= r < d
    ensures (d * q + r) % d == r && (d * q + r) / d == q
  {
    var x := d * q + r;
    var q', r' := x / d, x % d;
    assert x == d * q' + r';
    assert d * (q' - q) == r - r';
    MulBound(d, q' - q);
  }

  /** Two numbers less than d apart that leave the same remainder are equal. */
  lemma NearbyEqual(d: int, a: int, b: int)
    requires d > 0 && -d < a - b < d && a % d == b % d
    ensures a == b
  {
    assert a == d * (a / d) + a % d && b == d * (b / d) + b % d;
    assert d * (a / d - b / d) == a - b;
    MulBound(d, a / d - b / d);
  }

  lemma SmallPowers()
    ensures Pow2(1) == 2 && Pow2(2) == 4 && Pow2(4) == 16
  {
    assert Pow2(3) == 8;
  }

}
