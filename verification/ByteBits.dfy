/** Bytes as numbers and as eight bits. */
module ByteBits {
  predicate Odd(b: int) { b % 2 == 1 }

  function Bit(b: bool, v: bv8): bv8 { if b then v else 0 }

  function Digit(b: bool): int { if b then 1 else 0 }

  function OfBits(a: bool, b: bool, c: bool, d: bool, e: bool, f: bool, g: bool, h: bool): bv8 {
    Bit(a, 128) | Bit(b, 64) | Bit(c, 32) | Bit(d, 16) | Bit(e, 8) | Bit(f, 4) | Bit(g, 2) | Bit(h, 1)
  }

  function OfDigits(a: bool, b: bool, c: bool, d: bool, e: bool, f: bool, g: bool, h: bool): (s: int)
    ensures 0 <= s < 0x100
  {
    2 * (2 * (2 * (2 * (2 * (2 * (2 * Digit(a) + Digit(b)) + Digit(c)) + Digit(d)) + Digit(e)) + Digit(f))
        + Digit(g)) + Digit(h)
  }

  function ToBits(b: int): bv8 {
    OfBits(Odd(b / 128), Odd(b / 64), Odd(b / 32), Odd(b / 16), Odd(b / 8), Odd(b / 4), Odd(b / 2), Odd(b))
  }

  function ToByte(x: bv8): (b: int)
    ensures 0 <= b < 0x100
  {
    OfDigits(x & 128 != 0, x & 64 != 0, x & 32 != 0, x & 16 != 0, x & 8 != 0, x & 4 != 0, x & 2 != 0, x & 1 != 0)
  }

  lemma EveryBit(a: bool, b: bool, c: bool, d: bool, e: bool, f: bool, g: bool, h: bool)
    ensures var x := OfBits(a, b, c, d, e, f, g, h);
      && (x & 128 != 0 <==> a) && (x & 64 != 0 <==> b) && (x & 32 != 0 <==> c) && (x & 16 != 0 <==> d)
      && (x & 8 != 0 <==> e) && (x & 4 != 0 <==> f) && (x & 2 != 0 <==> g) && (x & 1 != 0 <==> h)
  {
  }

  lemma FromBits(x: bv8)
    ensures OfBits(x & 128 != 0, x & 64 != 0, x & 32 != 0, x & 16 != 0, x & 8 != 0, x & 4 != 0, x & 2 != 0,
        x & 1 != 0) == x
  {
  }

  lemma Halves(q: int, h: bool)
    ensures (2 * q + Digit(h)) / 2 == q && (Odd(2 * q + Digit(h)) <==> h)
  {
  }

  lemma Quarters(b: int)
    requires 0 <= b < 0x100
    ensures b / 4 == b / 2 / 2 && b / 8 == b / 4 / 2 && b / 16 == b / 8 / 2 && b / 32 == b / 16 / 2
    ensures b / 64 == b / 32 / 2 && b / 128 == b / 64 / 2 && b / 128 / 2 == 0
  {
  }

  lemma EveryDigit(a: bool, b: bool, c: bool, d: bool, e: bool, f: bool, g: bool, h: bool)
    ensures var s := OfDigits(a, b, c, d, e, f, g, h);
      && (Odd(s / 128) <==> a) && (Odd(s / 64) <==> b) && (Odd(s / 32) <==> c) && (Odd(s / 16) <==> d)
      && (Odd(s / 8) <==> e) && (Odd(s / 4) <==> f) && (Odd(s / 2) <==> g) && (Odd(s) <==> h)
  {
    hide Odd, Digit;
    var s7 := 2 * Digit(a) + Digit(b);
    var s6 := 2 * s7 + Digit(c);
    var s5 := 2 * s6 + Digit(d);
    var s4 := 2 * s5 + Digit(e);
    var s3 := 2 * s4 + Digit(f);
    var s2 := 2 * s3 + Digit(g);
    Halves(0, a);
    Halves(Digit(a), b);
    Halves(s7, c);
    Halves(s6, d);
    Halves(s5, e);
    Halves(s4, f);
    Halves(s3, g);
    Halves(s2, h);
    Quarters(OfDigits(a, b, c, d, e, f, g, h));
  }

  lemma LastDigit(b: int)
    requires b >= 0
    ensures b == 2 * (b / 2) + Digit(Odd(b))
  {
  }

  lemma FromDigits(b: int)
    requires 0 <= b < 0x100
    ensures OfDigits(Odd(b / 128), Odd(b / 64), Odd(b / 32), Odd(b / 16), Odd(b / 8), Odd(b / 4), Odd(b / 2), Odd(b))
        == b
  {
    hide Odd, Digit;
    Quarters(b);
    LastDigit(b);
    LastDigit(b / 2);
    LastDigit(b / 4);
    LastDigit(b / 8);
    LastDigit(b / 16);
    LastDigit(b / 32);
    LastDigit(b / 64);
    LastDigit(b / 128);
  }

  /** The two forms of a byte tell the same. */
  lemma SameBits(x: bv8)
    ensures ToBits(ToByte(x)) == x
  {
    hide OfBits, OfDigits, Odd;
    EveryDigit(x & 128 != 0, x & 64 != 0, x & 32 != 0, x & 16 != 0, x & 8 != 0, x & 4 != 0, x & 2 != 0, x & 1 != 0);
    FromBits(x);
  }

  lemma SameByte(b: int)
    requires 0 <= b < 0x100
    ensures ToByte(ToBits(b)) == b
  {
    hide OfBits, OfDigits, Odd;
    EveryBit(Odd(b / 128), Odd(b / 64), Odd(b / 32), Odd(b / 16), Odd(b / 8), Odd(b / 4), Odd(b / 2), Odd(b));
    FromDigits(b);
  }
}
