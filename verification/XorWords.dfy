/** Exclusive or and parity of unsigned words, as numbers. */
module XorWords {
  import opened Powers
  import opened BitStrings

  /** Bitwise exclusive or. */
  function Xor(a: nat, b: nat): nat
    decreases a + b
  {
    if a == 0 && b == 0 then 0 else 2 * Xor(a / 2, b / 2) + (a + b) % 2
  }

  lemma {:induction false} XorEqual(a: nat, b: nat)
    ensures Xor(a, b) == 0 <==> a == b
    decreases a + b
  {
    if a != 0 || b != 0 { XorEqual(a / 2, b / 2); }
  }

  lemma {:induction false} XorNone(a: nat)
    ensures Xor(a, 0) == a && Xor(0, a) == a
  {
    if a != 0 { XorNone(a / 2); }
  }

  lemma {:induction false} XorSwap(a: nat, b: nat)
    ensures Xor(a, b) == Xor(b, a)
    decreases a + b
  {
    if a != 0 || b != 0 { XorSwap(a / 2, b / 2); }
  }

  /** The recursion of Xor, also at 0. */
  lemma XorBits(a: nat, b: nat)
    ensures Xor(a, b) == 2 * Xor(a / 2, b / 2) + (a + b) % 2
    ensures Xor(a, b) / 2 == Xor(a / 2, b / 2) && Xor(a, b) % 2 == (a + b) % 2
  {
  }

  lemma {:induction false} XorAssoc(a: nat, b: nat, c: nat)
    ensures Xor(Xor(a, b), c) == Xor(a, Xor(b, c))
    decreases a + b + c
  {
    if a == 0 && b == 0 && c == 0 {
    } else {
      hide Xor;
      XorAssoc(a / 2, b / 2, c / 2);
      XorBits(a, b);
      XorBits(b, c);
      XorBits(Xor(a, b), c);
      XorBits(a, Xor(b, c));
      LowBits(a, b, c, Xor(a, b), Xor(b, c));
    }
  }

  lemma LowBits(a: nat, b: nat, c: nat, x: nat, y: nat)
    requires x % 2 == (a + b) % 2 && y % 2 == (b + c) % 2
    ensures (x + c) % 2 == (a + y) % 2
  {
  }

  /** (a ^ b) ^ (c ^ d) == (a ^ c) ^ (b ^ d). */
  lemma XorPairs(a: nat, b: nat, c: nat, d: nat)
    ensures Xor(Xor(a, b), Xor(c, d)) == Xor(Xor(a, c), Xor(b, d))
  {
    hide Xor;
    XorAssoc(a, b, Xor(c, d));
    XorAssoc(b, c, d);
    XorSwap(b, c);
    XorAssoc(c, b, d);
    XorAssoc(a, c, Xor(b, d));
  }

  lemma XorCancel(a: nat, b: nat)
    ensures Xor(Xor(a, b), b) == a && Xor(a, Xor(a, b)) == b
  {
    hide Xor;
    XorAssoc(a, b, b);
    XorAssoc(a, a, b);
    XorEqual(a, a);
    XorEqual(b, b);
    XorNone(a);
    XorNone(b);
  }

  lemma {:induction false} XorBound(a: nat, b: nat, n: nat)
    requires a < Pow2(n) && b < Pow2(n)
    ensures Xor(a, b) < Pow2(n)
    decreases n
  {
    if n > 0 { XorBound(a / 2, b / 2, n - 1); }
  }

  lemma XorStep(x: nat, y: nat, hx: nat, rx: nat, hy: nat, ry: nat)
    requires x == 2 * hx + rx && y == 2 * hy + ry && rx < 2 && ry < 2
    ensures Xor(x, y) == 2 * Xor(hx, hy) + if rx == ry then 0 else 1
  {
    hide Xor;
    XorBits(x, y);
    assert x / 2 == hx && y / 2 == hy;
  }

  lemma Halves(b: nat, n: nat) returns (h: nat, r: nat)
    requires n > 0 && b < Pow2(n)
    ensures b == 2 * h + r && r < 2 && h < Pow2(n - 1) && Pow2(n) == 2 * Pow2(n - 1)
  {
    h, r := b / 2, b % 2;
  }

  lemma ShlNext(a: nat, n: nat)
    requires n > 0
    ensures Shl(a, n) == 2 * Shl(a, n - 1)
  {
  }

  lemma Fields0(a: nat, b: nat, c: nat, d: nat)
    requires b < Pow2(0) && d < Pow2(0)
    ensures Xor(Shl(a, 0) + b, Shl(c, 0) + d) == Shl(Xor(a, c), 0) + Xor(b, d)
  {
    assert b == d == 0;
    XorNone(0);
  }

  /** Fields of n bits do not influence each other. */
  lemma {:induction false} XorFields(a: nat, b: nat, c: nat, d: nat, n: nat)
    requires b < Pow2(n) && d < Pow2(n)
    ensures Xor(Shl(a, n) + b, Shl(c, n) + d) == Shl(Xor(a, c), n) + Xor(b, d)
    decreases n
  {
    hide *;
    if n == 0 {
      Fields0(a, b, c, d);
    } else {
      var hb, rb := Halves(b, n);
      var hd, rd := Halves(d, n);
      ShlNext(a, n);
      ShlNext(c, n);
      ShlNext(Xor(a, c), n);
      XorFields(a, hb, c, hd, n - 1);
      XorStep(Shl(a, n) + b, Shl(c, n) + d, Shl(a, n - 1) + hb, rb, Shl(c, n - 1) + hd, rd);
      XorStep(b, d, hb, rb, hd, rd);
    }
  }

  /** The n low bits. */
  function Low(x: nat, n: nat): (r: nat)
    ensures r < Pow2(n)
    decreases n
  {
    if n == 0 then 0 else x % 2 + 2 * Low(x / 2, n - 1)
  }

  lemma {:induction false} LowIsMod(x: nat, n: nat)
    ensures Low(x, n) == x % Pow2(n)
    decreases n
  {
    if n > 0 {
      LowIsMod(x / 2, n - 1);
      ModHalf(x, Pow2(n - 1));
    }
  }

  lemma {:induction false} LowShr(x: nat, n: nat)
    ensures x == Shl(Shr(x, n), n) + Low(x, n)
    decreases n
  {
    if n > 0 { LowShr(x / 2, n - 1); }
  }

  lemma {:induction false} LowOfField(q: nat, r: nat, n: nat)
    requires r < Pow2(n)
    ensures Low(Shl(q, n) + r, n) == r && Shr(Shl(q, n) + r, n) == q
    decreases n
  {
    if n > 0 { LowOfField(q, r / 2, n - 1); }
  }

  /** The low and the high bits of an exclusive or. */
  lemma {:induction false} XorParts(a: nat, b: nat, n: nat)
    ensures Low(Xor(a, b), n) == Xor(Low(a, n), Low(b, n))
    ensures Shr(Xor(a, b), n) == Xor(Shr(a, n), Shr(b, n))
  {
    hide *;
    LowShr(a, n);
    LowShr(b, n);
    XorFields(Shr(a, n), Low(a, n), Shr(b, n), Low(b, n), n);
    XorBound(Low(a, n), Low(b, n), n);
    LowOfField(Xor(Shr(a, n), Shr(b, n)), Xor(Low(a, n), Low(b, n)), n);
  }

  /** Complements within n bits differ in the same bits. */
  lemma {:induction false} XorComplement(a: nat, b: nat, n: nat)
    requires a < Pow2(n) && b < Pow2(n)
    ensures Xor(Pow2(n) - 1 - a, Pow2(n) - 1 - b) == Xor(a, b)
    decreases n
  {
    if n > 0 {
      hide *;
      var ha, ra := Halves(a, n);
      var hb, rb := Halves(b, n);
      XorComplement(ha, hb, n - 1);
      XorStep(a, b, ha, ra, hb, rb);
      XorStep(Pow2(n) - 1 - a, Pow2(n) - 1 - b, Pow2(n - 1) - 1 - ha, 1 - ra, Pow2(n - 1) - 1 - hb, 1 - rb);
    }
  }

  // ------------------------------------------------------------------ parity

  /** An odd number of bits is set. */
  function Odd(w: nat): bool { if w == 0 then false else (w % 2 == 1) != Odd(w / 2) }

  lemma OddBits(a: nat)
    ensures Odd(a) == ((a % 2 == 1) != Odd(a / 2))
  {
  }

  lemma ParityBit(a: nat, b: nat)
    ensures ((a + b) % 2 == 1) == ((a % 2 == 1) != (b % 2 == 1))
  {
  }

  lemma {:induction false} OddXor(a: nat, b: nat)
    ensures Odd(Xor(a, b)) == (Odd(a) != Odd(b))
    decreases a + b
  {
    if a == 0 && b == 0 {
    } else {
      OddXor(a / 2, b / 2);
      OddBits(a);
      OddBits(b);
      OddBits(Xor(a, b));
      hide *;
      XorBits(a, b);
      ParityBit(a, b);
    }
  }

  lemma {:induction false} OddFields(a: nat, b: nat, n: nat)
    requires b < Pow2(n)
    ensures Odd(Shl(a, n) + b) == (Odd(a) != Odd(b))
    decreases n
  {
    if n > 0 {
      OddFields(a, b / 2, n - 1);
      OddBits(b);
      OddBits(Shl(a, n) + b);
    }
  }
}
