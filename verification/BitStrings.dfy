/** Bit strings, their two numeric readings, and the bit reversal of Xpress9Misc.c. */
module BitStrings {
  import opened Powers

  type Bits = seq<bool>

  function Bit(b: bool): nat { if b then 1 else 0 }

  /** The n low bits of v, least significant first: the order in which BIOWR emits a value. */
  function Lsb(v: nat, n: nat): (s: Bits)
    ensures |s| == n
    decreases n
  {
    if n == 0 then [] else [v % 2 == 1] + Lsb(v / 2, n - 1)
  }

  /** The value of a bit string read least significant bit first: what BIORD_LOOKUP returns. */
  function FromLsb(s: Bits): (v: nat)
    ensures v < Pow2(|s|)
  {
    if s == [] then 0 else Bit(s[0]) + 2 * FromLsb(s[1..])
  }

  /** The n low bits of v, most significant first: the path from the root of a code tree. */
  function Msb(v: nat, n: nat): (s: Bits)
    ensures |s| == n
    decreases n
  {
    if n == 0 then [] else Msb(v / 2, n - 1) + [v % 2 == 1]
  }

  /** The value of a bit string read most significant bit first. */
  function FromMsb(s: Bits): (v: nat)
    ensures v < Pow2(|s|)
  {
    if s == [] then 0 else 2 * FromMsb(s[..|s| - 1]) + Bit(s[|s| - 1])
  }

  lemma {:induction false} FromLsbOfLsb(v: nat, n: nat)
    ensures FromLsb(Lsb(v, n)) == v % Pow2(n)
    ensures v < Pow2(n) ==> FromLsb(Lsb(v, n)) == v
    decreases n
  {
    if n != 0 {
      FromLsbOfLsb(v / 2, n - 1);
      assert Lsb(v, n)[1..] == Lsb(v / 2, n - 1);
      ModHalf(v, Pow2(n - 1));
    }
    if v < Pow2(n) { ModOfProduct(0, Pow2(n), v); }
  }

  lemma ModHalf(v: nat, m: nat)
    requires m > 0
    ensures v % (2 * m) == 2 * (v / 2 % m) + v % 2
  {
    var q, r := v / 2 / m, v / 2 % m;
    assert v / 2 == q * m + r;
    assert v == q * (2 * m) + (2 * r + v % 2);
    ModOfProduct(q, 2 * m, 2 * r + v % 2);
  }

  lemma ModOfProduct(q: nat, m: nat, r: nat)
    requires r < m
    ensures (q * m + r) % m == r
  {
    DivOfProduct(q, m, r);
    var n := q * m + r;
    assert n == n / m * m + n % m;
  }

  lemma {:induction false} LsbOfFromLsb(s: Bits)
    ensures Lsb(FromLsb(s), |s|) == s
  {
    if s != [] {
      LsbOfFromLsb(s[1..]);
      assert FromLsb(s) / 2 == FromLsb(s[1..]);
    }
  }

  lemma {:induction false} MsbOfFromMsb(s: Bits)
    ensures Msb(FromMsb(s), |s|) == s
  {
    if s != [] {
      MsbOfFromMsb(s[..|s| - 1]);
      assert FromMsb(s) / 2 == FromMsb(s[..|s| - 1]);
    }
  }

  lemma {:induction false} FromMsbOfMsb(v: nat, n: nat)
    requires v < Pow2(n)
    ensures FromMsb(Msb(v, n)) == v
    decreases n
  {
    if n != 0 {
      FromMsbOfMsb(v / 2, n - 1);
      var s := Msb(v, n);
      assert s[..n - 1] == Msb(v / 2, n - 1);
    }
  }

  lemma DivHalf(v: nat, n: nat)
    requires n > 0
    ensures v / 2 / Pow2(n - 1) == v / Pow2(n)
  {
    DivDiv(v, 2, Pow2(n - 1));
  }

  /** A left shift by n bits. */
  function Shl(v: nat, n: nat): nat
    decreases n
  {
    if n == 0 then v else 2 * Shl(v, n - 1)
  }

  lemma {:induction false} ShlIs(v: nat, n: nat)
    ensures Shl(v, n) == v * Pow2(n)
    decreases n
  {
    if n != 0 {
      ShlIs(v, n - 1);
      MulTwo(v, Pow2(n - 1));
    }
  }

  lemma {:induction false} ShlAdd(v: nat, w: nat, n: nat)
    ensures Shl(v + w, n) == Shl(v, n) + Shl(w, n)
    decreases n
  {
    if n != 0 { ShlAdd(v, w, n - 1); }
  }

  lemma {:induction false} ShlTwice(v: nat, a: nat, b: nat)
    ensures Shl(Shl(v, a), b) == Shl(v, a + b)
    decreases b
  {
    if b != 0 { ShlTwice(v, a, b - 1); }
  }

  lemma {:induction false} ShlZero(n: nat)
    ensures Shl(0, n) == 0
    decreases n
  {
    if n != 0 { ShlZero(n - 1); }
  }

  lemma {:induction false} ShrOfShl(v: nat, n: nat)
    ensures Shr(Shl(v, n), n) == v
    decreases n
  {
    if n != 0 {
      assert Shl(v, n) / 2 == Shl(v, n - 1);
      ShrOfShl(v, n - 1);
    }
  }

  /** A right shift by n bits. */
  function Shr(v: nat, n: nat): nat
    decreases n
  {
    if n == 0 then v else Shr(v / 2, n - 1)
  }

  lemma {:induction false} ShrIsDiv(v: nat, n: nat)
    ensures Shr(v, n) == v / Pow2(n)
    decreases n
  {
    if n != 0 {
      ShrIsDiv(v / 2, n - 1);
      DivHalf(v, n);
    }
  }

  lemma {:induction false} ShrTwice(v: nat, a: nat, b: nat)
    ensures Shr(Shr(v, a), b) == Shr(v, a + b)
    decreases a
  {
    if a != 0 { ShrTwice(v / 2, a - 1, b); }
  }

  lemma {:induction false} ShrBound(v: nat, n: nat, m: nat)
    requires v < Pow2(n + m)
    ensures Shr(v, m) < Pow2(n)
    decreases m
  {
    if m != 0 { ShrBound(v / 2, n, m - 1); }
  }

  /** Shifting out the low part of a number built from a high and a low part. */
  lemma ShrOfProduct(q: nat, n: nat, r: nat)
    requires r < Pow2(n)
    ensures Shr(q * Pow2(n) + r, n) == q
  {
    ShrIsDiv(q * Pow2(n) + r, n);
    DivOfProduct(q, Pow2(n), r);
  }

  /** The interval of numbers whose high part is q. */
  lemma ShrInterval(x: nat, n: nat, q: nat)
    ensures Shr(x, n) == q <==> q * Pow2(n) <= x < (q + 1) * Pow2(n)
  {
    ShrIsDiv(x, n);
    DivInterval(x, Pow2(n), q);
  }

  lemma DivInterval(x: nat, m: nat, q: nat)
    requires m > 0
    ensures x / m == q <==> q * m <= x < (q + 1) * m
  {
    assert (q + 1) * m == q * m + m;
    if q * m <= x < q * m + m { DivOfProduct(q, m, x - q * m); }
    assert x == x / m * m + x % m;
  }

  lemma {:induction false} ShrSmall(v: nat, n: nat)
    requires v < Pow2(n)
    ensures Shr(v, n) == 0
    decreases n
  {
    if n != 0 { ShrSmall(v / 2, n - 1); }
  }

  /** Writing a value in two pieces, low bits first. */
  lemma {:induction false} LsbSplit(v: nat, n: nat, m: nat)
    ensures Lsb(v, n + m) == Lsb(v, n) + Lsb(Shr(v, n), m)
    decreases n
  {
    if n == 0 {
      assert Lsb(v, 0) + Lsb(v, m) == Lsb(v, m);
    } else {
      LsbSplit(v / 2, n - 1, m);
      var low, high := Lsb(v / 2, n - 1), Lsb(Shr(v, n), m);
      assert Lsb(v, n + m) == [v % 2 == 1] + (low + high) by {
        assert Lsb(v / 2, n + m - 1) == low + high;
      }
      assert [v % 2 == 1] + (low + high) == ([v % 2 == 1] + low) + high;
    }
  }

  lemma {:induction false} FromLsbConcat(a: Bits, b: Bits)
    ensures FromLsb(a + b) == FromLsb(a) + Shl(FromLsb(b), |a|)
  {
    if a == [] {
      assert a + b == b;
    } else {
      FromLsbConcat(a[1..], b);
      assert (a + b)[1..] == a[1..] + b;
    }
  }

  lemma {:induction false} FromMsbConcat(a: Bits, b: Bits)
    ensures FromMsb(a + b) == Shl(FromMsb(a), |b|) + FromMsb(b)
    decreases |b|
  {
    if b == [] {
      assert a + b == a;
    } else {
      var b' := b[..|b| - 1];
      FromMsbConcat(a, b');
      assert (a + b)[..|a + b| - 1] == a + b';
    }
  }

  lemma MulTwo(x: nat, y: nat)
    ensures 2 * (x * y) == x * (2 * y)
  {
  }

  lemma {:induction false} FromMsbPrefix(s: Bits, m: nat)
    requires m <= |s|
    ensures Shr(FromMsb(s), |s| - m) == FromMsb(s[..m])
  {
    if m == |s| {
      assert s[..m] == s;
    } else {
      var t := s[..|s| - 1];
      FromMsbPrefix(t, m);
      assert t[..m] == s[..m];
      assert FromMsb(s) / 2 == FromMsb(t);
    }
  }

  function Reversed(s: Bits): (r: Bits)
    ensures |r| == |s|
  {
    if s == [] then [] else Reversed(s[1..]) + [s[0]]
  }

  lemma {:induction false} ReversedConcat(a: Bits, b: Bits)
    ensures Reversed(a + b) == Reversed(b) + Reversed(a)
  {
    if a == [] {
      assert a + b == b && Reversed(b) + [] == Reversed(b);
    } else {
      ReversedConcat(a[1..], b);
      assert (a + b)[1..] == a[1..] + b;
    }
  }

  lemma {:induction false} ReversedMsb(v: nat, n: nat)
    ensures Reversed(Msb(v, n)) == Lsb(v, n)
    ensures Reversed(Lsb(v, n)) == Msb(v, n)
    decreases n
  {
    if n != 0 {
      ReversedMsb(v / 2, n - 1);
      ReversedConcat(Msb(v / 2, n - 1), [v % 2 == 1]);
      assert Reversed([v % 2 == 1]) == [v % 2 == 1];
      assert Lsb(v, n)[1..] == Lsb(v / 2, n - 1);
    }
  }

  lemma {:induction false} ReversedTwice(s: Bits)
    ensures Reversed(Reversed(s)) == s
  {
    if s != [] {
      ReversedTwice(s[1..]);
      ReversedConcat(Reversed(s[1..]), [s[0]]);
      assert Reversed([s[0]]) == [s[0]];
    }
  }

  lemma {:induction false} ShlBit(b: nat, n: nat)
    requires b <= 1
    ensures Shl(b, n) <= Pow2(n)
    decreases n
  {
    if n != 0 { ShlBit(b, n - 1); }
  }

  /** The reversal of the n low bits of v. */
  function Reverse(v: nat, n: nat): (r: nat)
    ensures r < Pow2(n)
    decreases n
  {
    if n == 0 then 0 else
      ShlBit(v % 2, n - 1);
      Reverse(v / 2, n - 1) + Shl(v % 2, n - 1)
  }

  /** Reading a number's bits in the opposite order reverses it. */
  lemma {:induction false} ReverseIs(v: nat, n: nat)
    ensures Reverse(v, n) == FromLsb(Msb(v, n))
    decreases n
  {
    if n != 0 {
      ReverseIs(v / 2, n - 1);
      var last := [v % 2 == 1];
      FromLsbConcat(Msb(v / 2, n - 1), last);
      assert FromLsb(last) == v % 2 by { assert last[1..] == []; }
    }
  }

  lemma ReverseBits(v: nat, n: nat)
    ensures Lsb(Reverse(v, n), n) == Msb(v, n)
  {
    ReverseIs(v, n);
    LsbOfFromLsb(Msb(v, n));
  }

  lemma ReverseInvolutive(v: nat, n: nat)
    requires v < Pow2(n)
    ensures Reverse(Reverse(v, n), n) == v
  {
    ReverseIs(Reverse(v, n), n);
    ReverseBits(v, n);
    var r := Reverse(v, n);
    ReversedMsb(r, n);
    ReversedMsb(v, n);
    ReversedTwice(Lsb(v, n));
    FromLsbOfLsb(v, n);
  }

  /** A lookup with the next |s| bits of the stream hits the slot of their most-significant-first value. */
  lemma LookupIndex(s: Bits)
    ensures Reverse(FromMsb(s), |s|) == FromLsb(s)
  {
    ReverseIs(FromMsb(s), |s|);
    MsbOfFromMsb(s);
  }
}
