/** lParityMask (checksum_amd64.cxx:362-400): the parity of a 32-bit word, by folding and a table of 256
    entries, here sixteen lines of sixteen. */
module ParityMask {
  import opened Powers
  import opened BitStrings
  import opened XorWords

  const EVEN: seq<int> := [0, -1, -1, 0, -1, 0, 0, -1, -1, 0, 0, -1, 0, -1, -1, 0]
  const ODD: seq<int> := [-1, 0, 0, -1, 0, -1, -1, 0, 0, -1, -1, 0, -1, 0, 0, -1]
  const TABLE: seq<seq<int>> :=
    [EVEN, ODD, ODD, EVEN, ODD, EVEN, EVEN, ODD, ODD, EVEN, EVEN, ODD, EVEN, ODD, ODD, EVEN]

  lemma FourBits(y: nat)
    requires y < 16
    ensures Odd(y) == ((y % 2 == 1) != ((y / 2 % 2 == 1) != ((y / 4 % 2 == 1) != (y / 8 % 2 == 1))))
  {
  }

  lemma LineEntry(y: nat)
    requires y < 16
    ensures EVEN[y] == (if Odd(y) then -1 else 0) && ODD[y] == (if Odd(y) then 0 else -1)
    ensures TABLE[y] == if Odd(y) then ODD else EVEN
  {
    hide Odd;
    FourBits(y);
  }

  /** All ones for odd parity, and 0 for even. */
  function Mask(dw: nat): int
  {
    var dw2 := Xor(dw, dw / 0x10000);
    var dw4 := Xor(dw2, dw2 / 0x100);
    var i := dw4 % 0x100;
    TABLE[i / 16][i % 16]
  }

  lemma Powers16(a: nat, b: nat)
    requires a == 8 && b == 16
    ensures Pow2(a) == 0x100 && Pow2(b) == 0x10000
  {
    assert Pow2(8) == 0x100;
    Pow2Add(8, 8);
  }

  /** Folding the upper half of a word onto the lower keeps the parity in the lower half. */
  lemma FoldHalf(w: nat, n: nat)
    requires w < Pow2(n + n)
    ensures Odd(Low(Xor(w, Shr(w, n)), n)) == Odd(w)
  {
    hide *;
    var h, l := Shr(w, n), Low(w, n);
    LowShr(w, n);
    ShrBound(w, n, n);
    LowSmall(h, n);
    XorParts(w, h, n);
    OddXor(l, h);
    OddFields(h, l, n);
  }

  lemma {:induction false} LowSmall(h: nat, n: nat)
    requires h < Pow2(n)
    ensures Low(h, n) == h
    decreases n
  {
    if n > 0 { LowSmall(h / 2, n - 1); }
  }

  lemma {:induction false} LowOfLow(x: nat, n: nat, m: nat)
    ensures Low(Low(x, n + m), n) == Low(x, n) && Shr(Low(x, n + m), n) == Low(Shr(x, n), m)
    decreases n
  {
    if n > 0 { LowOfLow(x / 2, n - 1, m); }
  }

  /** Only the 16 low bits of a word reach its 8 low bits by one folding. */
  lemma LowFold(x: nat, n: nat)
    ensures Low(Xor(x, Shr(x, n)), n) == Low(Xor(Low(x, n + n), Shr(Low(x, n + n), n)), n)
  {
    hide *;
    var r := Low(x, n + n);
    LowOfLow(x, n, n);
    XorParts(x, Shr(x, n), n);
    XorParts(r, Shr(r, n), n);
    LowOfLow(Shr(x, n), n, 0);
    LowSmall(Low(Shr(x, n), n), n);
  }

  lemma Lookup(i: nat)
    requires i < 0x100
    ensures TABLE[i / 16][i % 16] == if Odd(i) then -1 else 0
  {
    hide Odd;
    LineEntry(i / 16);
    LineEntry(i % 16);
    Sixteen(4);
    ShlIs(i / 16, 4);
    OddFields(i / 16, i % 16, 4);
  }

  lemma Sixteen(n: nat)
    requires n == 4
    ensures Pow2(n) == 16
  {
    assert Pow2(4) == 16;
  }

  /** The table agrees with the parity of the whole word. */
  lemma MaskIsParity(dw: nat)
    requires dw < Pow2(32)
    ensures Mask(dw) == if Odd(dw) then -1 else 0
  {
    hide Odd, Xor, TABLE, Pow2, Low, Shr;
    Powers16(8, 16);
    ShrIsDiv(dw, 16);
    var dw2 := Xor(dw, dw / 0x10000);
    ShrIsDiv(dw2, 8);
    LowIsMod(Xor(dw2, dw2 / 0x100), 8);
    FoldHalf(dw, 16);
    FoldHalf(Low(dw2, 16), 8);
    LowFold(dw2, 8);
    Lookup(Low(Xor(dw2, dw2 / 0x100), 8));
  }
}
