/** Deciding whether a block has a single flipped bit (checksum.cxx:330-427, xsum.cxx:158-197). */
module BlockRepair {
  import opened Powers
  import opened BitStrings
  import opened XorWords
  import opened Ecc
  import opened BitFlips

  const UL_MAX: nat := 0xffff_ffff

  function BitsSet(dw: nat): nat { if dw == 0 then 0 else dw % 2 + BitsSet(dw / 2) }

  /** CbitSet looks at 32 bits one by one. */
  method CbitSet(dw: nat) returns (n: nat)
    requires dw < Pow2(32)
    ensures n == BitsSet(dw)
  {
    hide Pow2;
    n := 0;
    var i: nat := 0;
    while i < 32
      invariant i <= 32 && n + BitsSet(Shr(dw, i)) == BitsSet(dw)
    {
      hide Shr;
      ShrTwice(dw, i, 1);
      ShrByOne(Shr(dw, i));
      if Shr(dw, i) % 2 == 1 { n := n + 1; }
      i := i + 1;
    }
    ShrSmall(dw, 32);
  }

  lemma ShrByOne(w: nat)
    ensures Shr(w, 1) == w / 2
  {
  }

  lemma {:induction false} OneBitSet(c: nat)
    ensures BitsSet(Pow2(c)) == 1
  {
    if c > 0 { OneBitSet(c - 1); }
  }

  /** The two halves of the difference of the codes are complementary within the block's positions. */
  function EccIsCorrectable(cb: nat, expected: nat, actual: nat): bool
    requires cb > 0
  {
    var d := Xor(actual, expected);
    Xor(d / 0x10000, d) % (8 * cb) == 8 * cb - 1
  }

  /** FECCErrorIsCorrectable. */
  function IsCorrectable(cb: nat, expected: Checksum, actual: Checksum): bool
    requires cb > 0
  {
    EccIsCorrectable(cb, expected.ecc, actual.ecc) && BitsSet(Xor(actual.xor, expected.xor)) == 1
  }

  function IbitCorrupted(cb: nat, expected: nat, actual: nat): nat
  {
    var d := Xor(actual, expected);
    if d == 0 then UL_MAX
    else if d % 0x10000 / 8 >= cb then UL_MAX
    else d % 0x10000
  }

  datatype Verdict = NoError | Correctable(ibit: nat) | Fatal

  /** FTryFixBlock; reserved is the bit that must not be flipped, UINT_MAX for none. */
  method TryFixBlock(cb: nat, reserved: nat, expected: Checksum, actual: Checksum) returns (v: Verdict)
    requires cb > 0 && expected.xor < Pow2(32) && actual.xor < Pow2(32)
    ensures v == Judge(cb, reserved, expected, actual)
  {
    hide Xor, Pow2;
    if expected == actual { return NoError; }
    if EccIsCorrectable(cb, expected.ecc, actual.ecc) {
      XorBound(actual.xor, expected.xor, 32);
      var bits := CbitSet(Xor(actual.xor, expected.xor));
      if bits == 1 {
        var ibit := IbitCorrupted(cb, expected.ecc, actual.ecc);
        if reserved != ibit && ibit < 8 * cb { return Correctable(ibit); }
      }
    }
    return Fatal;
  }

  ghost function Judge(cb: nat, reserved: nat, expected: Checksum, actual: Checksum): Verdict
    requires cb > 0
  {
    if expected == actual then NoError
    else
      var ibit := IbitCorrupted(cb, expected.ecc, actual.ecc);
      if IsCorrectable(cb, expected, actual) && reserved != ibit && ibit < 8 * cb then Correctable(ibit) else Fatal
  }

  // ------------------------------------------------------------------ what the difference says

  lemma ComplementsMeet(i: nat, k: nat)
    requires i < Pow2(k)
    ensures Xor(Pow2(k) - 1 - i, i) == Pow2(k) - 1
  {
    hide Xor, Pow2;
    Positive(k);
    XorComplement(i, 0, k);
    XorNone(i);
    XorCancel(Pow2(k) - 1 - i, Pow2(k) - 1);
    XorAssoc(Pow2(k) - 1 - i, Pow2(k) - 1 - i, Pow2(k) - 1);
  }

  lemma FoldedDelta(high: nat, low: nat, k: nat)
    requires low < 0x10000 && k <= 16
    ensures Xor((high * 0x10000 + low) / 0x10000, high * 0x10000 + low) % Pow2(k) == Low(Xor(high, low), k)
  {
    hide Xor, Pow2, Low;
    var d := high * 0x10000 + low;
    assert d / 0x10000 == high;
    LowIsMod(Xor(high, d), k);
    XorParts(high, d, k);
    XorParts(high, low, k);
    LowOfWide(high, low, k);
  }

  lemma LowOfWide(high: nat, low: nat, k: nat)
    requires k <= 16
    ensures Low(high * 0x10000 + low, k) == Low(low, k)
  {
    hide Low, Pow2, Shl, Shr;
    SizeOf16(16);
    Pow2Add(16 - k, k);
    var q := high * Pow2(16 - k);
    LowShr(low, k);
    ShlIs(Shr(low, k), k);
    ShlIs(q + Shr(low, k), k);
    Regroup(high, Pow2(16 - k), Pow2(k), Shr(low, k), Low(low, k));
    LowBelow(low, k);
    LowOfField(q + Shr(low, k), Low(low, k), k);
  }

  lemma LowBelow(x: nat, k: nat)
    ensures Low(x, k) < Pow2(k)
  {
  }

  lemma Regroup(h: nat, a: nat, b: nat, s: nat, r: nat)
    ensures h * (a * b) + (s * b + r) == (h * a + s) * b + r
  {
  }

  /** One flip is recognised, and its position read off. */
  lemma OneFlip(cb: nat, k: nat, i: nat, expected: Checksum, actual: Checksum, c: nat, reserved: nat)
    requires 8 * cb == Pow2(k) && 3 <= k <= 16 && i < 8 * cb && i != reserved
    requires Xor(actual.ecc, expected.ecc) == (8 * cb - 1 - i) * 0x10000 + i
    requires Xor(actual.xor, expected.xor) == Pow2(c)
    ensures cb > 0 && Judge(cb, reserved, expected, actual) == Correctable(i)
  {
    hide Xor, Pow2, Low, BitsSet;
    TopBits(k);
    Positive(k);
    Positive(c);
    XorEqual(actual.xor, expected.xor);
    OneBitSet(c);
    FoldedDelta(8 * cb - 1 - i, i, k);
    ComplementsMeet(i, k);
    LowOfTop(k);
    DeltaParts(8 * cb, i);
  }

  lemma LowOfTop(k: nat)
    ensures Low(Pow2(k) - 1, k) == Pow2(k) - 1
  {
    ShlZero(k);
    LowOfField(0, Pow2(k) - 1, k);
  }

  lemma DeltaParts(bits: nat, i: nat)
    requires i < bits <= 0x10000 && bits > 1
    ensures var d := (bits - 1 - i) * 0x10000 + i; d != 0 && d % 0x10000 == i
  {
    if i == 0 { assert (bits - 1 - i) * 0x10000 > 0; }
  }

  /** Two flips are noticed, and never taken for one. */
  lemma TwoFlips(cb: nat, k: nat, i: nat, j: nat, expected: Checksum, actual: Checksum, reserved: nat)
    requires 8 * cb == Pow2(k) && 3 <= k <= 16 && i < 8 * cb && j < 8 * cb && i != j
    requires Xor(actual.ecc, expected.ecc) == Xor((8 * cb - 1 - i) * 0x10000 + i, (8 * cb - 1 - j) * 0x10000 + j)
    ensures cb > 0 && Judge(cb, reserved, expected, actual) == Fatal
  {
    hide Xor, Pow2, Low, BitsSet;
    TopBits(k);
    Positive(k);
    Fields16(8 * cb - 1 - i, i, 8 * cb - 1 - j, j);
    XorComplement(i, j, k);
    XorBound(i, j, k);
    var x := Xor(i, j);
    XorEqual(i, j);
    XorEqual(actual.ecc, expected.ecc);
    FoldedDelta(x, x, k);
    XorEqual(x, x);
    LowOfNone(k);
  }

  lemma LowOfNone(k: nat)
    ensures Low(0, k) == 0
  {
    LowIsMod(0, k);
  }
}
