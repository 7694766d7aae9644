/** The old page checksum: the exclusive or of all words but the first, with a seed, computed 32 and 64
    bits (checksum.cxx:165-241) and 128 bits (checksum_amd64.cxx:118-164) at a time. */
module OldChecksum {
  import opened Powers
  import opened BitStrings
  import opened XorWords
  import opened Ecc
  import opened EccColumns

  const SEED: nat := 0x89ab_cdef

  /** The first word is where the checksum itself is stored. */
  ghost function OldFormat(ws: seq<nat>): nat
    requires ws != []
  {
    Xor(SEED, XorAll(ws[1..]))
  }

  lemma {:induction false} XorTail(ws: seq<nat>)
    requires ws != []
    ensures XorAll(ws) == Xor(ws[0], XorAll(ws[1..]))
  {
    var n := |ws| - 1;
    if n == 0 {
      assert ws == [ws[0]] && ws[..0] == [];
      XorNone(ws[0]);
    } else {
      hide Xor;
      XorTail(ws[..n]);
      assert ws[..n][1..] == ws[1..][..n - 1];
      XorAssoc(ws[0], XorAll(ws[1..][..n - 1]), ws[n]);
    }
  }

  /** Counting the first word twice removes it. */
  lemma FirstTwice(ws: seq<nat>)
    requires ws != []
    ensures Xor(Xor(SEED, ws[0]), XorAll(ws)) == OldFormat(ws)
  {
    hide Xor, XorAll;
    XorTail(ws);
    var rest := XorAll(ws[1..]);
    XorAssoc(SEED, ws[0], Xor(ws[0], rest));
    XorCancel(ws[0], rest);
  }

  lemma AllNext(ws: seq<nat>, i: nat)
    requires i < |ws|
    ensures XorAll(ws[..i + 1]) == Xor(XorAll(ws[..i]), ws[i])
  {
    assert ws[..i + 1][..i] == ws[..i];
  }

  /** x ^ (a0 ^ ... ^ a7), in the order of the unrolled loop. */
  function XorEight(x: nat, ws: seq<nat>, i: nat): nat
    requires i + 8 <= |ws|
  {
    Xor(x, Xor(Xor(Xor(Xor(Xor(Xor(Xor(ws[i], ws[i + 1]), ws[i + 2]), ws[i + 3]), ws[i + 4]), ws[i + 5]), ws[i + 6]), ws[i + 7]))
  }

  lemma EightNext(x: nat, ws: seq<nat>, i: nat)
    requires i + 8 <= |ws|
    ensures XorEight(Xor(x, XorAll(ws[..i])), ws, i) == Xor(x, XorAll(ws[..i + 8]))
  {
    hide Xor, XorAll;
    AllNext(ws, i);
    AllNext(ws, i + 1);
    AllNext(ws, i + 2);
    AllNext(ws, i + 3);
    AllNext(ws, i + 4);
    AllNext(ws, i + 5);
    AllNext(ws, i + 6);
    AllNext(ws, i + 7);
    var y := Xor(x, XorAll(ws[..i]));
    var s1 := Xor(ws[i], ws[i + 1]);
    var s2 := Xor(s1, ws[i + 2]);
    var s3 := Xor(s2, ws[i + 3]);
    var s4 := Xor(s3, ws[i + 4]);
    var s5 := Xor(s4, ws[i + 5]);
    var s6 := Xor(s5, ws[i + 6]);
    XorAssoc(y, s6, ws[i + 7]);
    XorAssoc(y, s5, ws[i + 6]);
    XorAssoc(y, s4, ws[i + 5]);
    XorAssoc(y, s3, ws[i + 4]);
    XorAssoc(y, s2, ws[i + 3]);
    XorAssoc(y, s1, ws[i + 2]);
    XorAssoc(y, ws[i], ws[i + 1]);
    XorAssoc(x, XorAll(ws[..i]), ws[i]);
    XorAssoc(x, XorAll(ws[..i + 1]), ws[i + 1]);
    XorAssoc(x, XorAll(ws[..i + 2]), ws[i + 2]);
    XorAssoc(x, XorAll(ws[..i + 3]), ws[i + 3]);
    XorAssoc(x, XorAll(ws[..i + 4]), ws[i + 4]);
    XorAssoc(x, XorAll(ws[..i + 5]), ws[i + 5]);
    XorAssoc(x, XorAll(ws[..i + 6]), ws[i + 6]);
    XorAssoc(x, XorAll(ws[..i + 7]), ws[i + 7]);
  }

  method ChecksumOldFormatSlowly(ws: seq<nat>) returns (sum: nat)
    requires ws != [] && |ws| % 8 == 0
    ensures sum == OldFormat(ws)
  {
    hide XorEight, Xor, XorAll, OldFormat;
    FirstTwice(ws);
    sum := Xor(SEED, ws[0]);
    ghost var x := sum;
    NothingYet(ws, x);
    var i := 0;
    while i < |ws|
      invariant i <= |ws| && i % 8 == 0 && sum == Xor(x, XorAll(ws[..i]))
    {
      EightNext(x, ws, i);
      sum := XorEight(sum, ws, i);
      i := i + 8;
    }
    assert ws[..i] == ws;
  }

  lemma NothingYet(ws: seq<nat>, x: nat)
    ensures Xor(x, XorAll(ws[..0])) == x
  {
    XorNone(x);
  }

  // ------------------------------------------------------------------ 64 bits

  function Qword(ws: seq<nat>, i: nat): nat
    requires 2 * i + 1 < |ws|
  {
    Shl(ws[2 * i + 1], 32) + ws[2 * i]
  }

  /** The exclusive or of n qwords, as two halves. */
  ghost predicate Halves64(ws: seq<nat>, n: nat, x: nat, q: nat, high: nat, low: nat)
  {
    && 2 * n <= |ws| && q == Shl(high, 32) + low && low < Pow2(32) && high < Pow2(32)
    && Xor(high, low) == Xor(x, XorAll(ws[..2 * n]))
  }

  lemma QwordNext(ws: seq<nat>, n: nat, x: nat, q: nat, high: nat, low: nat)
    requires AreDwords(ws) && Halves64(ws, n, x, q, high, low) && 2 * n + 1 < |ws|
    ensures Halves64(ws, n + 1, x, Xor(q, Qword(ws, n)), Xor(high, ws[2 * n + 1]), Xor(low, ws[2 * n]))
  {
    hide Xor, XorAll, Shl, Pow2;
    var a, b := ws[2 * n], ws[2 * n + 1];
    AllNext(ws, 2 * n);
    AllNext(ws, 2 * n + 1);
    XorFields(high, low, b, a, 32);
    XorBound(high, b, 32);
    XorBound(low, a, 32);
    XorPairs(high, b, low, a);
    var before := XorAll(ws[..2 * n]);
    XorSwap(b, a);
    XorAssoc(x, before, Xor(a, b));
    XorAssoc(before, a, b);
  }

  method ChecksumOldFormat64Bit(ws: seq<nat>) returns (sum: nat)
    requires AreDwords(ws) && ws != [] && |ws| % 8 == 0
    ensures sum == OldFormat(ws)
  {
    hide Qword, Xor, XorAll, OldFormat, Shl, Pow2, Shr, Low;
    FirstTwice(ws);
    Start64(ws);
    LowIsMod(Qword(ws, 0), 32);
    Pow2Of32();
    var q := Xor(0, Qword(ws, 0) % 0x1_0000_0000);
    ghost var high, low: nat := 0, ws[0];
    var i := 0;
    while 2 * i < |ws|
      invariant 2 * i <= |ws| && i % 4 == 0 && Halves64(ws, i, ws[0], q, high, low)
    {
      QwordNext(ws, i, ws[0], q, high, low);
      q, high, low := Xor(q, Qword(ws, i)), Xor(high, ws[2 * i + 1]), Xor(low, ws[2 * i]);
      QwordNext(ws, i + 1, ws[0], q, high, low);
      q, high, low := Xor(q, Qword(ws, i + 1)), Xor(high, ws[2 * i + 3]), Xor(low, ws[2 * i + 2]);
      QwordNext(ws, i + 2, ws[0], q, high, low);
      q, high, low := Xor(q, Qword(ws, i + 2)), Xor(high, ws[2 * i + 5]), Xor(low, ws[2 * i + 4]);
      QwordNext(ws, i + 3, ws[0], q, high, low);
      q, high, low := Xor(q, Qword(ws, i + 3)), Xor(high, ws[2 * i + 7]), Xor(low, ws[2 * i + 6]);
      i := i + 4;
    }
    assert ws[..2 * i] == ws;
    LowOfField(high, low, 32);
    LowIsMod(q, 32);
    ShrIsDiv(q, 32);
    var upper, lower := q / 0x1_0000_0000, q % 0x1_0000_0000;
    var folded := Xor(upper, lower);
    sum := Xor(folded, SEED);
    XorSwap(folded, SEED);
    XorAssoc(SEED, ws[0], XorAll(ws));
  }

  lemma Start64(ws: seq<nat>)
    requires AreDwords(ws) && |ws| >= 2
    ensures Low(Qword(ws, 0), 32) == ws[0] && Halves64(ws, 0, ws[0], Xor(0, ws[0]), 0, ws[0])
  {
    hide Pow2, Shl, Xor, Low, XorAll;
    NoXor(ws);
    XorNone(0);
    LowOfField(ws[1], ws[0], 32);
    ShlZero(32);
    XorNone(ws[0]);
    Positive(32);
  }

  // ------------------------------------------------------------------ 128 bits

  datatype Oword = Oword(d0: nat, d1: nat, d2: nat, d3: nat)

  function Load(ws: seq<nat>, i: nat): Oword
    requires 4 * i + 4 <= |ws|
  {
    Oword(ws[4 * i], ws[4 * i + 1], ws[4 * i + 2], ws[4 * i + 3])
  }

  /** _mm_xor_si128. */
  function XorOword(a: Oword, b: Oword): Oword
  {
    Oword(Xor(a.d0, b.d0), Xor(a.d1, b.d1), Xor(a.d2, b.d2), Xor(a.d3, b.d3))
  }

  ghost function Strands(ws: seq<nat>, n: nat): Oword
    requires 4 * n <= |ws|
  {
    Oword(Lane(ws, n, 0), Lane(ws, n, 1), Lane(ws, n, 2), Lane(ws, n, 3))
  }

  lemma StrandsNext(ws: seq<nat>, n: nat)
    requires 4 * n + 4 <= |ws|
    ensures Strands(ws, n + 1) == XorOword(Strands(ws, n), Load(ws, n))
  {
  }

  lemma OwordAssoc(a: Oword, b: Oword, c: Oword)
    ensures XorOword(XorOword(a, b), c) == XorOword(a, XorOword(b, c))
  {
    hide Xor;
    XorAssoc(a.d0, b.d0, c.d0);
    XorAssoc(a.d1, b.d1, c.d1);
    XorAssoc(a.d2, b.d2, c.d2);
    XorAssoc(a.d3, b.d3, c.d3);
  }

  /** Four more vectors, combined in pairs. */
  lemma FourVectors(ws: seq<nat>, n: nat)
    requires 4 * n + 16 <= |ws|
    ensures Strands(ws, n + 4)
            == XorOword(Strands(ws, n), XorOword(XorOword(Load(ws, n), Load(ws, n + 1)), XorOword(Load(ws, n + 2), Load(ws, n + 3))))
  {
    hide XorOword, Load, Strands;
    StrandsNext(ws, n);
    StrandsNext(ws, n + 1);
    StrandsNext(ws, n + 2);
    StrandsNext(ws, n + 3);
    var s, a, b, c, d := Strands(ws, n), Load(ws, n), Load(ws, n + 1), Load(ws, n + 2), Load(ws, n + 3);
    OwordAssoc(s, a, b);
    OwordAssoc(s, XorOword(a, b), c);
    OwordAssoc(s, XorOword(XorOword(a, b), c), d);
    OwordAssoc(XorOword(a, b), c, d);
  }

  method ChecksumOldFormatSSE2(ws: seq<nat>) returns (sum: nat)
    requires ws != [] && |ws| % 32 == 0
    ensures sum == OldFormat(ws)
  {
    hide XorOword, Load, Xor, XorAll, OldFormat, Lane;
    FirstTwice(ws);
    var all := Oword(0, 0, 0, 0);
    NoStrands(ws);
    sum := Xor(SEED, ws[0]);
    var i := 0;
    while 4 * i < |ws|
      invariant 4 * i <= |ws| && i % 8 == 0 && all == Strands(ws, i)
    {
      FourVectors(ws, i);
      FourVectors(ws, i + 4);
      var t1 := XorOword(Load(ws, i), Load(ws, i + 1));
      var t2 := XorOword(Load(ws, i + 2), Load(ws, i + 3));
      var t3 := XorOword(Load(ws, i + 4), Load(ws, i + 5));
      var t4 := XorOword(Load(ws, i + 6), Load(ws, i + 7));
      t1 := XorOword(t1, t2);
      t3 := XorOword(t3, t4);
      all := XorOword(all, t1);
      all := XorOword(all, t3);
      i := i + 8;
    }
    Lanes(ws, i);
    assert ws[..4 * i] == ws;
    FourMore(0, all.d0, all.d1, all.d2, all.d3);
    XorNone(all.d0);
    XorNone(Xor(Xor(all.d0, all.d2), Xor(all.d1, all.d3)));
    sum := Xor(sum, Xor(Xor(Xor(all.d0, all.d1), all.d2), all.d3));
  }

  lemma NoStrands(ws: seq<nat>)
    ensures Strands(ws, 0) == Oword(0, 0, 0, 0)
  {
  }

  /** The three loops agree on every block of a multiple of 128 bytes. */
  method OldFormatsAgree(ws: seq<nat>) returns (a: nat, b: nat, c: nat)
    requires AreDwords(ws) && ws != [] && |ws| % 32 == 0
    ensures a == b == c == OldFormat(ws)
  {
    a := ChecksumOldFormatSlowly(ws);
    b := ChecksumOldFormat64Bit(ws);
    c := ChecksumOldFormatSSE2(ws);
  }
}
