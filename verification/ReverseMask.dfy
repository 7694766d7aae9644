/** HuffmanReverseMask (Xpress9Misc.c): reversal of a codeword six bits at a time, by table. */
module ReverseMask {
  import opened Powers
  import opened BitStrings

  const TABLE_LOG: nat := 6

  // The source's table of 64 literals, in rows of 16.
  const ROW0: seq<nat> := [0, 32, 16, 48, 8, 40, 24, 56, 4, 36, 20, 52, 12, 44, 28, 60]
  const ROW1: seq<nat> := [2, 34, 18, 50, 10, 42, 26, 58, 6, 38, 22, 54, 14, 46, 30, 62]
  const ROW2: seq<nat> := [1, 33, 17, 49, 9, 41, 25, 57, 5, 37, 21, 53, 13, 45, 29, 61]
  const ROW3: seq<nat> := [3, 35, 19, 51, 11, 43, 27, 59, 7, 39, 23, 55, 15, 47, 31, 63]
  const TABLE: seq<nat> := ROW0 + ROW1 + ROW2 + ROW3

  /** Reversing n + m bits is reversing the low n and the next m separately and exchanging them. */
  lemma {:induction false} ReverseSplit(v: nat, n: nat, m: nat)
    ensures Reverse(v, n + m) == Reverse(Shr(v, n), m) + Shl(Reverse(v, n), m)
    decreases n
  {
    if n == 0 {
      ShlZero(m);
    } else {
      ReverseSplit(v / 2, n - 1, m);
      ShlAdd(Reverse(v / 2, n - 1), Shl(v % 2, n - 1), m);
      ShlTwice(v % 2, n - 1, m);
    }
  }

  lemma {:induction false} ReverseZero(n: nat)
    ensures Reverse(0, n) == 0
    decreases n
  {
    if n != 0 {
      ReverseZero(n - 1);
      ShlZero(n - 1);
    }
  }

  lemma ReverseCons(b: nat, v: nat, n: nat)
    requires b <= 1
    ensures Reverse(b + 2 * v, n + 1) == Reverse(v, n) + Shl(b, n)
  {
  }

  lemma ShlLow(v: nat)
    ensures Shl(v, 0) == v && Shl(v, 1) == 2 * v && Shl(v, 2) == 4 * v && Shl(v, 3) == 8 * v
  {
    assert Shl(v, 0) == v;
  }

  lemma TwoBits(v: nat, n: nat, b0: nat, b1: nat)
    requires b0 <= 1 && b1 <= 1
    ensures Reverse(b0 + 2 * (b1 + 2 * v), n + 2) == Reverse(v, n) + Shl(b1, n) + Shl(b0, n + 1)
  {
    hide *;
    ReverseCons(b1, v, n);
    ReverseCons(b0, b1 + 2 * v, n + 1);
  }

  lemma FourBits(y: nat, n: nat, b0: nat, b1: nat, b2: nat, b3: nat)
    requires b0 <= 1 && b1 <= 1 && b2 <= 1 && b3 <= 1 && n == 4
    requires y == b0 + 2 * (b1 + 2 * (b2 + 2 * b3))
    ensures Reverse(y, n) == 8 * b0 + 4 * b1 + 2 * b2 + b3
  {
    hide *;
    ReverseZero(n - 4);
    TwoBits(0, n - 4, b2, b3);
    TwoBits(b2 + 2 * b3, n - 2, b0, b1);
    ShlLow(b0);
    ShlLow(b1);
    ShlLow(b2);
    ShlLow(b3);
  }

  lemma FirstRow(y: nat, n: nat)
    requires y < 16 && n == 4
    ensures ROW0[y] == 4 * Reverse(y, n)
  {
    hide Reverse;
    if
    case y == 0 => FourBits(y, n, 0, 0, 0, 0);
    case y == 1 => FourBits(y, n, 1, 0, 0, 0);
    case y == 2 => FourBits(y, n, 0, 1, 0, 0);
    case y == 3 => FourBits(y, n, 1, 1, 0, 0);
    case y == 4 => FourBits(y, n, 0, 0, 1, 0);
    case y == 5 => FourBits(y, n, 1, 0, 1, 0);
    case y == 6 => FourBits(y, n, 0, 1, 1, 0);
    case y == 7 => FourBits(y, n, 1, 1, 1, 0);
    case y == 8 => FourBits(y, n, 0, 0, 0, 1);
    case y == 9 => FourBits(y, n, 1, 0, 0, 1);
    case y == 10 => FourBits(y, n, 0, 1, 0, 1);
    case y == 11 => FourBits(y, n, 1, 1, 0, 1);
    case y == 12 => FourBits(y, n, 0, 0, 1, 1);
    case y == 13 => FourBits(y, n, 1, 0, 1, 1);
    case y == 14 => FourBits(y, n, 0, 1, 1, 1);
    case y == 15 => FourBits(y, n, 1, 1, 1, 1);
  }

  lemma OtherRows(y: nat)
    requires y < 16
    ensures ROW1[y] == ROW0[y] + 2 && ROW2[y] == ROW0[y] + 1 && ROW3[y] == ROW0[y] + 3
  {
    if
    case y == 0 || y == 1 || y == 2 || y == 3 =>
    case y == 4 || y == 5 || y == 6 || y == 7 =>
    case y == 8 || y == 9 || y == 10 || y == 11 =>
    case y == 12 || y == 13 || y == 14 || y == 15 =>
  }

  lemma TableRow(k: nat, y: nat)
    requires k < 4 && y < 16
    ensures TABLE[16 * k + y] == ROW0[y] + 2 * (k % 2) + k / 2
  {
    OtherRows(y);
    RowAt(ROW0, ROW1, ROW2, ROW3, k, y);
  }

  lemma RowAt(r0: seq<nat>, r1: seq<nat>, r2: seq<nat>, r3: seq<nat>, k: nat, y: nat)
    requires |r0| == |r1| == |r2| == |r3| == 16 && k < 4 && y < 16
    ensures (r0 + r1 + r2 + r3)[16 * k + y] == [r0, r1, r2, r3][k][y]
  {
  }

  lemma LowBits(v: nat, n: nat)
    ensures Reverse(v % Pow2(n), n) == Reverse(v, n)
  {
    FromLsbOfLsb(v, n);
    LsbOfFromLsb(Lsb(v, n));
    ReversedMsb(v, n);
    ReversedMsb(v % Pow2(n), n);
    ReverseIs(v, n);
    ReverseIs(v % Pow2(n), n);
  }

  lemma ReverseTwo(k: nat, n: nat)
    requires k < 4 && n == 2
    ensures Reverse(k, n) == 2 * (k % 2) + k / 2
  {
    ReverseCons(k / 2, 0, n - 2);
    ReverseCons(k % 2, k / 2, n - 1);
    ShlLow(k / 2);
    ShlLow(k % 2);
  }

  lemma TableEntry(x: nat, four: nat, two: nat)
    requires x < 64 && four == 4 && two == 2
    ensures TABLE[x] == Reverse(x, four + two)
  {
    hide Reverse, Shr, Shl;
    var y, k := x % 16, x / 16;
    ReverseSplit(x, four, two);
    ShrIsDiv(x, four);
    LowBits(x, four);
    assert Pow2(4) == 16;
    FirstRow(y, four);
    TableRow(k, y);
    ReverseTwo(k, two);
    ShlLow(Reverse(x, four));
  }

  lemma TableIsReversal(v: nat)
    ensures TABLE[v % 64] == Reverse(v, TABLE_LOG)
  {
    assert Pow2(6) == 64;
    LowBits(v, TABLE_LOG);
    TableEntry(v % 64, 4, 2);
  }

  lemma ShlGroup(v: nat)
    ensures TABLE_LOG > 0 && Shl(v, TABLE_LOG) == v * 64
  {
    ShlIs(v, TABLE_LOG);
    assert Pow2(6) == 64;
  }

  lemma ShrGroup(v: nat)
    ensures Shr(v, TABLE_LOG) == v / 64
  {
    ShrIsDiv(v, TABLE_LOG);
    assert Pow2(6) == 64;
  }

  /** A full group: the table entry is the reversal of the next six bits. */
  lemma FullGroup(mask: nat, done: nat, v: nat, n: nat, entry: nat)
    requires v == Shr(mask, done) && n >= TABLE_LOG && v < Pow2(n) && entry == Reverse(v, TABLE_LOG)
    ensures TABLE_LOG > 0 && v / 64 == Shr(mask, done + TABLE_LOG) && v / 64 < Pow2(n - TABLE_LOG)
    ensures Reverse(mask, done) * 64 + entry == Reverse(mask, done + TABLE_LOG)
  {
    hide *;
    ReverseSplit(mask, done, TABLE_LOG);
    ShlGroup(Reverse(mask, done));
    ShrTwice(mask, done, TABLE_LOG);
    ShrGroup(v);
    ShrBound(v, n - TABLE_LOG, TABLE_LOG);
  }

  /** The table entry of a short last group carries TABLE_LOG - n spurious low zeros. */
  lemma ShortGroup(v: nat, n: nat, gap: nat)
    requires n + gap == TABLE_LOG && v < Pow2(n)
    ensures Reverse(v, TABLE_LOG) == Shl(Reverse(v, n), gap)
  {
    ReverseSplit(v, n, gap);
    ShrSmall(v, n);
    ReverseZero(gap);
  }

  lemma LastGroup(mask: nat, done: nat, v: nat, n: nat, gap: nat, entry: nat)
    requires v == Shr(mask, done) && n + gap == TABLE_LOG && v < Pow2(n) && entry == Reverse(v, TABLE_LOG)
    ensures Shr(Reverse(mask, done) * 64 + entry, gap) == Reverse(mask, done + n)
  {
    hide *;
    ShortGroup(v, n, gap);
    ReverseSplit(mask, done, n);
    var head := Reverse(mask, done);
    ShlTwice(head, n, gap);
    ShlGroup(head);
    ShlAdd(Shl(head, n), Reverse(v, n), gap);
    ShrOfShl(Shl(head, n) + Reverse(v, n), gap);
  }

  /** One table lookup. */
  method Lookup(v: nat) returns (entry: nat)
    ensures entry == Reverse(v, TABLE_LOG)
  {
    TableIsReversal(v);
    entry := TABLE[v % 64];
  }

  lemma NothingDone(mask: nat, bits: nat)
    ensures mask == Shr(mask, bits - bits) && 0 == Reverse(mask, bits - bits)
  {
  }

  method HuffmanReverseMask(mask: nat, bits: nat) returns (r: nat)
    requires mask < Pow2(bits)
    ensures r == Reverse(mask, bits)
  {
    hide *;
    var v, n: nat := mask, bits;
    r := 0;
    NothingDone(mask, bits);
    while n >= TABLE_LOG
      decreases n
      invariant n <= bits
      invariant v == Shr(mask, bits - n) && v < Pow2(n) && r == Reverse(mask, bits - n)
    {
      var entry := Lookup(v);
      FullGroup(mask, bits - n, v, n, entry);
      r := r * 64 + entry;
      v := v / 64;
      n := n - TABLE_LOG;
    }
    if n != 0 {
      var entry := Lookup(v);
      LastGroup(mask, bits - n, v, n, TABLE_LOG - n, entry);
      r := Shr(r * 64 + entry, TABLE_LOG - n);
    }
  }
}
