/** Powers of two and the few facts about multiples that the Huffman proofs need. */
module Powers {

  function Pow2(n: nat): (r: nat)
    ensures r > 0
  {
    if n == 0 then 1 else 2 * Pow2(n - 1)
  }

  lemma {:induction false} Pow2Add(a: nat, b: nat)
    ensures Pow2(a + b) == Pow2(a) * Pow2(b)
    decreases b
  {
    if b != 0 {
      Pow2Add(a, b - 1);
      assert Pow2(a + b) == 2 * Pow2(a + (b - 1));
      assert Pow2(a) * Pow2(b) == Pow2(a) * (2 * Pow2(b - 1)) == 2 * (Pow2(a) * Pow2(b - 1));
    }
  }

  lemma {:induction false} Pow2Monotone(a: nat, b: nat)
    requires a <= b
    ensures Pow2(a) <= Pow2(b)
    ensures a < b ==> 2 * Pow2(a) <= Pow2(b)
    decreases b
  {
    if a < b { Pow2Monotone(a, b - 1); }
  }

  /** The one literal power the models use. */
  lemma Pow2Of32()
    ensures Pow2(32) == 0x1_0000_0000
  {
    assert Pow2(8) == 256;
    Pow2Add(8, 8);
    Pow2Add(16, 16);
  }

  ghost predicate Multiple(x: int, m: nat)
  {
    exists k :: x == k * m
  }

  lemma MultipleIs(x: int, k: int, m: nat)
    requires x == k * m
    ensures Multiple(x, m)
  {
  }

  lemma MultipleSum(x: int, y: int, m: nat)
    requires Multiple(x, m) && Multiple(y, m)
    ensures Multiple(x + y, m) && Multiple(x - y, m)
  {
    var i :| x == i * m;
    var j :| y == j * m;
    assert x + y == (i + j) * m;
    assert x - y == (i - j) * m;
  }

  lemma MultipleOfMultiple(x: int, a: nat, b: nat)
    requires Multiple(x, a * b)
    ensures Multiple(x, a)
  {
    var k :| x == k * (a * b);
    assert x == (k * b) * a;
  }

  lemma MultiplePow2(x: int, a: nat, b: nat)
    requires a <= b && Multiple(x, Pow2(b))
    ensures Multiple(x, Pow2(a))
  {
    Pow2Add(a, b - a);
    MultipleOfMultiple(x, Pow2(a), Pow2(b - a));
  }

  lemma Pow2Multiple(a: nat, b: nat)
    requires a <= b
    ensures Multiple(Pow2(b), Pow2(a))
  {
    MultipleIs(Pow2(b), 1, Pow2(b));
    MultiplePow2(Pow2(b), a, b);
  }

  /** Two different multiples of m are at least m apart. */
  lemma MultipleGap(x: int, y: int, m: nat)
    requires Multiple(x, m) && Multiple(y, m) && x < y
    ensures x + m <= y
  {
    var i :| x == i * m;
    var j :| y == j * m;
    if j <= i {
      MulMonotone(j, i, m);
      assert false;
    }
    MulMonotone(i + 1, j, m);
    assert (i + 1) * m == x + m;
  }

  lemma MulMonotone(a: int, b: int, m: nat)
    requires a <= b
    ensures a * m <= b * m
  {
    assert b * m - a * m == (b - a) * m;
  }

  lemma MulCancel(a: int, b: int, m: nat)
    requires m > 0 && a * m <= b * m
    ensures a <= b
  {
    if b < a {
      MulMonotone(b + 1, a, m);
    }
  }

  lemma MulCancelEqual(a: int, b: int, m: nat)
    requires m > 0 && a * m == b * m
    ensures a == b
  {
    MulCancel(a, b, m);
    MulCancel(b, a, m);
  }

  lemma DivOfProduct(q: nat, m: nat, r: nat)
    requires r < m
    ensures (q * m + r) / m == q
  {
    var n := q * m + r;
    var d := n / m;
    assert n == d * m + n % m;
    if d < q {
      MulMonotone(d + 1, q, m);
      assert false;
    } else if d > q {
      MulMonotone(q + 1, d, m);
      assert false;
    }
  }

  lemma DivDiv(x: nat, a: nat, b: nat)
    requires a > 0 && b > 0
    ensures (x / a) / b == x / (a * b)
  {
    var q := x / a;
    var d := q / b;
    assert x == q * a + x % a;
    assert q == d * b + q % b;
    var r := (q % b) * a + x % a;
    assert x == d * (a * b) + r by {
      assert q * a == (d * b + q % b) * a == d * (a * b) + (q % b) * a;
    }
    assert r < a * b by {
      MulMonotone(q % b + 1, b, a);
      assert (q % b + 1) * a == (q % b) * a + a;
    }
    DivOfProduct(d, a * b, r);
  }
}
