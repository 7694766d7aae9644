/** Sums over the used symbols: independent of their order, and equal to sums over the alphabet. */
module SumsOver {
  import opened HuffmanTree
  import opened SortSymbols

  ghost function SumBy(f: seq<Tree>, g: Tree -> nat): nat
  {
    if f == [] then 0 else SumBy(f[..|f| - 1], g) + g(f[|f| - 1])
  }

  lemma SumLast(f: seq<Tree>, x: Tree, g: Tree -> nat)
    ensures SumBy(f + [x], g) == SumBy(f, g) + g(x)
  {
    assert (f + [x])[..|f|] == f;
  }

  lemma {:induction false} SumRemoved(f: seq<Tree>, i: nat, g: Tree -> nat)
    requires i < |f|
    ensures SumBy(f, g) == SumBy(f[..i] + f[i + 1..], g) + g(f[i])
  {
    if i < |f| - 1 {
      var f' := f[..|f| - 1];
      SumRemoved(f', i, g);
      assert f[..i] + f[i + 1..] == (f'[..i] + f'[i + 1..]) + [f[|f| - 1]];
      SumLast(f'[..i] + f'[i + 1..], f[|f| - 1], g);
    } else {
      assert f[..i] + f[i + 1..] == f[..|f| - 1];
    }
  }

  lemma WithoutOne(f: seq<Tree>, i: nat)
    requires i < |f|
    ensures multiset(f[..i] + f[i + 1..]) == multiset(f) - multiset{f[i]}
  {
    assert f == f[..i] + [f[i]] + f[i + 1..];
  }

  lemma {:induction false} SumPermuted(f: seq<Tree>, h: seq<Tree>, g: Tree -> nat)
    requires multiset(f) == multiset(h)
    ensures SumBy(f, g) == SumBy(h, g)
  {
    if f == [] {
      assert h == [];
    } else {
      var n := |f| - 1;
      assert f[n] in multiset(h);
      var i :| 0 <= i < |h| && h[i] == f[n];
      var rest := h[..i] + h[i + 1..];
      WithoutOne(h, i);
      WithoutOne(f, n);
      assert f[..n] + f[n + 1..] == f[..n];
      SumPermuted(f[..n], rest, g);
      SumRemoved(h, i, g);
    }
  }

  ghost function Over(n: nat, f: nat -> nat): nat
  {
    if n == 0 then 0 else Over(n - 1, f) + f(n - 1)
  }

  /** A sum over the used symbols is a sum over the alphabet when unused symbols contribute nothing. */
  lemma {:induction false} SumUsed(counts: seq<nat>, n: nat, g: Tree -> nat, f: nat -> nat)
    requires n <= |counts|
    requires forall s :: 0 <= s < n ==> f(s) == if counts[s] == 0 then 0 else g(Leaf(s, counts[s]))
    ensures SumBy(Used(counts, n), g) == Over(n, f)
  {
    if n != 0 {
      SumUsed(counts, n - 1, g, f);
      if counts[n - 1] != 0 {
        SumLast(Used(counts, n - 1), Leaf(n - 1, counts[n - 1]), g);
      } else {
        assert Used(counts, n) == Used(counts, n - 1);
      }
    }
  }

  lemma {:induction false} OverSame(n: nat, f: nat -> nat, h: nat -> nat)
    requires forall s :: 0 <= s < n ==> f(s) == h(s)
    ensures Over(n, f) == Over(n, h)
  {
    if n != 0 { OverSame(n - 1, f, h); }
  }

  lemma {:induction false} SumSame(f: seq<Tree>, g: Tree -> nat, h: Tree -> nat)
    requires forall i :: 0 <= i < |f| ==> g(f[i]) == h(f[i])
    ensures SumBy(f, g) == SumBy(f, h)
  {
    if f != [] { SumSame(f[..|f| - 1], g, h); }
  }
}
