/** Sorting the used symbols by count (Xpress9EncHuffman.c:23-289). The merge sort for short lists and
    the radix sort for long ones give the same list: ascending counts, equal counts by symbol. */
module SortSymbols {
  import opened Powers
  import opened BitStrings
  import opened HuffmanTree

  ghost predicate Precedes(x: Tree, y: Tree)
  {
    x.Leaf? && y.Leaf? && (x.count < y.count || (x.count == y.count && x.symbol < y.symbol))
  }

  /** The order that Xpress9HuffmanCreateTree checks of its sorted list (lines 735-746). */
  ghost predicate StableOrder(f: seq<Tree>)
  {
    forall i, j :: 0 <= i < j < |f| ==> Precedes(f[i], f[j])
  }

  ghost predicate BySymbol(f: seq<Tree>)
  {
    AllLeaves(f) && forall i, j :: 0 <= i < j < |f| ==> f[i].symbol < f[j].symbol
  }

  /** There is only one such order. */
  lemma {:induction false} OrderIsUnique(f: seq<Tree>, g: seq<Tree>)
    requires StableOrder(f) && StableOrder(g) && AllLeaves(f) && multiset(f) == multiset(g)
    ensures f == g
  {
    if f == [] {
      assert |multiset(g)| == 0;
    } else {
      assert f[0] in multiset(g) && |multiset(f)| == |multiset(g)|;
      assert g[0] in multiset(f);
      assert f[0] == g[0];
      assert f == [f[0]] + f[1..] && g == [g[0]] + g[1..];
      assert multiset(f[1..]) == multiset(f) - multiset{f[0]};
      assert multiset(g[1..]) == multiset(g) - multiset{g[0]};
      OrderIsUnique(f[1..], g[1..]);
    }
  }

  /** HuffmanCreateTemp: the symbols with a non-zero count, in symbol order. */
  function Used(counts: seq<nat>, n: nat): seq<Tree>
    requires n <= |counts|
    decreases n
  {
    if n == 0 then []
    else Used(counts, n - 1) + (if counts[n - 1] == 0 then [] else [Leaf(n - 1, counts[n - 1])])
  }

  method HuffmanCreateTemp(counts: seq<nat>) returns (list: seq<Tree>)
    ensures list == Used(counts, |counts|)
  {
    list := [];
    var i := 0;
    while i < |counts|
      invariant i <= |counts| && list == Used(counts, i)
    {
      if counts[i] != 0 { list := list + [Leaf(i, counts[i])]; }
      i := i + 1;
    }
  }

  lemma {:induction false} UsedElements(counts: seq<nat>, n: nat)
    requires n <= |counts|
    ensures BySymbol(Used(counts, n))
    ensures forall i :: 0 <= i < |Used(counts, n)| ==>
              var t := Used(counts, n)[i]; t.symbol < n && t.count == counts[t.symbol] > 0
    ensures forall s :: 0 <= s < n && counts[s] != 0 ==> Leaf(s, counts[s]) in Used(counts, n)
    decreases n
  {
    if n != 0 { UsedElements(counts, n - 1); }
  }

  // ------------------------------------------------------------------ merge sort

  ghost predicate SymbolsBelow(a: seq<Tree>, b: seq<Tree>)
  {
    forall x, y :: x in a && y in b ==> x.Leaf? && y.Leaf? && x.symbol < y.symbol
  }

  ghost predicate StartsAfter(r: seq<Tree>, x: Tree)
  {
    forall y :: y in r ==> Precedes(y, x)
  }

  lemma AppendOrdered(r: seq<Tree>, x: Tree)
    requires StableOrder(r) && StartsAfter(r, x)
    ensures StableOrder(r + [x])
  {
    forall i, j | 0 <= i < j < |r + [x]| ensures Precedes((r + [x])[i], (r + [x])[j]) {
      if j == |r| { assert r[i] in r; }
    }
  }

  /** The state of a merge: r holds the first i of a and the first j of b, where the symbols of a are below those of b
      and ties go to a. */
  ghost predicate Merging(r: seq<Tree>, a: seq<Tree>, i: nat, b: seq<Tree>, j: nat)
  {
    && i <= |a| && j <= |b| && StableOrder(r)
    && multiset(r) == multiset(a[..i]) + multiset(b[..j])
    && (i < |a| ==> StartsAfter(r, a[i]))
    && (j < |b| ==> StartsAfter(r, b[j]))
  }

  lemma TakeOne(r: seq<Tree>, a: seq<Tree>, i: nat, b: seq<Tree>, j: nat)
    requires Merging(r, a, i, b, j) && i < |a| && StableOrder(a)
    requires j < |b| ==> Precedes(a[i], b[j])
    ensures Merging(r + [a[i]], a, i + 1, b, j)
  {
    AppendOrdered(r, a[i]);
    if i + 1 < |a| { assert Precedes(a[i], a[i + 1]); }
    assert a[..i + 1] == a[..i] + [a[i]];
  }

  lemma MergingSwapped(r: seq<Tree>, a: seq<Tree>, i: nat, b: seq<Tree>, j: nat)
    requires Merging(r, a, i, b, j)
    ensures Merging(r, b, j, a, i)
  {
  }

  lemma HeadsDiffer(a: seq<Tree>, i: nat, b: seq<Tree>, j: nat)
    requires SymbolsBelow(a, b) && i < |a| && j < |b|
    ensures if a[i].count <= b[j].count then Precedes(a[i], b[j]) else Precedes(b[j], a[i])
  {
    assert a[i] in a && b[j] in b;
  }

  lemma MergeEnd(r: seq<Tree>, a: seq<Tree>, b: seq<Tree>)
    requires Merging(r, a, |a|, b, |b|)
    ensures StableOrder(r) && multiset(r) == multiset(a) + multiset(b)
  {
    assert a[..|a|] == a && b[..|b|] == b;
  }

  method MergeLists(a: seq<Tree>, b: seq<Tree>) returns (r: seq<Tree>)
    requires StableOrder(a) && StableOrder(b) && AllLeaves(a) && AllLeaves(b) && SymbolsBelow(a, b)
    ensures StableOrder(r) && multiset(r) == multiset(a) + multiset(b)
  {
    var i: nat, j: nat := 0, 0;
    r := [];
    while i < |a| || j < |b|
      invariant i <= |a| && j <= |b| && Merging(r, a, i, b, j)
      decreases |a| - i + |b| - j
    {
      hide *;
      if i < |a| && j < |b| { HeadsDiffer(a, i, b, j); }
      if j == |b| || (i < |a| && a[i].count <= b[j].count) {
        TakeOne(r, a, i, b, j);
        r, i := r + [a[i]], i + 1;
      } else {
        MergingSwapped(r, a, i, b, j);
        TakeOne(r, b, j, a, i);
        MergingSwapped(r + [b[j]], b, j + 1, a, i);
        r, j := r + [b[j]], j + 1;
      }
    }
    MergeEnd(r, a, b);
  }

  datatype Run = Run(list: seq<Tree>, bits: nat)

  ghost function Contents(stack: seq<Run>): multiset<Tree>
  {
    if stack == [] then multiset{} else Contents(stack[..|stack| - 1]) + multiset(stack[|stack| - 1].list)
  }

  /** The runs on the stack are ordered, and each holds smaller symbols than the runs above it and than
      what is still to come. */
  ghost predicate Stacked(stack: seq<Run>, rest: seq<Tree>)
  {
    && (forall i :: 0 <= i < |stack| ==> StableOrder(stack[i].list) && AllLeaves(stack[i].list))
    && (forall i, j :: 0 <= i < j < |stack| ==> SymbolsBelow(stack[i].list, stack[j].list))
    && (forall i :: 0 <= i < |stack| ==> SymbolsBelow(stack[i].list, rest))
    && BySymbol(rest)
  }

  lemma CollapsedContents(stack: seq<Run>, a: Run, b: Run, r: Run)
    requires multiset(r.list) == multiset(a.list) + multiset(b.list)
    ensures Contents(stack + [r]) == Contents(stack + [a] + [b])
  {
    ContentsTop(stack + [a], b);
    ContentsTop(stack, a);
    ContentsTop(stack, r);
  }

  lemma ContentsTop(stack: seq<Run>, r: Run)
    ensures Contents(stack + [r]) == Contents(stack) + multiset(r.list)
  {
    assert (stack + [r])[..|stack|] == stack;
  }

  lemma Collapsed(stack: seq<Run>, a: Run, b: Run, r: Run, rest: seq<Tree>)
    requires Stacked(stack + [a] + [b], rest) && StableOrder(r.list)
    requires multiset(r.list) == multiset(a.list) + multiset(b.list)
    ensures Stacked(stack + [r], rest)
  {
    var all, new' := stack + [a] + [b], stack + [r];
    assert all[|stack|] == a && all[|stack| + 1] == b;
    assert forall i :: 0 <= i < |stack| ==> new'[i] == all[i];
    FromEither(r.list, a.list, b.list);
  }

  lemma FromEither(r: seq<Tree>, a: seq<Tree>, b: seq<Tree>)
    requires multiset(r) == multiset(a) + multiset(b)
    ensures forall x :: x in r ==> x in a || x in b
    ensures AllLeaves(a) && AllLeaves(b) ==> AllLeaves(r)
  {
    assert forall x :: x in r ==> x in multiset(r);
    assert forall i :: 0 <= i < |r| ==> r[i] in r;
  }

  method CollapseTop(stack0: seq<Run>, bits: nat, ghost rest: seq<Tree>) returns (stack: seq<Run>)
    requires |stack0| >= 2 && Stacked(stack0, rest)
    ensures |stack| == |stack0| - 1 && Stacked(stack, rest) && Contents(stack) == Contents(stack0)
  {
    var n := |stack0|;
    ghost var below := stack0[..n - 2];
    assert stack0 == below + [stack0[n - 2]] + [stack0[n - 1]];
    var list := MergeLists(stack0[n - 2].list, stack0[n - 1].list);
    Collapsed(below, stack0[n - 2], stack0[n - 1], Run(list, bits), rest);
    CollapsedContents(below, stack0[n - 2], stack0[n - 1], Run(list, bits));
    stack := stack0[..n - 2] + [Run(list, bits)];
  }

  lemma HeadBelow(rest: seq<Tree>, head: seq<Tree>, rest': seq<Tree>)
    requires BySymbol(rest) && rest == head + rest'
    ensures BySymbol(rest') && AllLeaves(head) && SymbolsBelow(head, rest')
  {
    assert forall i :: 0 <= i < |head| ==> rest[i] == head[i];
    assert forall i :: 0 <= i < |rest'| ==> rest[|head| + i] == rest'[i];
  }

  lemma Pushed(stack: seq<Run>, run: Run, rest: seq<Tree>, head: seq<Tree>, rest': seq<Tree>)
    requires Stacked(stack, rest) && rest == head + rest' && StableOrder(run.list) && multiset(run.list) == multiset(head)
    ensures Stacked(stack + [run], rest')
  {
    HeadBelow(rest, head, rest');
    FromEither(run.list, head, []);
    assert forall i :: 0 <= i < |stack| ==> (stack + [run])[i] == stack[i];
  }

  lemma PushedContents(stack: seq<Run>, run: Run, rest: seq<Tree>, head: seq<Tree>, rest': seq<Tree>)
    requires rest == head + rest' && multiset(run.list) == multiset(head)
    ensures Contents(stack + [run]) + multiset(rest') == Contents(stack) + multiset(rest)
  {
    ContentsTop(stack, run);
  }

  /** The next run of at most two symbols. */
  method PushRun(stack0: seq<Run>, rest0: seq<Tree>) returns (stack: seq<Run>, rest: seq<Tree>)
    requires rest0 != [] && Stacked(stack0, rest0)
    ensures Stacked(stack, rest) && Contents(stack) + multiset(rest) == Contents(stack0) + multiset(rest0)
    ensures |rest| < |rest0| && stack != []
  {
    var run, n;
    if |rest0| == 1 {
      run, n := Run(rest0, 1), 1;
    } else {
      var x, y := rest0[0], rest0[1];
      run, n := Run(if x.count > y.count then [y, x] else [x, y], 1), 2;
      assert rest0[..2] == [x, y];
    }
    assert rest0 == rest0[..n] + rest0[n..];
    Pushed(stack0, run, rest0, rest0[..n], rest0[n..]);
    PushedContents(stack0, run, rest0, rest0[..n], rest0[n..]);
    stack, rest := stack0 + [run], rest0[n..];
  }

  lemma OneRun(stack: seq<Run>)
    requires |stack| == 1 && Stacked(stack, [])
    ensures StableOrder(stack[0].list) && Contents(stack) == multiset(stack[0].list)
  {
    assert stack == [] + [stack[0]];
    ContentsTop([], stack[0]);
  }

  lemma NothingStacked(list: seq<Tree>)
    requires BySymbol(list)
    ensures Stacked([], list) && Contents([]) + multiset(list) == multiset(list)
  {
  }

  /** HuffmanMergeSort: runs of two are pushed; equally long runs are merged as they meet. */
  method HuffmanMergeSort(list: seq<Tree>) returns (sorted: seq<Tree>)
    requires BySymbol(list)
    ensures StableOrder(sorted) && multiset(sorted) == multiset(list)
  {
    if list == [] { return []; }
    NothingStacked(list);
    hide *;
    var stack: seq<Run>, rest := [], list;
    while true
      invariant rest != [] && Stacked(stack, rest) && Contents(stack) + multiset(rest) == multiset(list)
      decreases |rest|
    {
      stack, rest := PushRun(stack, rest);
      if rest == [] { break; }
      while |stack| >= 2 && stack[|stack| - 1].bits == stack[|stack| - 2].bits
        invariant Stacked(stack, rest) && Contents(stack) + multiset(rest) == multiset(list)
        decreases |stack|
      {
        stack := CollapseTop(stack, stack[|stack| - 2].bits + 1, rest);
      }
    }
    while |stack| >= 2
      invariant stack != [] && Stacked(stack, []) && Contents(stack) == multiset(list)
      decreases |stack|
    {
      stack := CollapseTop(stack, stack[|stack| - 2].bits, []);
    }
    OneRun(stack);
    return stack[0].list;
  }

  // ------------------------------------------------------------------ radix sort

  function Digit(x: Tree, m: nat): nat
    requires m > 0
  {
    x.count / m % 256
  }

  /** The elements with the given digit, in list order. */
  function Bucket(f: seq<Tree>, d: nat, m: nat): seq<Tree>
    requires m > 0
  {
    if f == [] then []
    else Bucket(f[..|f| - 1], d, m) + (if Digit(f[|f| - 1], m) == d then [f[|f| - 1]] else [])
  }

  /** The buckets from d up, one after the other. */
  function Gathered(f: seq<Tree>, m: nat, d: nat): seq<Tree>
    requires m > 0 && d <= 256
    decreases 256 - d
  {
    if d == 256 then [] else Bucket(f, d, m) + Gathered(f, m, d + 1)
  }

  ghost predicate PrecedesMod(x: Tree, y: Tree, m: nat)
    requires m > 0
  {
    x.Leaf? && y.Leaf? && (x.count % m < y.count % m || (x.count % m == y.count % m && x.symbol < y.symbol))
  }

  ghost predicate OrderMod(f: seq<Tree>, m: nat)
    requires m > 0
  {
    forall i, j :: 0 <= i < j < |f| ==> PrecedesMod(f[i], f[j], m)
  }

  lemma {:induction false} BucketElements(f: seq<Tree>, d: nat, m: nat)
    requires m > 0
    ensures forall x :: x in Bucket(f, d, m) ==> x in f && Digit(x, m) == d
    ensures OrderMod(f, m) ==> OrderMod(Bucket(f, d, m), m)
  {
    if f != [] {
      var g, x := f[..|f| - 1], f[|f| - 1];
      BucketElements(g, d, m);
      if OrderMod(f, m) && Digit(x, m) == d {
        var b := Bucket(g, d, m);
        forall i, j | 0 <= i < j < |b + [x]| ensures PrecedesMod((b + [x])[i], (b + [x])[j], m) {
          if j == |b| {
            assert b[i] in g;
            var k :| 0 <= k < |g| && g[k] == b[i];
            assert f[k] == b[i];
          }
        }
      }
    }
  }

  lemma {:induction false} BucketCount(f: seq<Tree>, d: nat, m: nat, x: Tree)
    requires m > 0
    ensures multiset(Bucket(f, d, m))[x] == if Digit(x, m) == d then multiset(f)[x] else 0
  {
    if f != [] {
      BucketCount(f[..|f| - 1], d, m, x);
      assert f == f[..|f| - 1] + [f[|f| - 1]];
    }
  }

  lemma {:induction false} GatheredCount(f: seq<Tree>, m: nat, d: nat, x: Tree)
    requires m > 0 && d <= 256
    ensures multiset(Gathered(f, m, d))[x] == if Digit(x, m) >= d then multiset(f)[x] else 0
    decreases 256 - d
  {
    if d < 256 {
      GatheredCount(f, m, d + 1, x);
      BucketCount(f, d, m, x);
    }
  }

  /** The next digit decides before the lower part of the count does. */
  lemma NextDigit(c: nat, m: nat)
    requires m > 0
    ensures c % (256 * m) == c / m % 256 * m + c % m
  {
    var q, r := c / m, c % m;
    var k, e := q / 256, q % 256;
    DigitBelow(e, r, m);
    SplitDigit(c, m, q, r, k, e);
    ModOfProduct(k, 256 * m, e * m + r);
  }

  lemma SplitDigit(c: nat, m: nat, q: nat, r: nat, k: nat, e: nat)
    requires c == q * m + r && q == k * 256 + e
    ensures c == k * (256 * m) + (e * m + r)
  {
    assert (k * 256 + e) * m == k * (256 * m) + e * m;
  }

  lemma DigitBelow(e: nat, r: nat, m: nat)
    requires e < 256 && r < m
    ensures e * m + r < 256 * m
  {
    MulMonotone(e + 1, 256, m);
    assert (e + 1) * m == e * m + m;
  }

  lemma PrecedesNext(x: Tree, y: Tree, m: nat)
    requires m > 0 && x.Leaf? && y.Leaf?
    requires Digit(x, m) < Digit(y, m) || (Digit(x, m) == Digit(y, m) && PrecedesMod(x, y, m))
    ensures PrecedesMod(x, y, 256 * m)
  {
    NextDigit(x.count, m);
    NextDigit(y.count, m);
    if Digit(x, m) < Digit(y, m) { DigitOrder(Digit(x, m), Digit(y, m), x.count % m, y.count % m, m); }
  }

  lemma DigitOrder(a: nat, b: nat, r: nat, s: nat, m: nat)
    requires r < m && a < b
    ensures a * m + r < b * m + s
  {
    MulMonotone(a + 1, b, m);
    assert (a + 1) * m == a * m + m;
  }

  lemma {:induction false} GatheredElements(f: seq<Tree>, m: nat, d: nat)
    requires m > 0 && d <= 256
    ensures forall x :: x in Gathered(f, m, d) ==> x in f && Digit(x, m) >= d
    decreases 256 - d
  {
    if d < 256 {
      GatheredElements(f, m, d + 1);
      BucketElements(f, d, m);
    }
  }

  /** A pass over the next digit keeps the order of the lower digits within each bucket. */
  lemma {:induction false} GatheredOrder(f: seq<Tree>, m: nat, d: nat)
    requires m > 0 && d <= 256 && OrderMod(f, m) && AllLeaves(f)
    ensures OrderMod(Gathered(f, m, d), 256 * m)
    decreases 256 - d
  {
    if d < 256 {
      GatheredOrder(f, m, d + 1);
      GatheredElements(f, m, d + 1);
      BucketElements(f, d, m);
      var b, g := Bucket(f, d, m), Gathered(f, m, d + 1);
      forall i, j | 0 <= i < j < |b + g| ensures PrecedesMod((b + g)[i], (b + g)[j], 256 * m) {
        if i < |b| {
          assert b[i] in f;
          if j < |b| { assert b[j] in f; } else { assert g[j - |b|] in f; }
          PrecedesNext((b + g)[i], (b + g)[j], m);
        }
      }
    }
  }

  lemma GatheredSame(f: seq<Tree>, m: nat)
    requires m > 0
    ensures multiset(Gathered(f, m, 0)) == multiset(f)
  {
    forall x: Tree ensures multiset(Gathered(f, m, 0))[x] == multiset(f)[x] { GatheredCount(f, m, 0, x); }
  }

  /** One pass: distribution into 256 chains, then linking from the last chain to the first. */
  method RadixPass(f: seq<Tree>, m: nat) returns (g: seq<Tree>)
    requires m > 0
    ensures g == Gathered(f, m, 0)
  {
    var chain := new seq<Tree>[256](_ => []);
    var i := 0;
    while i < |f|
      invariant i <= |f|
      invariant forall d :: 0 <= d < 256 ==> chain[d] == Bucket(f[..i], d, m)
    {
      var d := Digit(f[i], m);
      assert f[..i + 1][..i] == f[..i];
      chain[d] := chain[d] + [f[i]];
      i := i + 1;
    }
    assert f[..i] == f;
    g := [];
    i := 256;
    while i != 0
      invariant 0 <= i <= 256 && g == Gathered(f, m, i)
    {
      i := i - 1;
      g := chain[i] + g;
    }
  }

  lemma ModSmall(x: nat, m: nat)
    requires x < m
    ensures x % m == x
  {
    ModOfProduct(0, m, x);
  }

  /** HuffmanRadixSort: four passes of eight bits. */
  method HuffmanRadixSort(list: seq<Tree>) returns (sorted: seq<Tree>)
    requires BySymbol(list) && forall i :: 0 <= i < |list| ==> list[i].count < 0x1_0000_0000
    ensures StableOrder(sorted) && multiset(sorted) == multiset(list)
  {
    sorted := list;
    var shift, m: nat := 0, 1;
    while shift != 32
      invariant (shift, m) in {(0, 1), (8, 0x100), (16, 0x1_0000), (24, 0x100_0000), (32, 0x1_0000_0000)}
      invariant multiset(sorted) == multiset(list) && OrderMod(sorted, m) && AllLeaves(sorted)
      decreases 32 - shift
    {
      GatheredSame(sorted, m);
      GatheredOrder(sorted, m, 0);
      SameElements(sorted, Gathered(sorted, m, 0));
      sorted := RadixPass(sorted, m);
      shift, m := shift + 8, 256 * m;
    }
    SameElements(list, sorted);
    forall i, j | 0 <= i < j < |sorted| ensures Precedes(sorted[i], sorted[j]) {
      ModSmall(sorted[i].count, m);
      ModSmall(sorted[j].count, m);
      assert PrecedesMod(sorted[i], sorted[j], m);
    }
  }

  lemma SameElements(f: seq<Tree>, g: seq<Tree>)
    requires multiset(f) == multiset(g)
    ensures forall x :: x in g ==> x in f
    ensures AllLeaves(f) ==> AllLeaves(g)
    ensures (forall i :: 0 <= i < |f| ==> f[i].count < 0x1_0000_0000) ==> forall i :: 0 <= i < |g| ==> g[i].count < 0x1_0000_0000
  {
    assert forall x :: x in g ==> x in multiset(g);
    assert forall i :: 0 <= i < |g| ==> g[i] in g;
  }

  const RADIX_MERGE_SORT_THRESHOLD := 64

  /** Lines 716-729: whichever sort is chosen, the list is the same. */
  method SortByCount(list: seq<Tree>) returns (sorted: seq<Tree>)
    requires BySymbol(list) && forall i :: 0 <= i < |list| ==> list[i].count < 0x1_0000_0000
    ensures StableOrder(sorted) && multiset(sorted) == multiset(list)
  {
    if |list| < RADIX_MERGE_SORT_THRESHOLD {
      sorted := HuffmanMergeSort(list);
    } else {
      sorted := HuffmanRadixSort(list);
    }
  }
}
