/** The bit stream macros of Xpress9Internal.h:314-472 (the AMD64 forms): 32-bit words, written and read
    through a 64-bit shift register, low bits first. */
module BitIo {
  import opened Powers
  import opened BitStrings
  import opened DecodeTables

  // BIO_FLUSH_BITS: the width of BIO_HALF; BIO_FULL has twice as many bits.
  const FLUSH: nat := 32

  /** The bits of a run of words, the low bit of each first. */
  function WordBits(words: seq<nat>): (s: Bits)
    ensures |s| == FLUSH * |words|
  {
    if words == [] then [] else WordBits(words[..|words| - 1]) + Lsb(words[|words| - 1], FLUSH)
  }

  function WordAt(words: seq<nat>, i: nat): nat { if i < |words| then words[i] else 0 }

  ghost predicate AreWords(words: seq<nat>) { forall i :: 0 <= i < |words| ==> words[i] < Pow2(FLUSH) }

  // ------------------------------------------------------------------ values and windows

  lemma {:induction false} LsbOfZero(n: nat)
    ensures Lsb(0, n) == seq(n, _ => false)
    decreases n
  {
    if n > 0 { LsbOfZero(n - 1); }
  }

  /** Adding a value above the n bits of v appends its bits. */
  lemma {:induction false} LsbSum(v: nat, w: nat, n: nat, m: nat)
    requires v < Pow2(n)
    ensures Lsb(v + Shl(w, n), n + m) == Lsb(v, n) + Lsb(w, m)
  {
    hide Lsb, Shl, Shr, Pow2;
    LsbSplit(v + Shl(w, n), n, m);
    ShlIs(w, n);
    ShrOfProduct(w, n, v);
    LsbLow(v, w, n);
  }

  lemma SumBound(v: nat, w: nat, n: nat, m: nat)
    requires v < Pow2(n) && w < Pow2(m)
    ensures v + Shl(w, n) < Pow2(n + m)
  {
    hide Lsb, FromLsb, Shl, Pow2;
    FromLsbOfLsb(v, n);
    FromLsbOfLsb(w, m);
    FromLsbConcat(Lsb(v, n), Lsb(w, m));
    assert FromLsb(Lsb(v, n) + Lsb(w, m)) < Pow2(n + m);
  }

  lemma {:induction false} LsbLow(v: nat, w: nat, n: nat)
    ensures Lsb(v + Shl(w, n), n) == Lsb(v, n)
    decreases n
  {
    if n > 0 {
      assert (v + Shl(w, n)) % 2 == v % 2 && (v + Shl(w, n)) / 2 == v / 2 + Shl(w, n - 1);
      LsbLow(v / 2, w, n - 1);
    }
  }

  lemma {:induction false} LsbMod(v: nat, n: nat)
    ensures Lsb(v % Pow2(n), n) == Lsb(v, n)
  {
    hide Lsb, FromLsb, Pow2;
    FromLsbOfLsb(v, n);
    LsbOfFromLsb(Lsb(v, n));
  }

  lemma Quotient(x: nat, q: nat, m: nat, r: nat)
    requires r < m && x == r + q * m
    ensures x % m == r
  {
    ModOfProduct(q, m, r);
  }

  /** The low bits and the high bits of a value read from the stream. */
  lemma SplitValue(a: Bits, b: Bits)
    ensures FromLsb(a + b) % Pow2(|a|) == FromLsb(a) && Shr(FromLsb(a + b), |a|) == FromLsb(b)
  {
    hide *;
    FromLsbConcat(a, b);
    ShlIs(FromLsb(b), |a|);
    ShrOfProduct(FromLsb(b), |a|, FromLsb(a));
    Quotient(FromLsb(a + b), FromLsb(b), Pow2(|a|), FromLsb(a));
  }

  lemma {:induction false} WordBitsAt(words: seq<nat>, i: nat, j: nat)
    requires i < |words| && j < FLUSH
    ensures WordBits(words)[FLUSH * i + j] == Lsb(words[i], FLUSH)[j]
  {
    if i < |words| - 1 { WordBitsAt(words[..|words| - 1], i, j); }
  }

  /** The 32 bits at word i; past the end of the memory they are read as 0. */
  lemma WordWindow(words: seq<nat>, i: nat, f: nat)
    requires f == FLUSH
    ensures Window(WordBits(words), f * i, f) == Lsb(WordAt(words, i), f)
  {
    hide WordBits, Lsb;
    var s := Window(WordBits(words), f * i, f);
    if i < |words| {
      forall j | 0 <= j < f ensures s[j] == Lsb(words[i], f)[j] { WordBitsAt(words, i, j); }
    } else {
      LsbOfZero(f);
      MulMonotone(|words|, i, f);
      forall j | 0 <= j < f ensures s[j] == Lsb(0, f)[j] { assert !At(WordBits(words), f * i + j); }
    }
  }

  lemma WordBitsAppend(words: seq<nat>, w: nat)
    ensures WordBits(words + [w]) == WordBits(words) + Lsb(w, FLUSH)
  {
    assert (words + [w])[..|words|] == words;
  }

  // ------------------------------------------------------------------ writing

  /** The state of a writer: the words stored so far and the register. BIO_STATE copied by value. */
  class BitWriter {
    var words: seq<nat>
    var register: nat
    var available: nat

    ghost predicate Valid()
      reads this
    {
      AreWords(words) && available < FLUSH && register < Pow2(available)
    }

    /** Everything written so far. */
    ghost function Emitted(): (s: Bits)
      reads this
    {
      WordBits(words) + Lsb(register, available)
    }

    /** BIOWR_TELL_OUTPUT_PTR and BIOWR_TELL_SHIFT_REGISTER_BITS, in bits. */
    function Tell(): (n: nat)
      reads this
      ensures n == |Emitted()|
    {
      FLUSH * |words| + available
    }

    constructor ()
      ensures Valid() && Emitted() == []
    {
      words, register, available := [], 0, 0;
    }

    constructor Copy(other: BitWriter)
      requires other.Valid()
      ensures Valid() && Emitted() == other.Emitted()
    {
      words, register, available := other.words, other.register, other.available;
    }

    method Assign(other: BitWriter)
      requires other.Valid()
      modifies this
      ensures Valid() && Emitted() == other.Emitted()
    {
      words, register, available := other.words, other.register, other.available;
    }

    /** BIOWR. The sum stays below 2^64, so the 64-bit register loses nothing. */
    method Write(mask: nat, n: nat)
      requires Valid() && n <= FLUSH && mask < Pow2(n)
      modifies this
      ensures Valid() && Emitted() == old(Emitted()) + Lsb(mask, n)
    {
      hide Lsb, Shl, Shr, Pow2, WordBits;
      ghost var wide: nat := 2 * FLUSH;
      LsbSum(register, mask, available, n);
      SumBound(register, mask, available, n);
      Pow2Monotone(available + n, wide);
      register := register + Shl(mask, available);
      available := available + n;
      assert register < Pow2(wide);
      assert WordBits(words) + Lsb(register, available) == old(Emitted()) + Lsb(mask, n);
      if available >= FLUSH {
        available := available - FLUSH;
        LsbSplit(register, FLUSH, available);
        LsbMod(register, FLUSH);
        ShrBound(register, available, FLUSH);
        WordBitsAppend(words, register % Pow2(FLUSH));
        words := words + [register % Pow2(FLUSH)];
        register := Shr(register, FLUSH);
      }
    }

    /** BIOWR_FLUSH: the words then in memory, and the number of bytes up to the output pointer. */
    method Flush() returns (memory: seq<nat>, bytes: nat)
      requires Valid()
      ensures AreWords(memory) && Emitted() <= WordBits(memory)
      ensures |Emitted()| <= 8 * bytes < |Emitted()| + 8 && 8 * bytes <= |WordBits(memory)|
    {
      hide Lsb, Shl, Shr, Pow2, WordBits;
      memory, bytes := words, 4 * |words|;
      if available != 0 {
        Pow2Monotone(available, FLUSH);
        LsbSplit(register, available, FLUSH - available);
        WordBitsAppend(words, register);
        memory := words + [register];
        bytes := bytes + (available + 7) / 8;
      }
    }
  }

  // ------------------------------------------------------------------ reading

  lemma WindowSplit(mem: Bits, pos: nat, n: nat, m: nat)
    ensures FromLsb(Window(mem, pos, n + m)) % Pow2(n) == FromLsb(Window(mem, pos, n))
    ensures Shr(FromLsb(Window(mem, pos, n + m)), n) == FromLsb(Window(mem, pos + n, m))
  {
    hide *;
    WindowConcat(mem, pos, n, m);
    SplitValue(Window(mem, pos, n), Window(mem, pos + n, m));
  }

  lemma WindowLoad(mem: Bits, pos: nat, n: nat, m: nat)
    ensures FromLsb(Window(mem, pos, n + m)) == FromLsb(Window(mem, pos, n)) + Shl(FromLsb(Window(mem, pos + n, m)), n)
  {
    hide FromLsb, Shl;
    WindowConcat(mem, pos, n, m);
    FromLsbConcat(Window(mem, pos, n), Window(mem, pos + n, m));
  }

  class BitReader {
    const memory: seq<nat>
    var next: nat
    var register: nat
    var available: int

    /** The register holds exactly the 32 + available bits of memory that come next. */
    ghost predicate Valid()
      reads this
    {
      && AreWords(memory) && 0 <= available <= FLUSH && FLUSH + available <= FLUSH * next
      && register == FromLsb(Window(WordBits(memory), Consumed(), FLUSH + available))
    }

    /** BIORD_TELL_CONSUMED_BITS_STATE: what has been loaded less what is still in the register. */
    function Consumed(): int
      reads this
    {
      FLUSH * next - (FLUSH + available)
    }

    /** BIORD_SET_INPUT_PTR and BIORD_PRELOAD_SHIFT_REGISTER. */
    constructor (memory: seq<nat>)
      requires AreWords(memory)
      ensures this.memory == memory && Valid() && Consumed() == 0
    {
      hide FromLsb, Shl, Window, WordBits, WordAt;
      this.memory := memory;
      available := FLUSH;
      register := WordAt(memory, 0) + Shl(WordAt(memory, 1), FLUSH);
      next := 2;
      new;
      Preloaded(memory);
    }

    /** BIORD_LOOKUP and BIORD_LOOKUP_FIXED. */
    function Lookup(n: nat): (v: nat)
      requires Valid() && n <= FLUSH
      reads this
      ensures v == FromLsb(Window(WordBits(memory), Consumed(), n))
    {
      WindowSplit(WordBits(memory), Consumed(), n, FLUSH + available - n);
      register % Pow2(n)
    }

    /** BIORD_SKIP. */
    method Skip(n: nat)
      requires Valid() && n <= FLUSH
      modifies this`register, this`available, this`next
      ensures Valid() && Consumed() == old(Consumed()) + n
    {
      hide FromLsb, Shl, Shr, Pow2, WordBits;
      ghost var mem := WordBits(memory);
      WindowSplit(mem, Consumed(), n, FLUSH + available - n);
      register := Shr(register, n);
      available := available - n;
      if available < 0 {
        available := available + FLUSH;
        LoadedWord(memory, next);
        WindowLoad(mem, FLUSH * next - available, available, FLUSH);
        register := register + Shl(WordAt(memory, next), available);
        next := next + 1;
      }
    }
  }

  lemma LoadedWord(words: seq<nat>, i: nat)
    requires AreWords(words)
    ensures FromLsb(Window(WordBits(words), FLUSH * i, FLUSH)) == WordAt(words, i)
  {
    hide WordBits, Lsb, FromLsb;
    WordWindow(words, i, FLUSH);
    FromLsbOfLsb(WordAt(words, i), FLUSH);
  }

  lemma Preloaded(words: seq<nat>)
    requires AreWords(words)
    ensures WordAt(words, 0) + Shl(WordAt(words, 1), FLUSH) == FromLsb(Window(WordBits(words), 0, FLUSH + FLUSH))
  {
    hide Shl, FromLsb, Window, WordBits, WordAt;
    LoadedWord(words, 0);
    LoadedWord(words, 1);
    WindowLoad(WordBits(words), 0, FLUSH, FLUSH);
  }

  // ------------------------------------------------------------------ a whole stream

  datatype Field = Field(value: nat, bits: nat)

  ghost predicate Writable(fields: seq<Field>)
  {
    forall i :: 0 <= i < |fields| ==> fields[i].bits <= FLUSH && fields[i].value < Pow2(fields[i].bits)
  }

  function Fields(fields: seq<Field>): (s: Bits)
  {
    if fields == [] then []
    else Fields(fields[..|fields| - 1]) + Lsb(fields[|fields| - 1].value, fields[|fields| - 1].bits)
  }

  lemma FieldsNext(fields: seq<Field>, i: nat)
    requires i < |fields|
    ensures Fields(fields[..i + 1]) == Fields(fields[..i]) + Lsb(fields[i].value, fields[i].bits)
  {
    assert fields[..i + 1][..i] == fields[..i];
  }

  lemma {:induction false} FieldsPrefix(fields: seq<Field>, i: nat)
    requires i <= |fields|
    ensures Fields(fields[..i]) <= Fields(fields)
    decreases |fields| - i
  {
    if i == |fields| {
      assert fields[..i] == fields;
    } else {
      FieldsPrefix(fields, i + 1);
      FieldsNext(fields, i);
    }
  }

  /** Bits that are in front of a stream are what a window there shows. */
  lemma WindowOfPrefix(mem: Bits, a: Bits, b: Bits)
    requires a + b <= mem
    ensures Window(mem, |a|, |b|) == b
  {
    forall i | 0 <= i < |b| ensures Window(mem, |a|, |b|)[i] == b[i] {
      assert At(mem, |a| + i) == (a + b)[|a| + i];
    }
  }

  lemma FieldShown(fields: seq<Field>, i: nat, mem: Bits)
    requires i < |fields| && Writable(fields) && Fields(fields) <= mem
    ensures FromLsb(Window(mem, |Fields(fields[..i])|, fields[i].bits)) == fields[i].value
    ensures |Fields(fields[..i + 1])| == |Fields(fields[..i])| + fields[i].bits
  {
    hide FromLsb, Lsb, Pow2, Fields;
    FieldsPrefix(fields, i + 1);
    FieldsNext(fields, i);
    WindowOfPrefix(mem, Fields(fields[..i]), Lsb(fields[i].value, fields[i].bits));
    FromLsbOfLsb(fields[i].value, fields[i].bits);
  }

  method WriteFields(fields: seq<Field>) returns (memory: seq<nat>)
    requires Writable(fields)
    ensures AreWords(memory) && Fields(fields) <= WordBits(memory)
  {
    hide Lsb, Pow2, Fields, WordBits;
    var writer := new BitWriter();
    NoFields(fields);
    var i := 0;
    while i < |fields|
      invariant i <= |fields| && writer.Valid() && fresh(writer) && writer.Emitted() == Fields(fields[..i])
    {
      FieldsNext(fields, i);
      writer.Write(fields[i].value, fields[i].bits);
      i := i + 1;
    }
    assert fields[..i] == fields;
    var bytes;
    memory, bytes := writer.Flush();
  }

  lemma NoFields(fields: seq<Field>)
    ensures Fields(fields[..0]) == []
  {
  }

  /** Any sequence of BIOWR of at most 32 bits each, flushed, preloaded and read with the same widths,
      gives the values back, whatever follows in memory; the consumed bits are the sum of the widths. */
  method WriteThenRead(fields: seq<Field>, rest: seq<nat>) returns (values: seq<nat>, consumed: int)
    requires Writable(fields) && AreWords(rest)
    ensures |values| == |fields| && forall i :: 0 <= i < |fields| ==> values[i] == fields[i].value
    ensures consumed == |Fields(fields)|
  {
    hide Lsb, FromLsb, Pow2, Fields, WordBits, Window;
    var memory := WriteFields(fields);
    WordBitsJoin(memory, rest);
    var reader := new BitReader(memory + rest);
    ghost var mem := WordBits(memory + rest);
    values := [];
    NoFields(fields);
    while |values| < |fields|
      invariant |values| <= |fields| && reader.Valid() && fresh(reader)
      invariant reader.memory == memory + rest && reader.Consumed() == |Fields(fields[..|values|])|
      invariant forall i :: 0 <= i < |values| ==> values[i] == fields[i].value
    {
      var i := |values|;
      FieldShown(fields, i, mem);
      var v := reader.Lookup(fields[i].bits);
      reader.Skip(fields[i].bits);
      values := values + [v];
    }
    assert fields[..|values|] == fields;
    consumed := reader.Consumed();
  }

  lemma {:induction false} WordBitsJoin(a: seq<nat>, b: seq<nat>)
    ensures WordBits(a + b) == WordBits(a) + WordBits(b)
  {
    hide *;
    if b == [] {
      NoWords();
      assert a + b == a && WordBits(a) + [] == WordBits(a);
    } else {
      var c, w := b[..|b| - 1], b[|b| - 1];
      assert b == c + [w] && a + b == (a + c) + [w];
      WordBitsJoin(a, c);
      WordBitsAppend(c, w);
      WordBitsAppend(a + c, w);
      BitsAssoc(WordBits(a), WordBits(c), Lsb(w, FLUSH));
    }
  }

  lemma NoWords()
    ensures WordBits([]) == []
  {
  }

  lemma BitsAssoc(a: Bits, b: Bits, c: Bits)
    ensures a + (b + c) == (a + b) + c
  {
  }
}
