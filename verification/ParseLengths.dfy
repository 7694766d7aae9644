/** What HuffmanDecodeLengthTable reads from a stream (Xpress9DecHuffman.c:405-622), as functions of the
    stream: every input, well formed or not, has one result. */
module ParseLengths {
  import opened Powers
  import opened BitStrings
  import opened CodeLists
  import opened LengthLists
  import opened DecodeTables
  import opened DecodeHuffman
  import opened TableTokens

  /** BIORD_LOOKUP of n bits at pos. */
  function Peek(mem: Bits, pos: nat, n: nat): (v: nat)
    ensures v < Pow2(n)
  {
    FromLsb(Window(mem, pos, n))
  }

  datatype Parsed = Bad | Good(lengths: seq<nat>, pos: nat)

  // ------------------------------------------------------------------ the stored form

  /** GET_MSB. */
  function TopBit(n: nat): nat { if n <= 1 then 0 else 1 + TopBit(n / 2) }

  lemma {:induction false} TopBitIs(n: nat)
    requires n > 0
    ensures Pow2(TopBit(n)) <= n < Pow2(TopBit(n) + 1)
  {
    if n > 1 { TopBitIs(n / 2); }
  }

  /** How many of n symbols get TopBit(n) bits; the others get one more. */
  function Threshold(n: nat): (t: nat)
    requires n > 0
    ensures t <= n
  {
    TopBitIs(n);
    Pow2(TopBit(n) + 1) - n
  }

  function StoredLength(n: nat, i: nat): nat
    requires n > 0
  {
    if i < Threshold(n) then TopBit(n) else TopBit(n) + 1
  }

  function StoredLengths(n: nat): (lengths: seq<nat>)
    requires n > 0
    ensures |lengths| == n
  {
    seq(n, i requires 0 <= i < n => StoredLength(n, i))
  }

  // ------------------------------------------------------------------ the small table

  /** Entries done on, after the length prev. */
  ghost function ParseSmall(mem: Bits, pos: nat, done: seq<nat>, prev: nat): Parsed
    decreases |mem|, TABLE_SIZE - |done|
  {
    if |done| >= TABLE_SIZE then Good(done, pos)
    else if Peek(mem, pos, 1) == 0 then ParseSmall(mem, pos + 1, done + [prev], prev)
    else
      var k := Peek(mem, pos + 1, 3);
      if k < prev then ParseSmall(mem, pos + 4, done + [k], k)
      else if k + 1 > 8 then Bad
      else ParseSmall(mem, pos + 4, done + [k + 1], k + 1)
  }

  // ------------------------------------------------------------------ the description

  function Zeroes(n: nat): (s: seq<nat>)
    ensures |s| == n
  {
    seq(n, _ => 0)
  }

  datatype Run = NoRun | Run(count: nat, pos: nat)

  /** A run of zeros must end inside the table and inside its row. */
  function RunFits(i: nat, n: nat, size: nat, boundary: nat): bool
    requires boundary > 0
  {
    i + n <= size && Block(i, boundary) == Block(i + n, boundary)
  }

  ghost function ParseGroups(mem: Bits, pos: nat, i: nat, n: nat, size: nat, boundary: nat): Run
    requires boundary > 0
    decreases |mem|, size - i - n
  {
    var k := Peek(mem, pos, 3);
    if !RunFits(i, n + k, size, boundary) then NoRun
    else if k == 7 then ParseGroups(mem, pos + 3, i, n + 7, size, boundary)
    else Run(n + k, pos + 3)
  }

  ghost function ParseRun(mem: Bits, pos: nat, i: nat, size: nat, boundary: nat): (r: Run)
    requires boundary > 0
  {
    var k := Peek(mem, pos, 2);
    var n := k + ZERO_REPT_MIN_COUNT;
    if k == 3 then ParseGroups(mem, pos + 2, i, n, size, boundary)
    else if RunFits(i, n, size, boundary) then Run(n, pos + 2)
    else NoRun
  }

  lemma {:induction false} GroupsFit(mem: Bits, pos: nat, i: nat, n: nat, size: nat, boundary: nat)
    requires boundary > 0
    ensures var r := ParseGroups(mem, pos, i, n, size, boundary);
      r.Run? ==> n <= r.count && RunFits(i, r.count, size, boundary)
    decreases |mem|, size - i - n
  {
    var k := Peek(mem, pos, 3);
    if RunFits(i, n + k, size, boundary) && k == 7 { GroupsFit(mem, pos + 3, i, n + 7, size, boundary); }
  }

  lemma RunIsBounded(mem: Bits, pos: nat, i: nat, size: nat, boundary: nat)
    requires boundary > 0
    ensures var r := ParseRun(mem, pos, i, size, boundary);
      r.Run? ==> r.count >= ZERO_REPT_MIN_COUNT && i + r.count <= size
  {
    var n := Peek(mem, pos, 2) + ZERO_REPT_MIN_COUNT;
    GroupsFit(mem, pos + 2, i, n, size, boundary);
  }

  /** A run of zeros that is accepted ends in the row it begins in, or it is refused. */
  lemma RunStaysInRow(mem: Bits, pos: nat, i: nat, size: nat, boundary: nat)
    requires boundary > 0
    ensures var r := ParseRun(mem, pos, i, size, boundary); r.Run? ==> (i + r.count) / boundary == i / boundary
  {
    GroupsFit(mem, pos + 2, i, Peek(mem, pos, 2) + ZERO_REPT_MIN_COUNT, size, boundary);
  }

  datatype State = Stuck | Filled(done: seq<nat>, prev: nat, pos: nat)

  function RowEnd(i: nat, size: nat, boundary: nat): nat
    requires boundary > 0
  {
    if NextRow(i, boundary) <= size then NextRow(i, boundary) else size
  }

  /** The effect of one symbol of the description; pos is behind the symbol. */
  ghost function Step(symbol: int, mem: Bits, pos: nat, done: seq<nat>, prev: nat, size: nat, boundary: nat, max: nat): (s: State)
    requires boundary > 0 && |done| < size
    ensures s.Filled? ==> |done| < |s.done| <= size
  {
    var i := |done|;
    if symbol == FILL then Filled(done + Zeroes(RowEnd(i, size, boundary) - i), prev, pos)
    else if symbol == ZERO_REPT then
      RunIsBounded(mem, pos, i, size, boundary);
      match ParseRun(mem, pos, i, size, boundary)
      case NoRun => Stuck
      case Run(n, p) => Filled(done + Zeroes(n), prev, p)
    else if symbol == PREV then Filled(done + [prev], prev, pos)
    else if symbol == ROW_0 then
      if i < boundary || done[i - boundary] == 0 then Stuck
      else Filled(done + [done[i - boundary]], done[i - boundary], pos)
    else if symbol == ROW_1 then
      if i < boundary || done[i - boundary] + 1 > max then Stuck
      else Filled(done + [done[i - boundary] + 1], done[i - boundary] + 1, pos)
    else if symbol < 0 || symbol > max then Stuck
    else Filled(done + [symbol], if symbol != 0 then symbol else prev, pos)
  }

  /** The rest of the table, by the code list of the description. */
  ghost function ParseItems(list: seq<Coded>, mem: Bits, pos: nat, done: seq<nat>, prev: nat,
                            size: nat, boundary: nat, max: nat): Parsed
    requires boundary > 0 && Lengths(list)
    decreases |mem|, size - |done|
  {
    if |done| >= size then Good(done, pos)
    else match Next(list, mem, pos)
      case Fault => Bad
      case Symbol(symbol, p) =>
        match Step(symbol, mem, p, done, prev, size, boundary, max)
        case Stuck => Bad
        case Filled(done', prev', p') => ParseItems(list, mem, p', done', prev', size, boundary, max)
  }

  ghost function ParseDescription(mem: Bits, pos: nat, size: nat, boundary: nat, max: nat): Parsed
    requires boundary > 0
  {
    match ParseSmall(mem, pos, [], 4)
    case Bad => Bad
    case Good(small, p) =>
      if Acceptable(small) then ParseItems(Listed(small, UNIT), mem, p, [], 8, size, boundary, max) else Bad
  }

  /** The whole table: three bits say whether it is stored, described, or neither. */
  ghost function ParseTable(mem: Bits, pos: nat, size: nat, boundary: nat, max: nat): Parsed
    requires boundary > 0 && size > 0
  {
    var k := Peek(mem, pos, 3);
    if k == 0 then Good(StoredLengths(size), pos + 3)
    else if k != 1 then Bad
    else ParseDescription(mem, pos + 3, size, boundary, max)
  }

  // ------------------------------------------------------------------ what every parsed table satisfies

  ghost predicate Bounded(s: seq<nat>, max: nat) { forall i :: 0 <= i < |s| ==> s[i] <= max }

  lemma {:induction false} SmallIsBounded(mem: Bits, pos: nat, done: seq<nat>, prev: nat)
    requires |done| <= TABLE_SIZE && Bounded(done, 8) && prev <= 8
    ensures var r := ParseSmall(mem, pos, done, prev); r.Good? ==> |r.lengths| == TABLE_SIZE && Bounded(r.lengths, 8)
    decreases TABLE_SIZE - |done|
  {
    hide Peek;
    if |done| < TABLE_SIZE {
      var k := Peek(mem, pos + 1, 3);
      if Peek(mem, pos, 1) == 0 {
        SmallIsBounded(mem, pos + 1, done + [prev], prev);
      } else if k < prev {
        SmallIsBounded(mem, pos + 4, done + [k], k);
      } else if k + 1 <= 8 {
        SmallIsBounded(mem, pos + 4, done + [k + 1], k + 1);
      }
    }
  }

  lemma StepIsBounded(symbol: int, mem: Bits, pos: nat, done: seq<nat>, prev: nat, size: nat, boundary: nat, max: nat, top: nat)
    requires boundary > 0 && |done| < size && Bounded(done, top) && prev <= top && max <= top
    ensures var s := Step(symbol, mem, pos, done, prev, size, boundary, max);
      s.Filled? ==> Bounded(s.done, top) && s.prev <= top
  {
    hide ParseRun;
  }

  lemma {:induction false} ItemsAreBounded(list: seq<Coded>, mem: Bits, pos: nat, done: seq<nat>, prev: nat,
                                           size: nat, boundary: nat, max: nat, top: nat)
    requires boundary > 0 && Lengths(list) && |done| <= size
    requires Bounded(done, top) && prev <= top && max <= top
    ensures var r := ParseItems(list, mem, pos, done, prev, size, boundary, max);
      r.Good? ==> |r.lengths| == size && Bounded(r.lengths, top)
    decreases size - |done|
  {
    hide Next, Step;
    if |done| < size && Next(list, mem, pos).Symbol? {
      var symbol, p := Next(list, mem, pos).symbol, Next(list, mem, pos).pos;
      StepIsBounded(symbol, mem, p, done, prev, size, boundary, max, top);
      var s := Step(symbol, mem, p, done, prev, size, boundary, max);
      if s.Filled? { ItemsAreBounded(list, mem, s.pos, s.done, s.prev, size, boundary, max, top); }
    }
  }

  /** Whatever the stream holds, an accepted table is complete and its lengths are small enough for the
      bytes that hold them; a repeat of the initial 8 is the one way past the limit asked for. */
  lemma ParsedIsBounded(mem: Bits, pos: nat, size: nat, boundary: nat, max: nat)
    requires boundary > 0 && size > 0
    ensures var r := ParseTable(mem, pos, size, boundary, max);
      r.Good? && Peek(mem, pos, 3) != 0 ==> |r.lengths| == size && Bounded(r.lengths, if max < 8 then 8 else max)
  {
    hide Peek, ParseItems, ParseSmall, Acceptable, Listed;
    SmallIsBounded(mem, pos + 3, [], 4);
    var small := ParseSmall(mem, pos + 3, [], 4);
    if small.Good? && Acceptable(small.lengths) {
      ListIsSorted(small.lengths);
      ItemsAreBounded(Listed(small.lengths, UNIT), mem, small.pos, [], 8, size, boundary, max, if max < 8 then 8 else max);
    }
  }
}
