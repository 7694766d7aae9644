/** do_decode of plain Xpress as a loop over one shift register of flags, with a 1 behind the last flag
    (_xpress/xdecode.i:699-970), and XpressDecode around it (_xpress/xdecode.c:306-401). */
module XpressReader {
  import opened Powers
  import opened BitStrings
  import opened XpressDecode

  const TOP: nat := 0x8000_0000

  /** bmask: the unread flags from the top bit down, then a 1, then zeros. */
  ghost function Bmask(flags: Bits): nat
    requires |flags| <= 31
  {
    Shl(2 * FromMsb(flags) + 1, 31 - |flags|)
  }

  lemma BmaskBound(v: nat, n: nat, m: nat)
    requires v < Pow2(n)
    ensures Shl(2 * v + 1, m) < Pow2(n + 1 + m)
  {
    hide Shl, Pow2;
    ShlIs(2 * v + 1, m);
    Pow2Add(n + 1, m);
    Odd2(v, n);
    MulMonotone(2 * v + 1, Pow2(n + 1) - 1, Pow2(m));
    Less(Pow2(n + 1), Pow2(m));
  }

  lemma Odd2(v: nat, n: nat)
    requires v < Pow2(n)
    ensures 2 * v + 1 < Pow2(n + 1)
  {
  }

  lemma Less(a: nat, b: nat)
    requires a > 0 && b > 0
    ensures (a - 1) * b < a * b
  {
  }

  lemma Top(n: nat)
    requires n == 31
    ensures Pow2(n) == TOP && Pow2(n + 1) == 2 * TOP
  {
    Pow2Of32();
  }

  /** Taking one flag shifts the register by one. */
  lemma BmaskNext(flags: Bits)
    requires 0 < |flags| <= 31
    ensures Bmask(flags) >= TOP <==> flags[0]
    ensures 2 * Bmask(flags) % (2 * TOP) == Bmask(flags[1..])
    ensures Bmask(flags) != TOP
  {
    hide Shl, FromMsb, Pow2;
    var b, rest := Bit(flags[0]), flags[1..];
    var n, m: nat := |rest|, 31 - |flags|;
    assert flags == [flags[0]] + rest;
    FromMsbConcat([flags[0]], rest);
    OneFlag(flags[0]);
    ShlAdd(2 * Shl(b, n), 2 * FromMsb(rest) + 1, m);
    ShlTwoTimes(b, n, m);
    BmaskBound(FromMsb(rest), n, m);
    Top(31);
    ShlUp(2 * FromMsb(rest) + 1, m);
    ShlNonzero(2 * FromMsb(rest) + 1, m);
    ShiftOut(b, Shl(2 * FromMsb(rest) + 1, m));
  }

  lemma OneFlag(b: bool)
    ensures FromMsb([b]) == Bit(b)
  {
    assert [b][..0] == [];
  }

  lemma ShlTwoTimes(b: nat, n: nat, m: nat)
    requires b <= 1 && n + m == 30
    ensures Shl(2 * Shl(b, n), m) == b * TOP
  {
    hide Shl, Pow2;
    ShlDouble(Shl(b, n), m);
    ShlTwice(b, n, m);
    ShlIs(b, 31);
    ShlUp(b, 30);
    Top(31);
  }

  lemma ShlDouble(v: nat, m: nat)
    ensures Shl(2 * v, m) == 2 * Shl(v, m)
  {
    ShlAdd(v, v, m);
  }

  lemma ShlUp(v: nat, m: nat)
    ensures Shl(v, m + 1) == 2 * Shl(v, m)
  {
  }

  lemma ShlNonzero(v: nat, m: nat)
    requires v > 0
    ensures Shl(v, m) > 0
  {
    hide Shl, Pow2;
    ShlIs(v, m);
    Product(v, Pow2(m));
  }

  lemma Product(a: nat, b: nat)
    requires a > 0 && b > 0
    ensures a * b > 0
  {
  }

  lemma ShiftOut(b: nat, low: nat)
    requires b <= 1 && 0 < low < TOP
    ensures (b * TOP + low >= TOP <==> b == 1) && 2 * (b * TOP + low) % (2 * TOP) == 2 * low && b * TOP + low != TOP
  {
  }

  lemma NoFlags()
    ensures Bmask([]) == TOP
  {
    Top(31);
    ShlIs(1, 31);
  }

  /** A word just loaded: its top bit is the flag, the others and the 1 are the new register. */
  lemma Loaded(word: nat)
    requires word < 2 * TOP
    ensures var flags := Msb(word, 32);
      (word >= TOP <==> flags[0]) && 2 * word % (2 * TOP) + 1 == Bmask(flags[1..])
  {
    hide Shl, Msb, FromMsb, Pow2;
    var flags := Msb(word, 32);
    Pow2Of32();
    Top(31);
    FromMsbOfMsb(word, 32);
    var b, rest := Bit(flags[0]), flags[1..];
    assert flags == [flags[0]] + rest;
    FromMsbConcat([flags[0]], rest);
    OneFlag(flags[0]);
    ShlIs(b, 31);
    ShlNone(2 * FromMsb(rest) + 1);
    assert word == b * TOP + FromMsb(rest);
  }

  lemma ShlNone(v: nat)
    ensures Shl(v, 0) == v
  {
  }

  // ------------------------------------------------------------------ copying in place

  lemma {:induction false} CopiedNext(out: seq<nat>, offset: nat, n: nat)
    requires 0 < offset <= |out|
    ensures Copied(out, offset, n + 1) == Copied(out, offset, n) + [Copied(out, offset, n)[|out| + n - offset]]
    decreases n
  {
    if n > 0 {
      CopiedNext(out + [out[|out| - offset]], offset, n - 1);
    }
  }

  /** COPY_BLOCK_SLOW. */
  method CopyBlock(dst: array<nat>, at: nat, offset: nat, length: nat)
    requires 0 < offset <= at && at + length <= dst.Length
    modifies dst
    ensures dst[..at + length] == Copied(old(dst[..at]), offset, length)
    ensures forall i :: at + length <= i < dst.Length ==> dst[i] == old(dst[i])
  {
    ghost var before := dst[..at];
    var n := 0;
    while n < length
      invariant n <= length && dst[..at + n] == Copied(before, offset, n)
      invariant forall i :: at + length <= i < dst.Length ==> dst[i] == old(dst[i])
    {
      CopiedNext(before, offset, n);
      assert dst[..at + n][at + n - offset] == dst[at + n - offset];
      dst[at + n] := dst[at + n - offset];
      assert dst[..at + n + 1] == dst[..at + n] + [dst[at + n]];
      n := n + 1;
    }
  }

  method LoadLength(f: seq<nat>, src: nat, quad: int, field: nat) returns (ok: bool, length: nat, src': nat, quad': int)
    requires quad < |f|
    ensures ReadLength(f, src, quad, field) == if ok then Length(length, src', quad') else NoLength
  {
    ok, length, src', quad' := true, field, src, quad;
    if length == MAX_LEN {
      if quad' < 0 {
        if src' >= |f| { ok := false; return; }
        quad' := src';
        length := f[src'] % 16;
        src' := src' + 1;
      } else {
        length := f[quad'] / 16;
        quad' := -1;
      }
      if length == 15 {
        if src' >= |f| { ok := false; return; }
        length := f[src'];
        src' := src' + 1;
        if length == 255 {
          if src' + 2 > |f| { ok := false; return; }
          length := Word16(f, src');
          src' := src' + 2;
          if length < 255 + 15 + MAX_LEN { ok := false; return; }
          length := length + MIN_MATCH;
          return;
        }
        length := length + 15;
      }
      length := length + MAX_LEN + MIN_MATCH;
    } else {
      length := length + MIN_MATCH;
    }
  }

  datatype Result = Failed | Stopped(eof: bool)

  /** The end mark is only reported where the decoded part ends with the buffer. */
  ghost function ResultOf(o: Outcome, whole: bool): Result
  {
    match o
    case Eof(_) => Stopped(whole)
    case Full(_) => Stopped(false)
    case _ => Failed
  }

  /** What is still to be decoded, from the flag register. */
  ghost predicate Reading(f: seq<nat>, dst: seq<nat>, stop: nat, src: nat, bmask: nat, flags: Bits, quad: int, pos: nat)
  {
    && pos <= stop <= |dst| && |flags| <= 31 && bmask == Bmask(flags) && quad < |f|
    && DecodeFrom(f, stop, Reader(src, flags, quad, dst[..pos])) == Decode(f, stop)
  }

  method LoadFlag(f: seq<nat>, src: nat, bmask: nat, ghost r: Reader) returns (ok: bool, flag: bool, src': nat, bmask': nat, ghost flags: Bits)
    requires |r.flags| <= 31 && bmask == Bmask(r.flags) && r.src == src && AreBytes(f)
    ensures if ok then |flags| <= 31 && NextFlag(f, r) == Flag(flag, src', flags) && bmask' == Bmask(flags) else NextFlag(f, r) == NoFlag
  {
    hide Shl, FromMsb, Msb, Bmask;
    ok, flag, src', bmask', flags := true, false, src, bmask, [];
    NoFlags();
    if |r.flags| > 0 { BmaskNext(r.flags); }
    if bmask == TOP {
      if src + 4 > |f| { ok := false; return; }
      var word := Word32(f, src);
      src' := src + 4;
      Loaded(word);
      flag := word >= TOP;
      bmask' := 2 * word % (2 * TOP) + 1;
      flags := Msb(word, 32)[1..];
    } else {
      flag := bmask >= TOP;
      bmask' := 2 * bmask % (2 * TOP);
      flags := r.flags[1..];
    }
  }

  /** A copy, cut off where the decoding stops. */
  method CopyMatch(f: seq<nat>, dst: array<nat>, stop: nat, src: nat, quad: int, pos: nat, ghost flags: Bits)
    returns (ok: bool, more: bool, src': nat, quad': int, pos': nat)
    requires pos < stop <= dst.Length && quad < |f|
    modifies dst
    ensures if ok && more then pos < pos' <= stop && quad' < |f| else pos' == pos
    ensures ReadCopy(f, stop, src, flags, quad, old(dst[..pos]))
            == if !ok then Corrupt else if more then Running(Reader(src', flags, quad', dst[..pos'])) else Full(dst[..stop])
    ensures forall i :: stop <= i < dst.Length ==> dst[i] == old(dst[i])
  {
    hide Copied, ReadLength;
    ok, more, src', quad', pos' := false, false, src, quad, pos;
    if src + 2 > |f| { return; }
    var ofs := Word16(f, src);
    src' := src + 2;
    var length;
    ok, length, src', quad' := LoadLength(f, src', quad, ofs % 8);
    if !ok { return; }
    LengthGrows(f, src + 2, quad, ofs % 8);
    var offset := ofs / 8 + 1;
    ok := offset <= pos;
    if !ok { return; }
    if pos + length > stop {
      CopyBlock(dst, pos, offset, stop - pos);
      return;
    }
    CopyBlock(dst, pos, offset, length);
    more, pos' := true, pos + length;
  }

  lemma LengthGrows(f: seq<nat>, src: nat, quad: int, field: nat)
    requires quad < |f|
    ensures var l := ReadLength(f, src, quad, field); l.Length? ==> l.length > 0 && l.quad < |f|
  {
  }

  /** The first stop bytes of dst are decoded, as far as the stream gives any. */
  method DoDecode(f: seq<nat>, dst: array<nat>, stop: nat) returns (result: Result, ghost n: nat)
    requires AreBytes(f) && stop <= dst.Length
    modifies dst
    ensures result == ResultOf(Decode(f, stop), stop == dst.Length)
    ensures n <= stop && forall i :: stop <= i < dst.Length ==> dst[i] == old(dst[i])
    ensures result.Stopped? ==> n == stop && Gives(Decode(f, stop), dst[..stop])
  {
    hide Shl, FromMsb, Msb, Bmask, Copied, AreBytes, ReadLength;
    var src: nat, bmask: nat, quad: int, pos: nat := 0, TOP, -1, 0;
    ghost var flags: Bits := [];
    NoFlags();
    assert dst[..0] == [];
    n := 0;
    while true
      invariant pos <= stop && n == pos && Reading(f, dst[..], stop, src, bmask, flags, quad, pos)
      invariant forall i :: stop <= i < dst.Length ==> dst[i] == old(dst[i])
      decreases stop - pos
    {
      ghost var r := Reader(src, flags, quad, dst[..pos]);
      assert dst[..][..pos] == dst[..pos];
      StepGrows(f, stop, r);
      var ok, flag;
      ok, flag, src, bmask, flags := LoadFlag(f, src, bmask, r);
      if !ok { return Failed, n; }
      if !flag {
        if pos >= stop { return Stopped(false), n; }
        if src >= |f| { return Failed, n; }
        dst[pos] := f[src];
        assert dst[..pos + 1] == r.out + [f[src]];
        assert dst[..][..pos + 1] == dst[..pos + 1];
        src, pos := src + 1, pos + 1;
      } else {
        if pos >= stop { return Stopped(pos == dst.Length), n; }
        var more;
        ok, more, src, quad, pos := CopyMatch(f, dst, stop, src, quad, pos, flags);
        if !ok { return Failed, n; }
        if !more { return Stopped(false), stop; }
        assert dst[..][..pos] == dst[..pos];
      }
      n := pos;
    }
  }

  // ------------------------------------------------------------------ the call

  const MIN_SIZE: nat := 8
  const BUFF_SIZE: nat := 0x1_0000

  /** XpressDecode: the first decodeSize bytes. A stream as long as the data is taken for stored and left to the caller;
      any other is decoded, and refused unless it is in the limits and gives the bytes asked for. */
  method DecodeBuffer(orig: array<nat>, decodeSize: int, comp: seq<nat>) returns (n: int)
    requires AreBytes(comp)
    modifies orig
    ensures var size := if decodeSize > orig.Length then orig.Length else decodeSize;
      var stored := |comp| == orig.Length || size == 0;
      && (stored ==> n == size && orig[..] == old(orig[..]))
      && (!stored ==> n == -1 || n == size > 0)
      && (!stored ==> (n > 0 <==> size > 0 && 8 <= |comp| < orig.Length <= 65536 && Accepted(comp, size, size == orig.Length)))
      && (!stored && n > 0 ==> Gives(Decode(comp, n), orig[..n]))
    ensures forall i :: 0 <= i < orig.Length && i >= decodeSize ==> orig[i] == old(orig[i])
  {
    hide Decode, AreBytes;
    var size := decodeSize;
    if size > orig.Length { size := orig.Length; }
    if |comp| == orig.Length || size == 0 { return size; }
    if orig.Length < |comp| || orig.Length <= MIN_SIZE || |comp| < MIN_SIZE || orig.Length > BUFF_SIZE || size < 0 {
      return -1;
    }
    var result: Result, _ := DoDecode(comp, orig, size);
    if result.Failed? || (size == orig.Length && !result.eof) { return -1; }
    n := size;
  }
}
