/** The decoder of plain Xpress (_xpress/xdecode.i:699-970, the careful mode, which checks every bound):
    words of 32 flags, a flag 0 for a literal byte and 1 for a copy of earlier output. */
module XpressDecode {
  import opened Powers
  import opened BitStrings

  const MIN_MATCH: nat := 3
  const MAX_LEN: nat := 7

  ghost predicate AreBytes(s: seq<nat>) { forall i :: 0 <= i < |s| ==> s[i] < 0x100 }

  /** A little endian word of 16 or 32 bits. */
  function Word16(f: seq<nat>, p: nat): nat
    requires p + 2 <= |f|
  {
    f[p] + 0x100 * f[p + 1]
  }

  function Word32(f: seq<nat>, p: nat): nat
    requires p + 4 <= |f|
  {
    Word16(f, p) + 0x1_0000 * Word16(f, p + 2)
  }

  /** memcpy (dst, dst - offset, length) byte by byte: the copy may overlap what it writes. */
  function Copied(out: seq<nat>, offset: nat, length: nat): (r: seq<nat>)
    requires 0 < offset <= |out|
    ensures |r| == |out| + length && r[..|out|] == out
    decreases length
  {
    if length == 0 then out else Copied(out + [out[|out| - offset]], offset, length - 1)
  }

  /** flags are the unread ones of the current word, quad the half-read byte of lengths or -1. */
  datatype Reader = Reader(src: nat, flags: Bits, quad: int, out: seq<nat>)

  datatype Outcome = Running(reader: Reader) | Eof(out: seq<nat>) | Full(out: seq<nat>) | Corrupt

  datatype Flag = NoFlag | Flag(flag: bool, src: nat, flags: Bits)

  /** The next flag, from a new word if the old one is used up. */
  function NextFlag(f: seq<nat>, r: Reader): Flag
  {
    if r.flags != [] then Flag(r.flags[0], r.src, r.flags[1..])
    else if r.src + 4 > |f| then NoFlag
    else var flags := Msb(Word32(f, r.src), 32); Flag(flags[0], r.src + 4, flags[1..])
  }

  datatype Length = NoLength | Length(length: nat, src: nat, quad: int)

  /** The length of a copy: three bits, half a byte shared by two copies, a byte, or a word. */
  function ReadLength(f: seq<nat>, src: nat, quad: int, field: nat): Length
    requires quad < |f|
  {
    if field != MAX_LEN then Length(field + MIN_MATCH, src, quad)
    else if quad < 0 && src >= |f| then NoLength
    else
      var half := if quad < 0 then f[src] % 16 else f[quad] / 16;
      var p, q := if quad < 0 then src + 1 else src, if quad < 0 then src else -1;
      if half != 15 then Length(half + MAX_LEN + MIN_MATCH, p, q)
      else if p >= |f| then NoLength
      else if f[p] != 255 then Length(f[p] + 15 + MAX_LEN + MIN_MATCH, p + 1, q)
      else if p + 3 > |f| then NoLength
      else if Word16(f, p + 1) < 255 + 15 + MAX_LEN then NoLength
      else Length(Word16(f, p + 1) + MIN_MATCH, p + 3, q)
  }

  function ReadCopy(f: seq<nat>, stop: nat, src: nat, flags: Bits, quad: int, out: seq<nat>): Outcome
    requires quad < |f| && |out| < stop
  {
    if src + 2 > |f| then Corrupt
    else
      var w := Word16(f, src);
      match ReadLength(f, src + 2, quad, w % 8)
      case NoLength => Corrupt
      case Length(length, p, q) =>
        var offset := w / 8 + 1;
        if offset > |out| then Corrupt
        else if |out| + length > stop then Full(Copied(out, offset, stop - |out|))
        else Running(Reader(p, flags, q, Copied(out, offset, length)))
  }

  /** One token. */
  function DecodeStep(f: seq<nat>, stop: nat, r: Reader): Outcome
    requires r.quad < |f|
  {
    match NextFlag(f, r)
    case NoFlag => Corrupt
    case Flag(flag, src, flags) =>
      if !flag then
        if |r.out| >= stop then Full(r.out)
        else if src >= |f| then Corrupt
        else Running(Reader(src + 1, flags, r.quad, r.out + [f[src]]))
      else if |r.out| >= stop then Eof(r.out)
      else ReadCopy(f, stop, src, flags, r.quad, r.out)
  }

  lemma StepGrows(f: seq<nat>, stop: nat, r: Reader)
    requires r.quad < |f|
    ensures DecodeStep(f, stop, r).Running? ==>
              var n := DecodeStep(f, stop, r).reader; |r.out| < |n.out| <= stop && n.quad < |f|
  {
  }

  function DecodeFrom(f: seq<nat>, stop: nat, r: Reader): Outcome
    requires r.quad < |f|
    decreases stop - |r.out|
  {
    StepGrows(f, stop, r);
    match DecodeStep(f, stop, r)
    case Running(n) => DecodeFrom(f, stop, n)
    case Eof(out) => Eof(out)
    case Full(out) => Full(out)
    case Corrupt => Corrupt
  }

  /** The first stop bytes were decoded; whether the stream has more to give is only seen if it stops at a literal
      or inside a copy. */
  ghost predicate Gives(o: Outcome, out: seq<nat>)
  {
    o == Full(out) || o == Eof(out)
  }

  function Decode(f: seq<nat>, stop: nat): Outcome { DecodeFrom(f, stop, Reader(0, [], -1, [])) }

  /** The stream gives the first size bytes; if those are all, it also has to end with them. */
  ghost predicate Accepted(comp: seq<nat>, size: nat, whole: bool)
  {
    Decode(comp, size).Eof? || (Decode(comp, size).Full? && !whole)
  }
}
