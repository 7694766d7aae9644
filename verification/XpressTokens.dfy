/** The token writer of plain Xpress (_xpress/xencode.c:180-215, 329-378, 470-473): flag words and shared
    half bytes are written back when they are complete. */
module XpressTokens {
  import opened Powers
  import opened BitStrings
  import opened XpressDecode
  import opened XpressReader

  datatype Token = Literal(byte: nat) | Match(offset: nat, length: nat)

  const MAX_OFFSET: nat := 8192
  const MAX_MATCH: nat := 0x1_0002

  /** A token that the encoder may write after n bytes of output. */
  ghost predicate ValidToken(t: Token, n: nat)
  {
    match t
    case Literal(b) => b < 0x100
    case Match(offset, length) => 1 <= offset <= MAX_OFFSET && offset <= n && MIN_MATCH <= length <= MAX_MATCH
  }

  /** The bytes that a token list stands for. */
  ghost function Expand(tokens: seq<Token>): (out: seq<nat>)
    requires Valid(tokens)
    ensures |out| == Size(tokens)
  {
    if tokens == [] then []
    else
      var t := tokens[|tokens| - 1];
      var before := Expand(tokens[..|tokens| - 1]);
      if t.Literal? then before + [t.byte] else Copied(before, t.offset, t.length)
  }

  function Size(tokens: seq<Token>): nat
  {
    if tokens == [] then 0
    else Size(tokens[..|tokens| - 1]) + if tokens[|tokens| - 1].Literal? then 1 else tokens[|tokens| - 1].length
  }

  ghost predicate Valid(tokens: seq<Token>)
  {
    tokens == [] || (Valid(tokens[..|tokens| - 1]) && ValidToken(tokens[|tokens| - 1], Size(tokens[..|tokens| - 1])))
  }

  /** Two or four bytes, low byte first. */
  function Bytes16(v: nat): (s: seq<nat>)
    ensures |s| == 2
  {
    [v % 0x100, v / 0x100 % 0x100]
  }

  function Bytes32(v: nat): (s: seq<nat>)
    ensures |s| == 4
  {
    Bytes16(v) + Bytes16(v / 0x1_0000)
  }

  lemma BytesOfWord(v: nat)
    requires v < 2 * TOP
    ensures Word32(Bytes32(v), 0) == v
    ensures AreBytes(Bytes32(v))
  {
  }

  // ------------------------------------------------------------------ the state of the writer

  /** bytes written, with the flag word at tag still open; pending are its flags, and quad is the byte whose
      upper half is free, or -1. */
  datatype State = State(bytes: seq<nat>, tag: nat, pending: Bits, quad: int)

  ghost predicate Sound(w: State)
  {
    && w.tag + 4 <= |w.bytes| && |w.pending| < 32 && w.quad < |w.bytes| && AreBytes(w.bytes)
    && (w.quad >= 0 ==> w.bytes[w.quad] < 16 && !(w.tag <= w.quad < w.tag + 4))
  }

  /** Between two tokens: a word without flags has nothing behind it. */
  ghost predicate ValidState(w: State)
  {
    Sound(w) && (w.pending == [] ==> |w.bytes| == w.tag + 4)
  }

  /** f is what the bytes of w may become: only the open flags and the free half byte are still to change. */
  ghost predicate Completes(f: seq<nat>, w: State)
  {
    && Sound(w) && |w.bytes| <= |f| && AreBytes(f)
    && (forall p :: 0 <= p < |w.bytes| && !(w.tag <= p < w.tag + 4) && p != w.quad ==> f[p] == w.bytes[p])
    && w.pending <= Flags(f, w.tag)
    && (w.quad >= 0 ==> f[w.quad] % 16 == w.bytes[w.quad])
  }

  ghost function Flags(f: seq<nat>, tag: nat): (flags: Bits)
    requires tag + 4 <= |f|
    ensures |flags| == 32
  {
    Msb(Word32(f, tag), 32)
  }

  /** Where a decoder of f stands after what w has written. */
  ghost function Standing(f: seq<nat>, w: State, out: seq<nat>): Reader
    requires Completes(f, w) && ValidState(w)
  {
    if w.pending == [] then Reader(w.tag, [], w.quad, out)
    else Reader(|w.bytes|, Flags(f, w.tag)[|w.pending|..], w.quad, out)
  }

  /** The next flag that the decoder sees is the next one of the open word. */
  lemma NextOfStanding(f: seq<nat>, w: State, out: seq<nat>)
    requires Completes(f, w) && ValidState(w)
    ensures var flags := Flags(f, w.tag);
      NextFlag(f, Standing(f, w, out)) == Flag(flags[|w.pending|], |w.bytes|, flags[|w.pending| + 1..])
  {
    hide Msb;
  }

  // ------------------------------------------------------------------ the steps

  /** tag_write_start. */
  function Start(): State { State([0, 0, 0, 0], 0, [], -1) }

  /** *ptr++ = byte. */
  function Put(w: State, data: seq<nat>): State { w.(bytes := w.bytes + data) }

  /** tag_write: the 32nd flag completes the word, and the next word is reserved. */
  ghost function TagWrite(w: State, flag: bool): State
    requires Sound(w)
  {
    var flags := w.pending + [flag];
    if |flags| < 32 then w.(pending := flags)
    else State(Patched(w.bytes, w.tag, Bytes32(FromMsb(flags))) + [0, 0, 0, 0], |w.bytes|, [], w.quad)
  }

  function Patched(s: seq<nat>, at: nat, data: seq<nat>): (r: seq<nat>)
    requires at + |data| <= |s|
    ensures |r| == |s| && forall p :: 0 <= p < |s| ==> r[p] == if at <= p < at + |data| then data[p - at] else s[p]
  {
    s[..at] + data + s[at + |data|..]
  }

  /** The four bits that two copies share a byte for. */
  function PutHalf(w: State, half: nat): State
    requires w.quad < |w.bytes|
  {
    if w.quad < 0 then State(w.bytes + [half], w.tag, w.pending, |w.bytes|)
    else w.(bytes := w.bytes[w.quad := w.bytes[w.quad] + 16 * half], quad := -1)
  }

  /** What m needs beyond its four bits: nothing, a byte, or a byte and a word. */
  function Tail(m: nat): seq<nat>
  {
    if m < 15 then [] else if m - 15 < 255 then [m - 15] else [255] + Bytes16(m + MAX_LEN)
  }

  function Half(m: nat): nat { if m < 15 then m else 15 }

  /** The bytes and the half byte of a copy. */
  ghost function PutMatch(w: State, offset: nat, length: nat): State
    requires offset >= 1 && length >= MIN_MATCH && w.quad < |w.bytes|
  {
    var l, o := length - MIN_MATCH, 8 * (offset - 1);
    if l < MAX_LEN then Put(w, Bytes16(o + l))
    else Put(PutHalf(Put(w, Bytes16(o + MAX_LEN)), Half(l - MAX_LEN)), Tail(l - MAX_LEN))
  }

  ghost function PutToken(w: State, t: Token): State
    requires Sound(w) && Writable(t)
  {
    match t
    case Literal(byte) => Put(w, [byte])
    case Match(offset, length) => PutMatch(w, offset, length)
  }

  /** Tokens within the ranges of their fields. */
  ghost predicate Writable(t: Token)
  {
    match t
    case Literal(byte) => byte < 0x100
    case Match(offset, length) => 1 <= offset <= MAX_OFFSET && MIN_MATCH <= length <= MAX_MATCH
  }

  /** write_lit or write_ptr. */
  ghost function Written(w: State, t: Token): State
    requires Sound(w) && Writable(t)
  {
    PutIsSound(w, t);
    TagWrite(PutToken(w, t), t.Match?)
  }

  lemma PutIsSound(w: State, t: Token)
    requires Sound(w) && Writable(t)
    ensures Sound(PutToken(w, t)) && PutToken(w, t).pending == w.pending && PutToken(w, t).tag == w.tag
    ensures |PutToken(w, t).bytes| > |w.bytes|
  {
    match t {
      case Literal(byte) => DataIsSound(w, [byte]);
      case Match(offset, length) =>
        var l, o := length - MIN_MATCH, 8 * (offset - 1);
        if l < MAX_LEN {
          DataIsSound(w, Bytes16(o + l));
        } else {
          var head := Put(w, Bytes16(o + MAX_LEN));
          DataIsSound(w, Bytes16(o + MAX_LEN));
          HalfIsSound(head, Half(l - MAX_LEN));
          DataIsSound(PutHalf(head, Half(l - MAX_LEN)), Tail(l - MAX_LEN));
        }
    }
  }

  lemma DataIsSound(w: State, data: seq<nat>)
    requires Sound(w) && AreBytes(data)
    ensures Sound(Put(w, data))
  {
  }

  lemma HalfIsSound(w: State, half: nat)
    requires Sound(w) && half < 16
    ensures Sound(PutHalf(w, half))
  {
  }

  lemma TagIsSound(w: State, flag: bool)
    requires Sound(w)
    ensures ValidState(TagWrite(w, flag))
  {
    var flags := w.pending + [flag];
    Pow2Of32();
    if |flags| == 32 { BytesOfWord(FromMsb(flags)); }
  }

  lemma WrittenIsValid(w: State, t: Token)
    requires Sound(w) && Writable(t)
    ensures ValidState(Written(w, t))
  {
    PutIsSound(w, t);
    TagIsSound(PutToken(w, t), t.Match?);
  }

  // ------------------------------------------------------------------ what a finished stream still shows of each step

  lemma DataShows(f: seq<nat>, w: State, data: seq<nat>)
    requires Sound(w) && AreBytes(data) && Completes(f, Put(w, data))
    ensures Completes(f, w)
    ensures f[|w.bytes|..|w.bytes| + |data|] == data
  {
    var n := |w.bytes|;
    forall i | 0 <= i < |data|
      ensures f[n + i] == data[i]
    {
      assert Put(w, data).bytes[n + i] == data[i];
    }
    forall p | 0 <= p < n
      ensures Put(w, data).bytes[p] == w.bytes[p]
    {
    }
  }

  lemma HalfShows(f: seq<nat>, w: State, half: nat)
    requires Sound(w) && half < 16 && Completes(f, PutHalf(w, half))
    ensures Completes(f, w)
    ensures half == if w.quad < 0 then f[|w.bytes|] % 16 else f[w.quad] / 16
  {
    var v := PutHalf(w, half);
    if w.quad < 0 {
      assert v.bytes[..|w.bytes|] == w.bytes;
      assert f[v.quad] % 16 == half;
    } else {
      assert f[w.quad] == w.bytes[w.quad] + 16 * half;
    }
  }

  lemma TagShows(f: seq<nat>, w: State, flag: bool)
    requires Sound(w) && Completes(f, TagWrite(w, flag))
    ensures Completes(f, w)
    ensures Flags(f, w.tag)[..|w.pending| + 1] == w.pending + [flag]
  {
    hide Msb, FromMsb, Bytes32, Word32;
    var flags := w.pending + [flag];
    if |flags| < 32 {
      assert flags[..|w.pending|] == w.pending;
    } else {
      WordPatched(f, w, Bytes32(FromMsb(flags)));
      Pow2Of32();
      BytesOfWord(FromMsb(flags));
      SameWord(f, w.tag, Bytes32(FromMsb(flags)));
      MsbOfFromMsb(flags);
    }
  }

  /** The flags are in place, and nothing else has changed. */
  lemma WordPatched(f: seq<nat>, w: State, data: seq<nat>)
    requires Sound(w) && |data| == 4
    requires Completes(f, State(Patched(w.bytes, w.tag, data) + [0, 0, 0, 0], |w.bytes|, [], w.quad))
    ensures |w.bytes| <= |f| && AreBytes(f) && f[w.tag..w.tag + 4] == data
    ensures forall p :: 0 <= p < |w.bytes| && !(w.tag <= p < w.tag + 4) && p != w.quad ==> f[p] == w.bytes[p]
    ensures w.quad >= 0 ==> f[w.quad] % 16 == w.bytes[w.quad]
  {
    hide Flags;
    var v := Patched(w.bytes, w.tag, data) + [0, 0, 0, 0];
    forall i | 0 <= i < 4
      ensures f[w.tag + i] == data[i]
    {
      assert v[w.tag + i] == data[i];
    }
    forall p | 0 <= p < |w.bytes| && !(w.tag <= p < w.tag + 4)
      ensures v[p] == w.bytes[p]
    {
    }
  }

  lemma SameWord(f: seq<nat>, at: nat, data: seq<nat>)
    requires at + 4 <= |f| && |data| == 4 && f[at..at + 4] == data
    ensures Word32(f, at) == Word32(data, 0)
  {
    forall i | 0 <= i < 4
      ensures f[at + i] == data[i]
    {
      assert f[at..at + 4][i] == f[at + i];
    }
  }

  lemma WordShows(f: seq<nat>, at: nat, v: nat)
    requires v < 0x1_0000 && at + 2 <= |f| && f[at..at + 2] == Bytes16(v)
    ensures Word16(f, at) == v
  {
    assert f[at] == f[at..at + 2][0] && f[at + 1] == f[at..at + 2][1];
  }

  /** What follows the half byte m was cut to. */
  lemma TailShows(f: seq<nat>, at: nat, m: nat)
    requires AreBytes(f) && m + MAX_LEN < 0x1_0000 && at + |Tail(m)| <= |f| && f[at..at + |Tail(m)|] == Tail(m)
    ensures m >= 15 ==> f[at] == (if m - 15 < 255 then m - 15 else 255)
    ensures m >= 15 + 255 ==> at + 3 <= |f| && Word16(f, at + 1) == m + MAX_LEN
  {
    var t := f[at..at + |Tail(m)|];
    if m >= 15 { assert f[at] == t[0]; }
    if m >= 15 + 255 {
      assert f[at + 1] == t[1] && f[at + 2] == t[2];
    }
  }

  /** From the half byte and the tail to the length. */
  lemma LengthFrom(f: seq<nat>, src: nat, quad: int, m: nat, p: nat, q: int)
    requires AreBytes(f) && quad < |f| && m + MAX_LEN < 0x1_0000
    requires if quad < 0 then src < |f| && f[src] % 16 == Half(m) && p == src + 1 && q == src
             else f[quad] / 16 == Half(m) && p == src && q == -1
    requires p + |Tail(m)| <= |f|
    requires m >= 15 ==> f[p] == (if m - 15 < 255 then m - 15 else 255)
    requires m >= 15 + 255 ==> p + 3 <= |f| && Word16(f, p + 1) == m + MAX_LEN
    ensures ReadLength(f, src, quad, MAX_LEN) == Length(m + MAX_LEN + MIN_MATCH, p + |Tail(m)|, q)
  {
    hide Word16, AreBytes, Tail;
    TailSize(m);
  }

  lemma LengthShows(f: seq<nat>, w: State, m: nat)
    requires Sound(w) && m + MAX_LEN < 0x1_0000
    requires Completes(f, Put(PutHalf(w, Half(m)), Tail(m)))
    ensures Completes(f, w)
    ensures var v := Put(PutHalf(w, Half(m)), Tail(m));
      ReadLength(f, |w.bytes|, w.quad, MAX_LEN) == Length(m + MAX_LEN + MIN_MATCH, |v.bytes|, v.quad)
  {
    hide ReadLength, Completes, Word16;
    HalfIsSound(w, Half(m));
    var h := PutHalf(w, Half(m));
    TailIsBytes(m);
    DataShows(f, h, Tail(m));
    HalfShows(f, w, Half(m));
    Room(f, Put(h, Tail(m)));
    TailShows(f, |h.bytes|, m);
    hide Tail, Half;
    LengthFrom(f, |w.bytes|, w.quad, m, |h.bytes|, h.quad);
  }

  lemma TailIsBytes(m: nat)
    ensures AreBytes(Tail(m))
  {
  }

  lemma Room(f: seq<nat>, w: State)
    requires Completes(f, w)
    ensures |w.bytes| <= |f| && AreBytes(f)
  {
  }

  lemma TailSize(m: nat)
    ensures |Tail(m)| == if m < 15 then 0 else if m - 15 < 255 then 1 else 3
  {
  }

  /** A copy is read back as it was written. */
  lemma MatchShows(f: seq<nat>, w: State, offset: nat, length: nat)
    requires Sound(w) && Writable(Match(offset, length)) && Completes(f, PutMatch(w, offset, length))
    ensures Completes(f, w) && |w.bytes| + 2 <= |f|
    ensures var v, o := PutMatch(w, offset, length), Word16(f, |w.bytes|);
      o / 8 + 1 == offset && ReadLength(f, |w.bytes| + 2, w.quad, o % 8) == Length(length, |v.bytes|, v.quad)
  {
    hide Completes, Word16, Sound, Bytes16, PutHalf, Tail, Half;
    var l, o := length - MIN_MATCH, 8 * (offset - 1);
    var low := if l < MAX_LEN then l else MAX_LEN;
    var head := Put(w, Bytes16(o + low));
    WordIsBytes(o + low);
    DataIsSound(w, Bytes16(o + low));
    if l >= MAX_LEN { LengthShows(f, head, l - MAX_LEN); }
    Room(f, head);
    DataShows(f, w, Bytes16(o + low));
    WordShows(f, |w.bytes|, o + low);
  }

  lemma WordIsBytes(v: nat)
    ensures AreBytes(Bytes16(v))
  {
  }

  // ------------------------------------------------------------------ one token, decoded

  ghost function Appended(out: seq<nat>, t: Token): seq<nat>
    requires ValidToken(t, |out|)
  {
    if t.Literal? then out + [t.byte] else Copied(out, t.offset, t.length)
  }

  lemma {:induction false} TokenShows(f: seq<nat>, w: State, t: Token)
    requires ValidState(w) && Writable(t) && Completes(f, Written(w, t))
    ensures Completes(f, w) && Completes(f, PutToken(w, t)) && ValidState(Written(w, t))
    ensures Flags(f, w.tag)[..|w.pending| + 1] == w.pending + [t.Match?]
  {
    PutIsSound(w, t);
    WrittenIsValid(w, t);
    TagShows(f, PutToken(w, t), t.Match?);
    match t {
      case Literal(byte) => DataShows(f, w, [byte]);
      case Match(offset, length) => MatchShows(f, w, offset, length);
    }
  }
}
