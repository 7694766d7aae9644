/** write_lit, write_ptr and tag_write over the output buffer (_xpress/xencode.c:180-215, 329-378, 470-473). */
module XpressWriter {
  import opened Powers
  import opened BitStrings
  import opened XpressDecode
  import opened XpressReader
  import opened XpressTokens
  import opened XpressRoundTrip

  // ------------------------------------------------------------------ the register of flags

  /** tag_mask: a 1, then the flags written so far; its sign bit is set by 31 of them. */
  ghost function TagMask(flags: Bits): nat { FromMsb([true] + flags) }

  lemma TagMaskNext(flags: Bits, flag: bool)
    requires |flags| < 32
    ensures TagMask(flags) < 2 * TOP && (TagMask(flags) >= TOP <==> |flags| == 31)
    ensures Bit(flag) + 2 * TagMask(flags) % (2 * TOP) ==
            if |flags| == 31 then FromMsb(flags + [flag]) else TagMask(flags + [flag])
  {
    hide FromMsb, TagMask, Pow2;
    TagMaskIs(flags);
    TagMaskIs(flags + [flag]);
    OneMore(flags, flag);
    Power(|flags|);
    NextMask(FromMsb(flags), Pow2(|flags|), Bit(flag), |flags| == 31);
  }

  lemma OneMore(flags: Bits, flag: bool)
    ensures FromMsb(flags + [flag]) == 2 * FromMsb(flags) + Bit(flag)
  {
    assert (flags + [flag])[..|flags|] == flags;
  }

  lemma Power(n: nat)
    requires n < 32
    ensures if n == 31 then Pow2(n) == TOP else 2 * Pow2(n) <= TOP
  {
    Top(31);
    if n < 31 { Pow2Monotone(n + 1, 31); }
  }

  lemma NextMask(v: nat, p: nat, b: nat, last: bool)
    requires v < p && b <= 1 && if last then p == TOP else 2 * p <= TOP
    ensures b + 2 * (p + v) % (2 * TOP) == if last then 2 * v + b else 2 * p + 2 * v + b
  {
  }

  lemma TagMaskIs(flags: Bits)
    ensures TagMask(flags) == Pow2(|flags|) + FromMsb(flags)
    ensures Pow2(|flags| + 1) == 2 * Pow2(|flags|)
  {
    FromMsbConcat([true], flags);
    OneFlag(true);
    ShlIs(1, |flags|);
  }

  lemma TagMaskNone()
    ensures TagMask([]) == 1
  {
    OneFlag(true);
    assert [true] + [] == [true];
  }

  // ------------------------------------------------------------------ the buffer

  const ZEROS: seq<nat> := [0, 0, 0, 0]

  /** The buffer up to the end of the output, with the reserved word read as zeros. */
  ghost function View(b: seq<nat>, tag: nat, end: nat): (v: seq<nat>)
    requires tag + 4 <= end <= |b|
    ensures |v| == end
    ensures forall p :: 0 <= p < end ==> v[p] == if tag <= p < tag + 4 then 0 else b[p]
  {
    Patched(b[..end], tag, ZEROS)
  }

  /** The bytes of data have been stored at the end of the output. */
  ghost predicate Stored(b: seq<nat>, c: seq<nat>, end: nat, data: seq<nat>)
  {
    && |c| == |b| && end + |data| <= |c| && c[end..end + |data|] == data
    && forall p :: 0 <= p < end ==> c[p] == b[p]
  }

  lemma ViewStored(b: seq<nat>, c: seq<nat>, tag: nat, end: nat, data: seq<nat>)
    requires tag + 4 <= end <= |b| && Stored(b, c, end, data)
    ensures View(c, tag, end + |data|) == View(b, tag, end) + data
  {
    forall i | 0 <= i < |data|
      ensures c[end + i] == data[i]
    {
      assert c[end..end + |data|][i] == c[end + i];
    }
  }

  /** The flag word is stored in its place and the next one is reserved. */
  lemma ViewTag(b: seq<nat>, tag: nat, end: nat, data: seq<nat>)
    requires tag + 4 <= end && end + 4 <= |b| && |data| == 4
    ensures View(Patched(b, tag, data), end, end + 4) == Patched(View(b, tag, end), tag, data) + ZEROS
  {
  }

  /** The output of a finished stream ends where the tokens end. */
  lemma ViewCut(b: seq<nat>, tag: nat, end: nat, data: seq<nat>)
    requires tag + 4 <= end <= |b| && |data| == 4
    ensures Patched(b, tag, data)[..end] == (Patched(View(b, tag, end), tag, data) + ZEROS)[..end]
  {
  }

  class TokenWriter {
    const buf: array<nat>
    /** v.temp.ptr, v.temp.tag_ptr, v.temp.tag_mask and v.stat.ptr, which is -1 for a null pointer. */
    var ptr: nat
    var tagPtr: nat
    var tagMask: nat
    var quad: int
    ghost var pending: Bits

    ghost predicate Register()
      reads this
    {
      |pending| < 32 && tagMask == TagMask(pending)
    }

    ghost predicate Valid()
      reads this, buf
    {
      Register() && tagPtr + 4 <= ptr <= buf.Length && Sound(Written())
    }

    /** What has been written. */
    ghost function Written(): State
      reads this, buf
      requires tagPtr + 4 <= ptr <= buf.Length
    {
      State(View(buf[..], tagPtr, ptr), tagPtr, pending, quad)
    }

    /** tag_write_start. */
    constructor (buffer: array<nat>)
      requires buffer.Length >= 4
      ensures buf == buffer && Valid() && Written() == Start()
    {
      buf := buffer;
      tagPtr := 0;
      ptr := 4;
      tagMask := 1;
      quad := -1;
      pending := [];
      new;
      TagMaskNone();
      assert View(buf[..], 0, 4) == ZEROS;
    }

    /** *(tag_t *) at = word, low byte first. */
    method StoreWord(at: nat, word: nat)
      requires at + 4 <= buf.Length
      modifies buf
      ensures buf[..] == Patched(old(buf[..]), at, Bytes32(word))
    {
      buf[at] := word % 0x100;
      buf[at + 1] := word / 0x100 % 0x100;
      buf[at + 2] := word / 0x1_0000 % 0x100;
      buf[at + 3] := word / 0x1_0000 / 0x100 % 0x100;
      assert buf[..] == Patched(old(buf[..]), at, Bytes32(word));
    }

    /** tag_write (p, end, flag). */
    method TagWrite(end: nat, flag: bool) returns (end': nat)
      requires Register() && tagPtr + 4 <= end <= buf.Length
      modifies `tagPtr, `tagMask, `pending, buf
      ensures Register()
      ensures |old(pending)| < 31 ==> end' == end && tagPtr == old(tagPtr) && pending == old(pending) + [flag]
      ensures |old(pending)| < 31 ==> buf[..] == old(buf[..])
      ensures |old(pending)| == 31 ==> end' == end + 4 && tagPtr == end && pending == []
      ensures |old(pending)| == 31 ==>
                buf[..] == Patched(old(buf[..]), old(tagPtr), Bytes32(FromMsb(old(pending) + [flag])))
    {
      hide FromMsb, Bytes32, TagMask, Patched;
      TagMaskNext(pending, flag);
      TagMaskNone();
      end' := end;
      var n := Bit(flag) + 2 * tagMask % (2 * TOP);
      if tagMask >= TOP {
        StoreWord(tagPtr, n);
        tagPtr := end;
        end' := end + 4;
        n := 1;
        pending := [];
      } else {
        pending := pending + [flag];
      }
      tagMask := n;
    }

    /** tag_write behind a token. */
    method Tag(flag: bool)
      requires Valid() && ptr + 4 <= buf.Length
      modifies this, buf
      ensures Valid() && Written() == XpressTokens.TagWrite(old(Written()), flag) && ptr <= old(ptr) + 4
    {
      hide FromMsb, Bytes32, TagMask, View, Sound;
      TagIsSound(Written(), flag);
      if |pending| == 31 { ViewTag(buf[..], tagPtr, ptr, Bytes32(FromMsb(pending + [flag]))); }
      ptr := TagWrite(ptr, flag);
      Between(Written());
    }

    /** write_lit. */
    method WriteLit(ch: nat)
      requires Valid() && ch < 0x100 && ptr + 5 <= buf.Length
      modifies this, buf
      ensures Valid() && Written() == XpressTokens.Written(old(Written()), Literal(ch))
      ensures ptr <= old(ptr) + 5
    {
      hide FromMsb, TagMask, View, Sound;
      ghost var w, before := Written(), buf[..];
      DataIsSound(w, [ch]);
      buf[ptr] := ch;
      ViewStored(before, buf[..], tagPtr, ptr, [ch]);
      ptr := ptr + 1;
      Tag(false);
    }

    /** Two bytes at the end of the output. */
    method StoreHalfWord(v: nat)
      requires Valid() && ptr + 2 <= buf.Length
      modifies `ptr, buf
      ensures Valid() && Written() == Put(old(Written()), Bytes16(v)) && ptr == old(ptr) + 2
    {
      hide FromMsb, TagMask, View, Sound;
      WordIsBytes(v);
      DataIsSound(Written(), Bytes16(v));
      ghost var before := buf[..];
      buf[ptr] := v % 0x100;
      buf[ptr + 1] := v / 0x100 % 0x100;
      ViewStored(before, buf[..], tagPtr, ptr, Bytes16(v));
      ptr := ptr + 2;
    }

    method StoreByte(v: nat)
      requires Valid() && v < 0x100 && ptr + 1 <= buf.Length
      modifies `ptr, buf
      ensures Valid() && Written() == Put(old(Written()), [v]) && ptr == old(ptr) + 1
    {
      hide FromMsb, TagMask, View, Sound;
      DataIsSound(Written(), [v]);
      ghost var before := buf[..];
      buf[ptr] := v;
      ViewStored(before, buf[..], tagPtr, ptr, [v]);
      ptr := ptr + 1;
    }

    /** Four bits of a length, in a new byte or in the upper half of the byte at v.stat.ptr. */
    method StoreHalf(half: nat)
      requires Valid() && half < 16 && ptr + 1 <= buf.Length
      modifies `ptr, `quad, buf
      ensures Valid() && Written() == PutHalf(old(Written()), half) && ptr <= old(ptr) + 1
    {
      hide FromMsb, TagMask;
      HalfIsSound(Written(), half);
      ghost var before := buf[..];
      if quad < 0 {
        quad := ptr;
        buf[ptr] := half;
        ViewStored(before, buf[..], tagPtr, ptr, [half]);
        ptr := ptr + 1;
      } else {
        // the upper half is still 0, so |= of the shifted value adds it
        buf[quad] := buf[quad] + half * 16;
        quad := -1;
      }
    }

    /** write_ptr. */
    method WritePtr(offset: nat, length: nat)
      requires Valid() && Writable(Match(offset, length)) && ptr + 10 <= buf.Length
      modifies this, buf
      ensures Valid() && Written() == XpressTokens.Written(old(Written()), Match(offset, length))
      ensures ptr <= old(ptr) + 10
    {
      hide View, Sound, TagMask, FromMsb, Register, Bytes16, PutHalf, Put;
      ghost var w := Written();
      PutIsSound(w, Match(offset, length));
      var len, ofs := length - MIN_MATCH, (offset - 1) * 8;
      if len < MAX_LEN {
        StoreHalfWord(ofs + len);
      } else {
        StoreHalfWord(ofs + MAX_LEN);
        len := len - MAX_LEN;
        StoreHalf(if len < 15 then len else 15);
        ghost var v := Written();
        PutTwice(v, [255], Bytes16(len + MAX_LEN));
        if len >= 15 {
          len := len - 15;
          if len < 255 {
            StoreByte(len);
          } else {
            StoreByte(255);
            StoreHalfWord(len + MAX_LEN + 15);
          }
        }
      }
      Tag(true);
    }

    /** tag_write behind the last token: the word is completed with its copy of v.temp.ptr. */
    method FinishTag(end: nat) returns (end': nat)
      requires Valid() && end == ptr
      modifies `tagPtr, `tagMask, `pending, buf
      ensures end' == end ==> Valid() && |old(pending)| < 31 && |pending| == |old(pending)| + 1
      ensures end' == end ==> Finished(Written()) == Finished(old(Written()))
      ensures end' != end ==> buf[..ptr] == Finished(old(Written()))
    {
      hide FromMsb, Bytes32, TagMask, View;
      ghost var w := Written();
      TagIsSound(w, true);
      ViewCut(buf[..], tagPtr, ptr, Bytes32(FromMsb(pending + [true])));
      end' := TagWrite(end, true);
      assert buf[..][..ptr] == buf[..ptr];
    }

    /** tag_write_finish. */
    method Finish()
      requires Valid()
      modifies `tagPtr, `tagMask, `pending, buf
      ensures ptr <= buf.Length && buf[..ptr] == Finished(old(Written()))
    {
      hide FromMsb, TagMask, View, Finished;
      var end := FinishTag(ptr);
      while end == ptr
        invariant ptr == old(ptr) <= buf.Length
        invariant end == ptr ==> Valid() && |pending| < 32 && Finished(Written()) == Finished(old(Written()))
        invariant end != ptr ==> buf[..ptr] == Finished(old(Written()))
        decreases end == ptr, 32 - |pending|
      {
        end := FinishTag(end);
      }
    }
  }

  lemma Between(w: State)
    requires ValidState(w)
    ensures Sound(w)
  {
  }

  lemma PutTwice(w: State, data: seq<nat>, more: seq<nat>)
    ensures Put(Put(w, data), more) == Put(w, data + more)
    ensures Put(w, []) == w
  {
  }

  lemma OneMoreToken(tokens: seq<Token>, i: nat)
    requires Valid(tokens) && i < |tokens|
    ensures Valid(tokens[..i + 1]) && Valid(tokens[..i]) && Writable(tokens[i])
    ensures AfterTokens(tokens[..i + 1]) == XpressTokens.Written(AfterTokens(tokens[..i]), tokens[i])
    decreases |tokens| - i
  {
    ValidPrefix(tokens, i + 1);
    assert tokens[..i + 1][..i] == tokens[..i];
  }

  lemma {:induction false} ValidPrefix(tokens: seq<Token>, i: nat)
    requires Valid(tokens) && i <= |tokens|
    ensures Valid(tokens[..i])
    decreases |tokens|
  {
    if i == |tokens| {
      assert tokens[..i] == tokens;
    } else {
      assert tokens[..|tokens| - 1][..i] == tokens[..i];
      ValidPrefix(tokens[..|tokens| - 1], i);
    }
  }

  /** A whole stream: start, as many tokens as there is surely room for, and the end. The n tokens that were written
      can be decoded, and all were if the buffer was long enough. */
  method WriteTokens(tokens: seq<Token>, buffer: array<nat>) returns (n: nat, size: nat)
    requires Valid(tokens) && 4 <= buffer.Length
    modifies buffer
    ensures n <= |tokens| && size <= buffer.Length && Valid(tokens[..n])
    ensures buffer[..size] == Finished(AfterTokens(tokens[..n]))
    ensures Decode(buffer[..size], Size(tokens[..n])) == Eof(Expand(tokens[..n]))
    ensures n < |tokens| ==> size + 10 > buffer.Length
    ensures 4 + 10 * |tokens| <= buffer.Length ==> n == |tokens|
  {
    hide Expand, Decode, Size, View, Finished;
    var w := new TokenWriter(buffer);
    assert tokens[..0] == [];
    n := 0;
    while n < |tokens| && w.ptr + 10 <= buffer.Length
      invariant n <= |tokens| && w.ptr <= 4 + 10 * n && Valid(tokens[..n])
      invariant w.buf == buffer && w.Valid() && fresh(w) && w.Written() == AfterTokens(tokens[..n])
    {
      OneMoreToken(tokens, n);
      if tokens[n].Literal? {
        w.WriteLit(tokens[n].byte);
      } else {
        w.WritePtr(tokens[n].offset, tokens[n].length);
      }
      n := n + 1;
    }
    TokensRoundTrip(tokens[..n]);
    w.Finish();
    size := w.ptr;
  }

  /** Written, and decoded by the call with the size of the data: every part that is asked for comes back. So it is for all
      data of 9 to 65536 bytes that the stream is shorter than, if it has 8 bytes; a stream of the same size is taken
      for stored data, and all others are refused. */
  method WriteAndDecode(tokens: seq<Token>, buffer: array<nat>, orig: array<nat>, part: nat) returns (n: int, size: nat)
    requires Valid(tokens) && 4 + 10 * |tokens| <= buffer.Length && buffer != orig
    requires orig.Length == Size(tokens) && 0 < part <= orig.Length
    modifies buffer, orig
    ensures size == |Finished(AfterTokens(tokens))| <= buffer.Length && buffer[..size] == Finished(AfterTokens(tokens))
    ensures 8 <= size < orig.Length <= 65536 ==> n == part && orig[..part] == Expand(tokens)[..part]
    ensures size == orig.Length ==> n == part && orig[..] == old(orig[..])
    ensures size != orig.Length && !(8 <= size < orig.Length <= 65536) ==> n == -1
    ensures forall i :: part <= i < orig.Length ==> orig[i] == old(orig[i])
  {
    hide Expand, Decode, Size, Finished, AfterTokens, Completes, MatchAt, Valid;
    var written;
    written, size := WriteTokens(tokens, buffer);
    assert tokens[..|tokens|] == tokens;
    FinishedBytes(tokens);
    AcceptedSizes(tokens, part);
    n := DecodeBuffer(orig, part, buffer[..size]);
    if 8 <= size < orig.Length <= 65536 { SamePart(Decode(buffer[..size], part), orig[..part], Expand(tokens)[..part]); }
  }

  lemma FinishedBytes(tokens: seq<Token>)
    requires Valid(tokens)
    ensures AreBytes(Finished(AfterTokens(tokens)))
  {
    FinishCompletes(AfterTokens(tokens));
  }

  lemma SamePart(o: Outcome, a: seq<nat>, b: seq<nat>)
    requires Gives(o, a) && Gives(o, b)
    ensures a == b
  {
  }
}
