/** What the token writer of plain Xpress wrote, the decoder expands again: tag_write_start, any tokens, and
    tag_write_finish (_xpress/xencode.c:180-215, 329-378, 470-473, 1525, 1564-1567). */
module XpressRoundTrip {
  import opened Powers
  import opened BitStrings
  import opened XpressDecode
  import opened XpressTokens

  /** The state after the tokens. */
  ghost function AfterTokens(tokens: seq<Token>): (w: State)
    requires Valid(tokens)
    ensures ValidState(w)
  {
    if tokens == [] then Start()
    else
      var t := tokens[|tokens| - 1];
      var w := AfterTokens(tokens[..|tokens| - 1]);
      WrittenIsValid(w, t);
      Written(w, t)
  }

  /** tag_write_finish: flags 1 until the open word is complete; what it reserves behind is not output. */
  ghost function Finished(w: State): seq<nat>
    requires Sound(w)
    decreases 32 - |w.pending|
  {
    TagIsSound(w, true);
    if |w.pending| == 31 then TagWrite(w, true).bytes[..|w.bytes|] else Finished(TagWrite(w, true))
  }

  lemma {:induction false} FinishCompletes(w: State)
    requires Sound(w)
    ensures Completes(Finished(w), w) && |Finished(w)| == |w.bytes|
    ensures Flags(Finished(w), w.tag)[|w.pending|]
    decreases 32 - |w.pending|
  {
    hide Flags, Bytes32, FromMsb;
    TagIsSound(w, true);
    var v := TagWrite(w, true);
    if |w.pending| == 31 {
      Itself(v);
      TagShows(v.bytes, w, true);
      CutOff(v.bytes, w);
      assert Flags(v.bytes, w.tag)[..32][31];
    } else {
      FinishCompletes(v);
      TagShows(Finished(v), w, true);
      assert Flags(Finished(v), w.tag)[..|w.pending| + 1][|w.pending|];
    }
  }

  lemma Itself(v: State)
    requires Sound(v) && v.pending == []
    ensures Completes(v.bytes, v)
  {
    hide Flags;
  }

  lemma CutOff(f: seq<nat>, w: State)
    requires Completes(f, w)
    ensures Completes(f[..|w.bytes|], w) && Flags(f[..|w.bytes|], w.tag) == Flags(f, w.tag)
  {
    hide Msb;
    assert f[..|w.bytes|][w.tag..w.tag + 4] == f[w.tag..w.tag + 4];
    SameWord(f[..|w.bytes|], w.tag, f[w.tag..w.tag + 4]);
    SameWord(f, w.tag, f[w.tag..w.tag + 4]);
  }

  /** The decoder takes exactly the token that was written, and then stands where the writer stood. */
  lemma StepDecodes(f: seq<nat>, stop: nat, w: State, out: seq<nat>, t: Token)
    requires ValidState(w) && ValidToken(t, |out|) && |Appended(out, t)| <= stop
    requires Completes(f, Written(w, t))
    ensures Completes(f, w) && ValidState(Written(w, t))
    ensures DecodeStep(f, stop, Standing(f, w, out)) == Running(Standing(f, Written(w, t), Appended(out, t)))
  {
    hide Flags, Appended, DecodeStep, PutToken, TagWrite, AreBytes;
    TokenShows(f, w, t);
    PutIsSound(w, t);
    TokenRead(f, stop, w, out, t);
    NextStanding(f, w, PutToken(w, t), t.Match?, Appended(out, t));
  }

  lemma TokenRead(f: seq<nat>, stop: nat, w: State, out: seq<nat>, t: Token)
    requires ValidState(w) && ValidToken(t, |out|) && |Appended(out, t)| <= stop
    requires Completes(f, Written(w, t))
    ensures Completes(f, w)
    ensures var v := PutToken(w, t);
      DecodeStep(f, stop, Standing(f, w, out))
      == Running(Reader(|v.bytes|, Flags(f, w.tag)[|w.pending| + 1..], v.quad, Appended(out, t)))
  {
    hide Flags, Word16, Copied, Bytes32, FromMsb, ReadLength, AreBytes, Standing, TagWrite;
    TokenShows(f, w, t);
    NextOfStanding(f, w, out);
    StandingParts(f, w, out);
    assert Flags(f, w.tag)[..|w.pending| + 1][|w.pending|] == t.Match?;
    match t {
      case Literal(byte) =>
        DataShows(f, w, [byte]);
        assert f[|w.bytes|..|w.bytes| + 1][0] == byte;
      case Match(offset, length) => MatchShows(f, w, offset, length);
    }
  }

  lemma StandingParts(f: seq<nat>, w: State, out: seq<nat>)
    requires Completes(f, w) && ValidState(w)
    ensures Standing(f, w, out).out == out && Standing(f, w, out).quad == w.quad
  {
    hide Flags;
  }

  lemma NextStanding(f: seq<nat>, w: State, v: State, flag: bool, out: seq<nat>)
    requires Completes(f, w) && Sound(v) && v.tag == w.tag && v.pending == w.pending && |v.bytes| > |w.bytes|
    requires ValidState(TagWrite(v, flag)) && Completes(f, TagWrite(v, flag))
    ensures Standing(f, TagWrite(v, flag), out) == Reader(|v.bytes|, Flags(f, w.tag)[|w.pending| + 1..], v.quad, out)
  {
    hide Msb, Word32, Bytes32, FromMsb;
  }

  lemma {:induction false} PrefixDecodes(f: seq<nat>, stop: nat, tokens: seq<Token>)
    requires Valid(tokens) && Completes(f, AfterTokens(tokens)) && Size(tokens) <= stop
    ensures DecodeFrom(f, stop, Standing(f, AfterTokens(tokens), Expand(tokens))) == Decode(f, stop)
  {
    hide Completes, DecodeStep, Written, Standing, ValidState;
    if tokens == [] {
      AtStart(f);
    } else {
      var before, t := tokens[..|tokens| - 1], tokens[|tokens| - 1];
      AppendedIs(before, t, tokens);
      StepDecodes(f, stop, AfterTokens(before), Expand(before), t);
      PrefixDecodes(f, stop, before);
    }
  }

  lemma AtStart(f: seq<nat>)
    requires Completes(f, Start())
    ensures Standing(f, Start(), []) == Reader(0, [], -1, [])
  {
  }

  lemma AppendedIs(before: seq<Token>, t: Token, tokens: seq<Token>)
    requires tokens == before + [t] && Valid(tokens)
    ensures tokens[..|before|] == before && Valid(before) && ValidToken(t, Size(before)) && Writable(t)
    ensures Expand(tokens) == Appended(Expand(before), t)
  {
    assert tokens[..|before|] == before;
  }

  /** For every list of tokens the finished stream decodes to what the tokens stand for. */
  lemma TokensRoundTrip(tokens: seq<Token>)
    requires Valid(tokens)
    ensures Decode(Finished(AfterTokens(tokens)), Size(tokens)) == Eof(Expand(tokens))
  {
    var w := AfterTokens(tokens);
    var f := Finished(w);
    FinishCompletes(w);
    PrefixDecodes(f, Size(tokens), tokens);
    NextOfStanding(f, w, Expand(tokens));
  }

  // ------------------------------------------------------------------ decoding into a shorter buffer

  lemma {:induction false} CopiedPrefix(out: seq<nat>, offset: nat, n: nat, m: nat)
    requires 0 < offset <= |out| && n <= m
    ensures Copied(out, offset, n) == Copied(out, offset, m)[..|out| + n]
    decreases m
  {
    if n > 0 {
      CopiedPrefix(out + [out[|out| - offset]], offset, n - 1, m - 1);
    }
  }

  /** The token at which the buffer is full. */
  lemma TokenFills(f: seq<nat>, stop: nat, w: State, out: seq<nat>, t: Token)
    requires ValidState(w) && ValidToken(t, |out|) && |out| <= stop < |Appended(out, t)|
    requires Completes(f, Written(w, t))
    ensures Completes(f, w) && Gives(DecodeStep(f, stop, Standing(f, w, out)), Appended(out, t)[..stop])
    ensures DecodeStep(f, stop, Standing(f, w, out)).Eof? <==> stop == |out| && t.Match?
  {
    hide Flags, Word16, Copied, Bytes32, FromMsb, ReadLength, AreBytes, Standing;
    TokenShows(f, w, t);
    NextOfStanding(f, w, out);
    StandingParts(f, w, out);
    PutIsSound(w, t);
    var flags := Flags(f, w.tag);
    assert flags[..|w.pending| + 1][|w.pending|] == t.Match?;
    match t {
      case Literal(byte) =>
      case Match(offset, length) =>
        MatchShows(f, w, offset, length);
        CopiedPrefix(out, offset, stop - |out|, length);
    }
  }

  /** A copy begins after the first size bytes. */
  ghost predicate MatchAt(tokens: seq<Token>, size: nat)
  {
    exists k :: 0 <= k < |tokens| && Size(tokens[..k]) == size && tokens[k].Match?
  }

  lemma {:induction false} SizeGrows(tokens: seq<Token>, k: nat)
    requires Valid(tokens) && k < |tokens|
    ensures Size(tokens[..k]) < Size(tokens)
    decreases |tokens|
  {
    var before := tokens[..|tokens| - 1];
    if k < |before| {
      SizeGrows(before, k);
      assert before[..k] == tokens[..k];
    }
  }

  lemma EarlierMatch(before: seq<Token>, t: Token, tokens: seq<Token>, size: nat)
    requires tokens == before + [t] && size < Size(before)
    ensures MatchAt(tokens, size) <==> MatchAt(before, size)
  {
    hide Size;
    if k :| 0 <= k < |tokens| && Size(tokens[..k]) == size && tokens[k].Match? {
      assert k < |before| by { assert tokens[..|before|] == before; }
      assert before[..k] == tokens[..k];
    }
    if k :| 0 <= k < |before| && Size(before[..k]) == size && before[k].Match? {
      assert before[..k] == tokens[..k];
    }
  }

  lemma LastMatch(before: seq<Token>, t: Token, tokens: seq<Token>, size: nat)
    requires tokens == before + [t] && Valid(tokens) && Size(before) <= size
    ensures MatchAt(tokens, size) <==> size == Size(before) && t.Match?
  {
    hide Size;
    assert tokens[..|before|] == before;
    if k :| 0 <= k < |tokens| && Size(tokens[..k]) == size && tokens[k].Match? {
      if k < |before| {
        assert before[..k] == tokens[..k];
        SizeGrows(before, k);
      }
    }
    if size == Size(before) && t.Match? { assert tokens[|before|] == t; }
  }

  lemma {:induction false} PrefixFills(f: seq<nat>, stop: nat, tokens: seq<Token>)
    requires Valid(tokens) && Completes(f, AfterTokens(tokens)) && stop < Size(tokens)
    ensures Gives(Decode(f, stop), Expand(tokens)[..stop])
    ensures Decode(f, stop).Eof? <==> MatchAt(tokens, stop)
  {
    hide Completes, DecodeStep, Written, Standing, ValidState;
    var before, t := tokens[..|tokens| - 1], tokens[|tokens| - 1];
    var w := AfterTokens(before);
    AppendedIs(before, t, tokens);
    if stop < Size(before) {
      TokenShows(f, w, t);
      PrefixFills(f, stop, before);
      EarlierMatch(before, t, tokens, stop);
      assert Expand(before)[..stop] == Expand(tokens)[..stop];
    } else {
      TokenFills(f, stop, w, Expand(before), t);
      LastMatch(before, t, tokens, stop);
      PrefixDecodes(f, stop, before);
    }
  }

  /** A shorter buffer receives the beginning of the data. That the data go on is noticed unless a copy begins where
      the buffer ends, for the end of the stream is marked like one. */
  lemma ShortBufferIsFilled(tokens: seq<Token>, stop: nat)
    requires Valid(tokens) && stop < Size(tokens)
    ensures Gives(Decode(Finished(AfterTokens(tokens)), stop), Expand(tokens)[..stop])
    ensures Decode(Finished(AfterTokens(tokens)), stop).Eof? <==> MatchAt(tokens, stop)
  {
    FinishCompletes(AfterTokens(tokens));
    PrefixFills(Finished(AfterTokens(tokens)), stop, tokens);
  }

  /** A longer buffer is never filled. */
  lemma LongBufferIsRefused(tokens: seq<Token>, stop: nat)
    requires Valid(tokens) && stop > Size(tokens)
    ensures Decode(Finished(AfterTokens(tokens)), stop) == Corrupt
  {
    var w := AfterTokens(tokens);
    var f := Finished(w);
    FinishCompletes(w);
    PrefixDecodes(f, stop, tokens);
    NextOfStanding(f, w, Expand(tokens));
  }

  /** For every size that the data may be said to have, and every part of it asked for: what is accepted, and what is
      given then. */
  lemma AcceptedSizes(tokens: seq<Token>, size: nat)
    requires Valid(tokens)
    ensures var f := Finished(AfterTokens(tokens));
      && (Accepted(f, size, false) <==> size <= Size(tokens))
      && (Accepted(f, size, true) <==> size == Size(tokens) || (size < Size(tokens) && MatchAt(tokens, size)))
      && (size <= Size(tokens) ==> Gives(Decode(f, size), Expand(tokens)[..size]))
  {
    hide Decode, Finished, AfterTokens, Expand, Size, Valid, MatchAt;
    if size < Size(tokens) {
      ShortBufferIsFilled(tokens, size);
    } else if size == Size(tokens) {
      TokensRoundTrip(tokens);
      assert Expand(tokens)[..size] == Expand(tokens);
    } else {
      LongBufferIsRefused(tokens, size);
    }
  }
}
