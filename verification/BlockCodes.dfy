/** Blocks of deflate there and back: the bits that compress_block (trees.c) writes for any
    tokens, with any codes inflate_table accepts, are read by inflate as the same tokens. */
module BlockCodes {
  import opened Bits
  import opened LsbBits
  import RunLength
  import opened DeflateTokens
  import opened HuffmanCodes
  import opened InflateEntries
  import opened InflateSettled
  import opened InflateTables
  import opened InflateStream
  import opened InflateBack
  import opened InflateFast
  import opened TreeCodes

  // ---------------------------------------------------------------- the tables of both sides

  /** The lists inflate has of first lengths and extra bits are those that deflate makes: the
      lengths of one symbol follow on those of the one before, from MIN_MATCH to MAX_MATCH. */
  lemma LengthsFollow()
    ensures |LBASE| == |LEXT| == 31
    ensures LBASE[0] == MIN_MATCH && forall k :: 0 <= k < 27 ==> LBASE[k + 1] == LBASE[k] + Pow2(LEXT[k] - 16)
    ensures LBASE[27] + Pow2(LEXT[27] - 16) - 1 == LBASE[28] == MAX_MATCH
    ensures LEXT[29] >= 64 && LEXT[30] >= 64
  {
    hide Pow2;
    SmallPowers();
  }

  lemma LengthExtras()
    ensures |EXTRA_LBITS| == LENGTH_CODES && |LEXT| == 31
    ensures forall k :: 0 <= k < LENGTH_CODES ==> LEXT[k] == 16 + EXTRA_LBITS[k]
  {
    hide LBASE;
  }

  lemma DistanceExtras()
    ensures |EXTRA_DBITS| == D_CODES && |DEXT| == 32
    ensures forall k :: 0 <= k < D_CODES ==> DEXT[k] == 16 + EXTRA_DBITS[k]
  {
    hide DBASE;
  }

  lemma DistancesFollow()
    ensures |DBASE| == |DEXT| == 32
    ensures DBASE[0] == 1 && forall k :: 0 <= k < 29 ==> DBASE[k + 1] == DBASE[k] + Pow2(DEXT[k] - 16)
    ensures DBASE[29] + Pow2(DEXT[29] - 16) - 1 == 32768
    ensures DEXT[30] == DEXT[31] == 64
  {
    hide Pow2;
    SmallPowers();
  }

  lemma {:induction false} LengthBase(k: nat)
    requires k < 28
    ensures |EXTRA_LBITS| == LENGTH_CODES && LBASE[k] == MIN_MATCH + BaseOf(EXTRA_LBITS, k)
  {
    hide LBASE, LEXT, EXTRA_LBITS, Pow2, BaseOf;
    LengthsFollow();
    LengthExtras();
    if k == 0 {
      NoStretch(EXTRA_LBITS);
    } else {
      LengthBase(k - 1);
      NextStretch(EXTRA_LBITS, k - 1);
    }
  }

  lemma {:induction false} DistanceBase(k: nat)
    requires k < D_CODES
    ensures |EXTRA_DBITS| == D_CODES && DBASE[k] == 1 + BaseOf(EXTRA_DBITS, k)
  {
    hide DBASE, DEXT, EXTRA_DBITS, Pow2, BaseOf;
    DistancesFollow();
    DistanceExtras();
    if k == 0 {
      NoStretch(EXTRA_DBITS);
    } else {
      DistanceBase(k - 1);
      NextStretch(EXTRA_DBITS, k - 1);
    }
  }

  // ---------------------------------------------------------------- one symbol

  lemma {:induction false} LsbOfVal(v: nat, n: nat)
    requires v < Pow2(n)
    ensures LsbVal(LsbOf(v, n)) == v
  {
    if n > 0 { LsbOfVal(v / 2, n - 1); }
  }

  /** A symbol's code is read as that symbol, whatever follows. */
  lemma SymbolRead(kind: Kind, lens: seq<nat>, i: nat, rest: seq<bool>)
    requires Usable(kind, lens) && HasCode(lens, i)
    ensures Answer(kind, lens, SymbolCode(lens, i) + rest) == Found(EntryOf(kind, i, 0).op, EntryOf(kind, i, 0).val, lens[i])
  {
    hide EntryOf, Refused, CodeBits, Symbols;
    var b := SymbolCode(lens, i) + rest;
    assert b[..lens[i]] == SymbolCode(lens, i);
    assert Begins(lens, i, b);
    UsableSymbols(kind, lens);
    BeginsOnce(kind, lens, i, Decoded(lens, b).value, b);
  }

  /** The extra bits are read as what v has beyond the first of its stretch. */
  lemma ExtraRead(extra: seq<nat>, k: nat, v: nat, rest: seq<bool>)
    requires InStretch(extra, k, v)
    ensures var b := ExtraOf(extra, k, v) + rest;
            b[extra[k]..] == rest && BaseOf(extra, k) + LsbVal(b[..extra[k]]) == v
  {
    hide LsbVal, LsbOf, Pow2, BaseOf;
    NextStretch(extra, k);
    var b := ExtraOf(extra, k, v) + rest;
    assert b[..extra[k]] == ExtraOf(extra, k, v);
    if extra[k] == 0 {
      NoValue();
    } else {
      LsbOfVal(v - BaseOf(extra, k), extra[k]);
    }
  }

  lemma NoValue()
    ensures LsbVal([]) == 0 && Pow2(0) == 1
  {
  }

  lemma NoFlags(e: nat)
    requires e < 16
    ensures Flag(16 + e, 16) && !Flag(16 + e, 32) && !Flag(16 + e, 64) && (16 + e) % 16 == e
  {
  }

  lemma DistanceEntry(k: nat)
    requires k < D_CODES
    ensures |EXTRA_DBITS| == D_CODES && EXTRA_DBITS[k] < 16
    ensures EntryOf(Dists, k, 0).op == 16 + EXTRA_DBITS[k] && EntryOf(Dists, k, 0).val == 1 + BaseOf(EXTRA_DBITS, k)
  {
    DistanceBase(k);
    DistanceExtras();
    ExtraBits();
    hide DBASE, DEXT, EXTRA_DBITS, BaseOf, Pow2;
  }

  /** Every distance from 1 to 32768 is read back. */
  lemma DistanceRead(dl: seq<nat>, d: nat, rest: seq<bool>)
    requires Usable(Dists, dl) && d < 32768 && HasCode(dl, DistanceSymbol(d))
    ensures ReadDistance(dl, DistanceCode(dl, d) + rest) == Read(Copy(0, d + 1), |DistanceCode(dl, d)|)
  {
    hide Usable, Answer, EntryOf, SymbolCode, LsbVal, BaseOf, EXTRA_DBITS, ExtraOf, Flag;
    var k := DistanceSymbol(d);
    var code, more := SymbolCode(dl, k), ExtraOf(EXTRA_DBITS, k, d);
    var b := DistanceCode(dl, d) + rest;
    assert b == code + (more + rest);
    UsableSize(Dists, dl);
    DistanceInStretch(d);
    SymbolRead(Dists, dl, k, more + rest);
    DistanceEntry(k);
    NoFlags(EXTRA_DBITS[k]);
    ExtraRead(EXTRA_DBITS, k, d, rest);
    assert b[|code|..|code| + |more|] == (more + rest)[..|more|];
  }

  lemma UsableSize(kind: Kind, lens: seq<nat>)
    requires Usable(kind, lens)
    ensures |lens| <= Alphabet(kind)
  {
  }

  lemma DistanceInStretch(d: nat)
    requires d < 32768
    ensures InStretch(EXTRA_DBITS, DistanceSymbol(d), d)
  {
    DistancesCovered();
    hide BaseOf, EXTRA_DBITS;
  }

  /** The entry of a length symbol, and the length it and its extra bits give. */
  lemma LengthSymbolEntry(lc: nat, rest: seq<bool>)
    requires lc < 256
    ensures var k := LengthSymbol(lc);
            var e, b := EntryOf(Lens, LITERALS + 1 + k, 0), ExtraOf(EXTRA_LBITS, k, lc) + rest;
            && EXTRA_LBITS[k] < 16 && e.op == 16 + EXTRA_LBITS[k] && b[EXTRA_LBITS[k]..] == rest
            && e.val + LsbVal(b[..EXTRA_LBITS[k]]) == lc + MIN_MATCH
  {
    var k := LengthSymbol(lc);
    ExtraBits();
    LengthsFollow();
    LengthExtras();
    LengthsCovered();
    hide BaseOf, EXTRA_LBITS, LBASE, LEXT, LsbVal, Pow2;
    if lc == 255 {
      NoValue();
      assert (ExtraOf(EXTRA_LBITS, k, lc) + rest)[..0] == [];
    } else {
      LengthBase(k);
      ExtraRead(EXTRA_LBITS, k, lc, rest);
    }
  }

  // ---------------------------------------------------------------- one token

  /** What a token is read as. */
  function StepOf(tok: Token): Step
    requires tok.Literal? ==> tok.c >= 0
  {
    match tok
    case Literal(c) => Put(c)
    case Match(len, dist) => Copy(len, dist)
  }

  /** Every length from 3 to 258, with the distance that follows it, is read back. */
  lemma MatchRead(ll: seq<nat>, dl: seq<nat>, lc: nat, d: nat, rest: seq<bool>)
    requires Usable(Lens, ll) && Usable(Dists, dl) && lc < 256 && d < 32768
    requires HasCode(ll, LITERALS + 1 + LengthSymbol(lc)) && HasCode(dl, DistanceSymbol(d))
    ensures |ll| <= Alphabet(Lens) && |dl| <= Alphabet(Dists)
    ensures var code := LengthCode(ll, lc) + DistanceCode(dl, d);
            ReadStep(ll, dl, code + rest) == Read(Copy(lc + MIN_MATCH, d + 1), |code|)
  {
    hide Usable, Answer, EntryOf, SymbolCode, LsbVal, EXTRA_LBITS, ExtraOf, Flag, DistanceCode, ReadDistance;
    var k := LengthSymbol(lc);
    var i := LITERALS + 1 + k;
    var c, x, far := SymbolCode(ll, i), ExtraOf(EXTRA_LBITS, k, lc), DistanceCode(dl, d);
    var b := (LengthCode(ll, lc) + far) + rest;
    UsableSize(Lens, ll);
    UsableSize(Dists, dl);
    assert b == c + (x + (far + rest));
    SymbolRead(Lens, ll, i, x + (far + rest));
    LengthSymbolEntry(lc, far + rest);
    NoFlags(EXTRA_LBITS[k]);
    DistanceRead(dl, d, rest);
    assert b[ll[i]..] == x + (far + rest);
  }

  lemma LiteralRead(ll: seq<nat>, dl: seq<nat>, c: nat, rest: seq<bool>)
    requires Usable(Lens, ll) && |dl| <= Alphabet(Dists) && c <= END_BLOCK && HasCode(ll, c)
    ensures |ll| <= Alphabet(Lens)
    ensures ReadStep(ll, dl, SymbolCode(ll, c) + rest) == Read(if c == END_BLOCK then EndOfBlock else Put(c), ll[c])
  {
    hide Usable, Answer, SymbolCode;
    UsableSize(Lens, ll);
    SymbolRead(Lens, ll, c, rest);
  }

  /** A token's bits are read as that token, whatever follows. */
  lemma TokenRead(ll: seq<nat>, dl: seq<nat>, tok: Token, rest: seq<bool>)
    requires Usable(Lens, ll) && Usable(Dists, dl) && Codable(ll, dl, tok)
    ensures |ll| <= Alphabet(Lens) && |dl| <= Alphabet(Dists)
    ensures ReadStep(ll, dl, TokenCode(ll, dl, tok) + rest) == Read(StepOf(tok), |TokenCode(ll, dl, tok)|)
  {
    hide Usable, ReadStep, LengthCode, DistanceCode, SymbolCode;
    UsableSize(Dists, dl);
    match tok
    case Literal(c) => LiteralRead(ll, dl, c, rest);
    case Match(len, dist) => MatchRead(ll, dl, len - MIN_MATCH, dist - 1, rest);
  }

  // ---------------------------------------------------------------- a block

  /** No distance is greater than the window. */
  ghost predicate Near(toks: seq<Token>, wsize: nat) {
    forall j :: 0 <= j < |toks| ==> toks[j].Match? ==> toks[j].dist <= wsize
  }

  /** One token more does to the output what it stands for. */
  lemma TokenNext(ll: seq<nat>, dl: seq<nat>, wsize: nat, tok: Token, rest: seq<bool>, pre: seq<Token>, out: seq<int>)
    requires Usable(Lens, ll) && Usable(Dists, dl) && Codable(ll, dl, tok) && (tok.Match? ==> tok.dist <= wsize)
    requires Expand(pre) == RunLength.Some(out) && Expand(pre + [tok]).Some?
    ensures |ll| <= Alphabet(Lens) && |dl| <= Alphabet(Dists)
    ensures Next(ll, dl, wsize, Abs(TokenCode(ll, dl, tok) + rest, out, LenMode))
         == Abs(rest, Expand(pre + [tok]).value, LenMode)
  {
    hide Usable, ReadStep, TokenCode, Copied;
    TokenRead(ll, dl, tok, rest);
    ExpandSnoc(pre, tok);
    assert (TokenCode(ll, dl, tok) + rest)[|TokenCode(ll, dl, tok)|..] == rest;
  }

  lemma {:induction false} PrefixExpands(pre: seq<Token>, toks: seq<Token>, n: nat)
    requires n <= |toks| && Expand(pre + toks).Some?
    ensures Expand(pre + toks[..n]).Some?
    decreases |toks| - n
  {
    if n < |toks| {
      PrefixExpands(pre, toks, n + 1);
      assert (pre + toks[..n + 1])[..|pre| + n] == pre + toks[..n];
    } else {
      assert toks[..n] == toks;
    }
  }

  /** The tokens of a block, one step each. */
  lemma {:induction false} TokensNext(ll: seq<nat>, dl: seq<nat>, wsize: nat, toks: seq<Token>, rest: seq<bool>, pre: seq<Token>)
    requires Usable(Lens, ll) && Usable(Dists, dl) && AllCodable(ll, dl, toks) && Near(toks, wsize)
    requires Expand(pre).Some? && Expand(pre + toks).Some?
    ensures |ll| <= Alphabet(Lens) && |dl| <= Alphabet(Dists)
    ensures After(ll, dl, wsize, Abs(TokensCode(ll, dl, toks) + rest, Expand(pre).value, LenMode), |toks|)
         == Abs(rest, Expand(pre + toks).value, LenMode)
    decreases |toks|
  {
    hide Usable, Next, TokenCode, Expand, Codable;
    UsableSize(Lens, ll);
    UsableSize(Dists, dl);
    if |toks| == 0 {
      assert pre + toks == pre && [] + rest == rest;
    } else {
      var init, tok := toks[..|toks| - 1], toks[|toks| - 1];
      PrefixExpands(pre, toks, |toks| - 1);
      assert toks == init + [tok] && pre + toks == (pre + init) + [tok];
      var code := TokenCode(ll, dl, tok);
      TokensNext(ll, dl, wsize, init, code + rest, pre);
      TokenNext(ll, dl, wsize, tok, rest, pre + init, Expand(pre + init).value);
      assert TokensCode(ll, dl, toks) + rest == TokensCode(ll, dl, init) + (code + rest);
    }
  }

  /** A whole block: after as many steps as there are tokens and one more the block has ended, the
      output is what the tokens expand to, and what follows has not been touched. */
  lemma BlockRead(ll: seq<nat>, dl: seq<nat>, wsize: nat, toks: seq<Token>, rest: seq<bool>, pre: seq<Token>)
    requires Usable(Lens, ll) && Usable(Dists, dl) && AllCodable(ll, dl, toks) && Near(toks, wsize) && HasCode(ll, END_BLOCK)
    requires Expand(pre).Some? && Expand(pre + toks).Some?
    ensures |ll| <= Alphabet(Lens) && |dl| <= Alphabet(Dists)
    ensures After(ll, dl, wsize, Abs(BlockCode(ll, dl, toks) + rest, Expand(pre).value, LenMode), |toks| + 1)
         == Abs(rest, Expand(pre + toks).value, TypeMode)
  {
    hide Usable, ReadStep, TokensCode, Expand, Codable, SymbolCode;
    UsableSize(Dists, dl);
    var end := SymbolCode(ll, END_BLOCK);
    assert BlockCode(ll, dl, toks) + rest == TokensCode(ll, dl, toks) + (end + rest);
    TokensNext(ll, dl, wsize, toks, end + rest, pre);
    LiteralRead(ll, dl, END_BLOCK, rest);
    assert (end + rest)[|end|..] == rest;
  }

  // ---------------------------------------------------------------- the decoder on a block

  lemma {:induction false} TokensConcat(ll: seq<nat>, dl: seq<nat>, x: seq<Token>, y: seq<Token>)
    requires AllCodable(ll, dl, x) && AllCodable(ll, dl, y)
    ensures AllCodable(ll, dl, x + y) && TokensCode(ll, dl, x + y) == TokensCode(ll, dl, x) + TokensCode(ll, dl, y)
  {
    hide TokenCode, Codable;
    if |y| == 0 {
      assert x + y == x;
    } else {
      var init := y[..|y| - 1];
      TokensConcat(ll, dl, x, init);
      assert (x + y)[..|x + y| - 1] == x + init;
    }
  }

  /** The bits of the tokens from k on and of the end of the block. */
  ghost function LeftOver(ll: seq<nat>, dl: seq<nat>, toks: seq<Token>, k: nat, rest: seq<bool>): seq<bool>
    requires AllCodable(ll, dl, toks) && HasCode(ll, END_BLOCK) && k <= |toks|
  {
    TokensCode(ll, dl, toks[k..]) + (SymbolCode(ll, END_BLOCK) + rest)
  }

  /** After k steps, k tokens have been read. */
  lemma Midway(ll: seq<nat>, dl: seq<nat>, wsize: nat, toks: seq<Token>, rest: seq<bool>, pre: seq<Token>, k: nat)
    requires Usable(Lens, ll) && Usable(Dists, dl) && AllCodable(ll, dl, toks) && Near(toks, wsize) && HasCode(ll, END_BLOCK)
    requires Expand(pre).Some? && Expand(pre + toks).Some? && k <= |toks|
    ensures |ll| <= Alphabet(Lens) && |dl| <= Alphabet(Dists) && Expand(pre + toks[..k]).Some?
    ensures After(ll, dl, wsize, Abs(BlockCode(ll, dl, toks) + rest, Expand(pre).value, LenMode), k)
         == Abs(LeftOver(ll, dl, toks, k, rest), Expand(pre + toks[..k]).value, LenMode)
  {
    hide Usable, After, TokensCode, Expand, Codable, SymbolCode;
    PrefixExpands(pre, toks, k);
    assert toks == toks[..k] + toks[k..];
    TokensConcat(ll, dl, toks[..k], toks[k..]);
    TokensNext(ll, dl, wsize, toks[..k], LeftOver(ll, dl, toks, k, rest), pre);
    assert BlockCode(ll, dl, toks) + rest == TokensCode(ll, dl, toks[..k]) + LeftOver(ll, dl, toks, k, rest);
  }

  /** The next step there is a token, or the end of the block. */
  lemma NextRead(ll: seq<nat>, dl: seq<nat>, toks: seq<Token>, rest: seq<bool>, k: nat)
    requires Usable(Lens, ll) && Usable(Dists, dl) && AllCodable(ll, dl, toks) && HasCode(ll, END_BLOCK) && k <= |toks|
    ensures |ll| <= Alphabet(Lens) && |dl| <= Alphabet(Dists)
    ensures k < |toks| && toks[k].Literal? ==> toks[k].c >= 0
    ensures ReadStep(ll, dl, LeftOver(ll, dl, toks, k, rest)).step == if k < |toks| then StepOf(toks[k]) else EndOfBlock
  {
    hide Usable, ReadStep, TokenCode, SymbolCode;
    UsableSize(Dists, dl);
    var end := SymbolCode(ll, END_BLOCK) + rest;
    if k < |toks| {
      assert toks[k..] == [toks[k]] + toks[k + 1..];
      TokensConcat(ll, dl, [toks[k]], toks[k + 1..]);
      OneToken(ll, dl, toks[k]);
      var more := TokensCode(ll, dl, toks[k + 1..]);
      assert LeftOver(ll, dl, toks, k, rest) == TokenCode(ll, dl, toks[k]) + (more + end);
      TokenRead(ll, dl, toks[k], more + end);
    } else {
      assert toks[k..] == [] && [] + end == end;
      LiteralRead(ll, dl, END_BLOCK, rest);
    }
  }

  lemma OneToken(ll: seq<nat>, dl: seq<nat>, tok: Token)
    requires Codable(ll, dl, tok)
    ensures AllCodable(ll, dl, [tok]) && TokensCode(ll, dl, [tok]) == TokenCode(ll, dl, tok)
  {
    hide TokenCode, Codable;
    assert [tok][..0] == [] && [] + TokenCode(ll, dl, tok) == TokenCode(ll, dl, tok);
  }

  /** No distance in the block reaches back too far. */
  lemma {:induction false} BlockSound(ll: seq<nat>, dl: seq<nat>, wsize: nat, toks: seq<Token>, rest: seq<bool>, pre: seq<Token>, k: nat)
    requires Usable(Lens, ll) && Usable(Dists, dl) && AllCodable(ll, dl, toks) && Near(toks, wsize) && HasCode(ll, END_BLOCK)
    requires Expand(pre).Some? && Expand(pre + toks).Some? && k <= |toks|
    ensures |ll| <= Alphabet(Lens) && |dl| <= Alphabet(Dists)
    ensures Sound(ll, dl, wsize, After(ll, dl, wsize, Abs(BlockCode(ll, dl, toks) + rest, Expand(pre).value, LenMode), k))
    decreases |toks| - k
  {
    hide Usable, ReadStep, TokensCode, Expand, Codable, SymbolCode, Next, BlockCode, LeftOver;
    Midway(ll, dl, wsize, toks, rest, pre, k);
    NextRead(ll, dl, toks, rest, k);
    if k < |toks| {
      BlockSound(ll, dl, wsize, toks, rest, pre, k + 1);
      PrefixExpands(pre, toks, k + 1);
      assert pre + toks[..k + 1] == (pre + toks[..k]) + [toks[k]];
      if toks[k].Match? { InReach(pre + toks[..k], toks[k]); }
    }
  }

  lemma InReach(pre: seq<Token>, tok: Token)
    requires Expand(pre).Some? && Expand(pre + [tok]).Some? && tok.Match?
    ensures 1 <= tok.dist <= |Expand(pre).value|
  {
    ExpandSnoc(pre, tok);
  }

  /** A state of inflate in front of the bits of a block. */
  ghost predicate Facing(s: Inflater, toks: seq<Token>, rest: seq<bool>, pre: seq<Token>)
    reads s`ll, s`dl, s`hold, s`next, s`out, s`mode
  {
    && s.mode.LenMode? && s.next <= |s.input| && AllCodable(s.ll, s.dl, toks) && HasCode(s.ll, END_BLOCK)
    && Near(toks, s.window.Length) && s.Coming() == BlockCode(s.ll, s.dl, toks) + rest
    && Expand(pre) == RunLength.Some(s.out) && Expand(pre + toks).Some?
  }

  /** Inflate in front of a block that deflate has written: whatever the codes, however the input
      is cut up and the fast loop and single steps take turns, the block's tokens are expanded,
      and the bits behind the block are left. */
  method InflateBlock(s: Inflater, ghost toks: seq<Token>, ghost rest: seq<bool>, ghost pre: seq<Token>)
    requires s.Fed() && s.Rung() && s.Tabled() && |s.hold| < 8 && Facing(s, toks, rest, pre)
    modifies s`hold, s`next, s`have, s`mode, s`put, s`left, s`whave, s`out, s.window
    ensures s.Fed() && s.Rung() && s.mode == TypeMode && Expand(pre + toks) == RunLength.Some(s.out) && s.Coming() == rest
  {
    hide After, Expand, Codable, BlockCode, Sound, Usable, Near, Inflater.Tabled, Inflater.Rung, ReadStep, InLen, Steps,
         Inflater.EndsWithin, Facing, SoundFrom;
    Faced(s, toks, rest, pre);
    ghost var a0 := s.State();
    var r;
    ghost var k;
    r, k := DecodeBlock(s, true);
    Arrived(s, a0, toks, rest, pre, k);
  }

  /** The steps from a0 are those of the block. */
  ghost predicate Course(s: Inflater, a0: Abs, toks: seq<Token>, rest: seq<bool>, pre: seq<Token>)
    reads s`ll, s`dl
  {
    && Expand(pre + toks).Some? && Steps(s, a0, |toks| + 1) == Abs(rest, Expand(pre + toks).value, TypeMode)
    && forall k: nat :: k <= |toks| ==> Steps(s, a0, k).mode.LenMode? && !s.EndsWithin(Steps(s, a0, k).bits)
  }

  lemma Faced(s: Inflater, toks: seq<Token>, rest: seq<bool>, pre: seq<Token>)
    requires s.Tabled() && Facing(s, toks, rest, pre)
    ensures Course(s, s.State(), toks, rest, pre) && SoundFrom(s, s.State()) && s.mode.LenMode?
    ensures |s.ll| <= Alphabet(Lens) && |s.dl| <= Alphabet(Dists)
  {
    hide After, Expand, Codable, BlockCode, Sound, Usable, Near, ReadStep, LeftOver, HasCode, AllCodable, Inflater.Coming, Decodes,
         Safe;
    var wsize := s.window.Length;
    BlockSound(s.ll, s.dl, wsize, toks, rest, pre, 0);
    AfterNone(s.ll, s.dl, wsize, s.State());
    BlockRead(s.ll, s.dl, wsize, toks, rest, pre);
    forall k: nat | k <= |toks| ensures Steps(s, s.State(), k).mode.LenMode? && !s.EndsWithin(Steps(s, s.State(), k).bits) {
      Midway(s.ll, s.dl, wsize, toks, rest, pre, k);
      NextRead(s.ll, s.dl, toks, rest, k);
    }
  }

  /** Decoding stops after the last of these steps and not before. */
  lemma Arrived(s: Inflater, a0: Abs, toks: seq<Token>, rest: seq<bool>, pre: seq<Token>, k: nat)
    requires Course(s, a0, toks, rest, pre)
    ensures InLen(s, a0, k) && !Steps(s, a0, k).mode.LenMode? ==> k == |toks| + 1
    ensures !(InLen(s, a0, k + 1) && s.EndsWithin(Steps(s, a0, k).bits))
    ensures Expand(pre + toks).Some? && Steps(s, a0, |toks| + 1) == Abs(rest, Expand(pre + toks).value, TypeMode)
  {
    hide Steps, Expand, Inflater.EndsWithin;
    assert Steps(s, a0, |toks| + 1).mode == TypeMode;
  }
}
