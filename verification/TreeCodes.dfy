/** The symbols that stand for lengths and distances, and a block of tokens written with them
    (trees.c, tr_static_init and compress_block; section 3.2.5 of RFC 1951). */
module TreeCodes {
  import opened Bits
  import opened LsbBits
  import opened DeflateTokens
  import opened HuffmanCodes
  import opened InflateCodes

  const LENGTH_CODES := 29
  const D_CODES := 30
  const LITERALS := 256
  const END_BLOCK := 256

  const EXTRA_LBITS: seq<nat> := [0, 0, 0, 0, 0, 0, 0, 0, 1, 1, 1, 1, 2, 2, 2, 2, 3, 3, 3, 3, 4, 4, 4, 4, 5, 5, 5, 5, 0]
  const EXTRA_DBITS: seq<nat> := [0, 0, 0, 0, 1, 1, 2, 2, 3, 3, 4, 4, 5, 5, 6, 6, 7, 7, 8, 8, 9, 9, 10, 10,
                                  11, 11, 12, 12, 13, 13]

  // ---------------------------------------------------------------- stretches

  /** Where the stretch of symbol k begins: each stretch is as long as its extra bits can tell
      apart, and follows on the one before. */
  ghost function BaseOf(extra: seq<nat>, k: nat): nat
    requires k <= |extra|
  {
    if k == 0 then 0 else BaseOf(extra, k - 1) + Pow2(extra[k - 1])
  }

  ghost predicate InStretch(extra: seq<nat>, k: nat, v: nat) {
    k < |extra| && BaseOf(extra, k) <= v < BaseOf(extra, k + 1)
  }

  lemma {:induction false} BasesGrow(extra: seq<nat>, j: nat, k: nat)
    requires j <= k <= |extra|
    ensures BaseOf(extra, j) <= BaseOf(extra, k) && (j < k ==> BaseOf(extra, j + 1) <= BaseOf(extra, k))
  {
    if j < k { BasesGrow(extra, j, k - 1); }
  }

  /** A later symbol stands for greater values, so that no value has two. */
  lemma StretchesApart(extra: seq<nat>, j: nat, k: nat, u: nat, v: nat)
    requires j < k && InStretch(extra, j, u) && InStretch(extra, k, v)
    ensures u < v
  {
    BasesGrow(extra, j, k);
  }

  ghost function StretchFrom(extra: seq<nat>, v: nat, k: nat): (r: nat)
    requires k < |extra| && BaseOf(extra, k) <= v < BaseOf(extra, |extra|)
    ensures InStretch(extra, r, v)
    decreases |extra| - k
  {
    if v < BaseOf(extra, k + 1) then k else StretchFrom(extra, v, k + 1)
  }

  /** The symbol for v. */
  ghost function StretchOf(extra: seq<nat>, v: nat): (r: nat)
    requires v < BaseOf(extra, |extra|)
    ensures InStretch(extra, r, v)
  {
    StretchFrom(extra, v, 0)
  }

  lemma StretchKnown(extra: seq<nat>, k: nat, v: nat)
    requires InStretch(extra, k, v)
    ensures v < BaseOf(extra, |extra|) && StretchOf(extra, v) == k
  {
    BasesGrow(extra, k + 1, |extra|);
    var j := StretchOf(extra, v);
    if j < k { StretchesApart(extra, j, k, v, v); }
    if k < j { StretchesApart(extra, k, j, v, v); }
  }

  lemma SmallPowers()
    ensures Pow2(0) == 1 && Pow2(1) == 2 && Pow2(2) == 4 && Pow2(3) == 8 && Pow2(4) == 16 && Pow2(5) == 32 && Pow2(6) == 64
    ensures Pow2(7) == 128 && Pow2(8) == 256 && Pow2(9) == 512 && Pow2(10) == 1024 && Pow2(11) == 2048
    ensures Pow2(12) == 4096 && Pow2(13) == 8192
  {
  }

  /** The rule the extra bits follow; a length of 258 has a symbol of its own. */
  lemma ExtraBits()
    ensures |EXTRA_LBITS| == LENGTH_CODES && |EXTRA_DBITS| == D_CODES
    ensures forall k :: 0 <= k < 28 ==> EXTRA_LBITS[k] == if k < 8 then 0 else k / 4 - 1
    ensures EXTRA_LBITS[28] == 0
    ensures forall k :: 0 <= k < 30 ==> EXTRA_DBITS[k] == if k < 4 then 0 else k / 2 - 1
  {
  }

  lemma Four(extra: seq<nat>, k: nat, e: nat)
    requires k + 4 <= |extra| && forall j :: k <= j < k + 4 ==> extra[j] == e
    ensures BaseOf(extra, k + 4) == BaseOf(extra, k) + 4 * Pow2(e)
  {
    assert BaseOf(extra, k + 1) == BaseOf(extra, k) + Pow2(e);
    assert BaseOf(extra, k + 2) == BaseOf(extra, k + 1) + Pow2(e);
    assert BaseOf(extra, k + 3) == BaseOf(extra, k + 2) + Pow2(e);
  }

  lemma Two(extra: seq<nat>, k: nat, e: nat)
    requires k + 2 <= |extra| && extra[k] == extra[k + 1] == e
    ensures BaseOf(extra, k + 2) == BaseOf(extra, k) + 2 * Pow2(e)
  {
    assert BaseOf(extra, k + 1) == BaseOf(extra, k) + Pow2(e);
  }

  /** The stretches of symbols 0 to 27 make up the lengths from 3 to 258. */
  lemma LengthsCovered()
    ensures |EXTRA_LBITS| == LENGTH_CODES && BaseOf(EXTRA_LBITS, 28) == 256 && BaseOf(EXTRA_LBITS, 29) == 257
  {
    hide BaseOf, EXTRA_LBITS, EXTRA_DBITS;
    ExtraBits();
    SmallPowers();
    NoStretch(EXTRA_LBITS);
    Four(EXTRA_LBITS, 0, 0);
    Four(EXTRA_LBITS, 4, 0);
    Four(EXTRA_LBITS, 8, 1);
    Four(EXTRA_LBITS, 12, 2);
    Four(EXTRA_LBITS, 16, 3);
    Four(EXTRA_LBITS, 20, 4);
    Four(EXTRA_LBITS, 24, 5);
    NextStretch(EXTRA_LBITS, 28);
  }

  lemma NoStretch(extra: seq<nat>)
    ensures BaseOf(extra, 0) == 0
  {
  }

  lemma NextStretch(extra: seq<nat>, k: nat)
    requires k < |extra|
    ensures BaseOf(extra, k + 1) == BaseOf(extra, k) + Pow2(extra[k])
  {
  }

  /** Two symbols for every number of extra bits: from the fourth on, each pair doubles what the
      ones before make up. */
  lemma {:induction false} PairsDouble(k: nat)
    requires 2 <= k <= 15
    ensures |EXTRA_DBITS| == D_CODES && BaseOf(EXTRA_DBITS, 2 * k) == Pow2(k)
  {
    hide BaseOf, EXTRA_LBITS, EXTRA_DBITS;
    ExtraBits();
    if k == 2 {
      NoStretch(EXTRA_DBITS);
      Four(EXTRA_DBITS, 0, 0);
      SmallPowers();
    } else {
      PairsDouble(k - 1);
      Two(EXTRA_DBITS, 2 * k - 2, k - 2);
    }
  }

  /** All distances up to 32768 have a symbol. */
  lemma DistancesCovered()
    ensures |EXTRA_DBITS| == D_CODES && BaseOf(EXTRA_DBITS, 16) == 256 && BaseOf(EXTRA_DBITS, 30) == 32768
  {
    hide BaseOf, EXTRA_DBITS;
    PairsDouble(8);
    PairsDouble(15);
    SmallPowers();
    assert Pow2(15) == 4 * Pow2(13);
  }

  // ---------------------------------------------------------------- tr_static_init

  /** The symbol for a length, counted from MIN_MATCH; the greatest has one without extra
      bits. */
  ghost function LengthSymbol(lc: nat): (k: nat)
    requires lc < 256
    ensures k < LENGTH_CODES == |EXTRA_LBITS| && (lc < 255 ==> k < 28)
  {
    LengthsCovered();
    if lc == 255 then 28
    else
      StretchOf(EXTRA_LBITS, lc)
  }

  /** The symbol for a distance, counted from 1. */
  ghost function DistanceSymbol(d: nat): (k: nat)
    requires d < 32768
    ensures k < D_CODES == |EXTRA_DBITS|
  {
    DistancesCovered();
    StretchOf(EXTRA_DBITS, d)
  }

  /** The first n entries have been filled with the numbers of their stretches. */
  ghost predicate Filled(codes: seq<nat>, extra: seq<nat>, n: nat, k: nat) {
    n <= |codes| && forall v :: 0 <= v < n ==> codes[v] <= k && InStretch(extra, codes[v], v)
  }

  /** One entry more. */
  method FillOne(codes: array<nat>, ghost extra: seq<nat>, at: nat, code: nat)
    requires at < codes.Length && Filled(codes[..], extra, at, code) && InStretch(extra, code, at)
    modifies codes
    ensures Filled(codes[..], extra, at + 1, code)
    ensures forall v :: 0 <= v < codes.Length && v != at ==> codes[v] == old(codes[v])
  {
    hide InStretch;
    codes[at] := code;
  }

  /** The tables for lengths. */
  method LengthTables() returns (baseLength: array<nat>, lengthCode: array<nat>)
    ensures fresh(baseLength) && fresh(lengthCode) && baseLength.Length == LENGTH_CODES && lengthCode.Length == 256
    ensures |EXTRA_LBITS| == LENGTH_CODES && forall k :: 0 <= k < 28 ==> baseLength[k] == BaseOf(EXTRA_LBITS, k)
    ensures forall lc :: 0 <= lc < 256 ==> lengthCode[lc] == LengthSymbol(lc)
  {
    hide BaseOf, EXTRA_LBITS, InStretch;
    LengthsCovered();
    baseLength, lengthCode := new nat[LENGTH_CODES](_ => 0), new nat[256](_ => 0);
    var length := 0;
    NoStretch(EXTRA_LBITS);
    for code := 0 to LENGTH_CODES - 1
      invariant length == BaseOf(EXTRA_LBITS, code) && Filled(lengthCode[..], EXTRA_LBITS, length, if code > 0 then code - 1 else 0)
      invariant forall k :: 0 <= k < code ==> baseLength[k] == BaseOf(EXTRA_LBITS, k)
    {
      baseLength[code] := length;
      NextStretch(EXTRA_LBITS, code);
      BasesGrow(EXTRA_LBITS, code + 1, 28);
      for n := 0 to Pow2(EXTRA_LBITS[code])
        modifies lengthCode
        invariant length == BaseOf(EXTRA_LBITS, code) + n && Filled(lengthCode[..], EXTRA_LBITS, length, code)
      {
        WithinStretch(EXTRA_LBITS, code, length);
        FillOne(lengthCode, EXTRA_LBITS, length, code);
        length := length + 1;
      }
    }
    // assertion: length is 256
    ghost var codes := lengthCode[..];
    lengthCode[length - 1] := LENGTH_CODES - 1;
    forall lc: nat | lc < 255 ensures lengthCode[lc] == LengthSymbol(lc) {
      assert lengthCode[lc] == codes[lc];
      StretchKnown(EXTRA_LBITS, codes[lc], lc);
    }
  }

  lemma WithinStretch(extra: seq<nat>, k: nat, v: nat)
    requires k < |extra| && BaseOf(extra, k) <= v < BaseOf(extra, k) + Pow2(extra[k])
    ensures InStretch(extra, k, v)
  {
  }

  /** The distances of entry u of the upper half of the table, 128 to an entry. */
  ghost predicate FilledFar(codes: seq<nat>, u: nat, k: nat) {
    |codes| == 512 && u <= 256
    && forall i :: 2 <= i < u ==> codes[256 + i] <= k && InStretch(EXTRA_DBITS, codes[256 + i], 128 * i)
                                  && InStretch(EXTRA_DBITS, codes[256 + i], 128 * i + 127)
  }

  method FillFar(codes: array<nat>, at: nat, code: nat)
    requires 2 <= at < 256 && FilledFar(codes[..], at, code) && Filled(codes[..], EXTRA_DBITS, 256, 15)
    requires InStretch(EXTRA_DBITS, code, 128 * at) && InStretch(EXTRA_DBITS, code, 128 * at + 127)
    modifies codes
    ensures FilledFar(codes[..], at + 1, code) && Filled(codes[..], EXTRA_DBITS, 256, 15)
  {
    hide InStretch;
    codes[256 + at] := code;
  }

  /** From symbol 16 on, the stretches are made up of whole entries. */
  lemma FarStretch(code: nat)
    requires 16 <= code < D_CODES
    ensures |EXTRA_DBITS| == D_CODES && EXTRA_DBITS[code] >= 7
    ensures BaseOf(EXTRA_DBITS, code + 1) == BaseOf(EXTRA_DBITS, code) + 128 * Pow2(EXTRA_DBITS[code] - 7)
    ensures BaseOf(EXTRA_DBITS, code + 1) <= 32768
  {
    hide BaseOf, EXTRA_DBITS, Pow2;
    ExtraBits();
    DistancesCovered();
    NextStretch(EXTRA_DBITS, code);
    Pow2Sum(7, EXTRA_DBITS[code] - 7);
    SmallPowers();
    BasesGrow(EXTRA_DBITS, code + 1, 30);
  }

  /** The tables for distances: one entry for each up to 256, then one for every 128. */
  method DistanceTables() returns (baseDist: array<nat>, distCode: array<nat>)
    ensures fresh(baseDist) && fresh(distCode) && baseDist.Length == D_CODES && distCode.Length == 512
    ensures |EXTRA_DBITS| == D_CODES && forall k :: 0 <= k < D_CODES ==> baseDist[k] == BaseOf(EXTRA_DBITS, k)
    ensures Filled(distCode[..], EXTRA_DBITS, 256, 15) && FilledFar(distCode[..], 256, 29)
  {
    hide BaseOf, EXTRA_DBITS, InStretch, Filled, FilledFar, Pow2;
    DistancesCovered();
    baseDist, distCode := new nat[D_CODES](_ => 0), new nat[512](_ => 0);
    var dist := NearTables(baseDist, distCode);
    dist := dist / 128;
    NoneFar(distCode[..]);
    for code := 16 to D_CODES
      invariant 128 * dist == BaseOf(EXTRA_DBITS, code) && Filled(distCode[..], EXTRA_DBITS, 256, 15)
      invariant dist >= 2 && FilledFar(distCode[..], dist, code - 1)
      invariant forall k :: 0 <= k < code ==> baseDist[k] == BaseOf(EXTRA_DBITS, k)
    {
      baseDist[code] := dist * 128;
      FarStretch(code);
      FarLater(distCode[..], dist, code);
      ghost var from := dist;
      for n := 0 to Pow2(EXTRA_DBITS[code] - 7)
        modifies distCode
        invariant dist == from + n && Filled(distCode[..], EXTRA_DBITS, 256, 15) && FilledFar(distCode[..], dist, code)
      {
        FarWithin(code, dist);
        FillFar(distCode, dist, code);
        dist := dist + 1;
      }
    }
  }

  lemma NoneFar(codes: seq<nat>)
    requires |codes| == 512
    ensures FilledFar(codes, 2, 15)
  {
  }

  lemma FarLater(codes: seq<nat>, u: nat, k: nat)
    requires k >= 1 && FilledFar(codes, u, k - 1)
    ensures FilledFar(codes, u, k)
  {
    hide InStretch;
  }

  lemma FarWithin(code: nat, u: nat)
    requires code < |EXTRA_DBITS| && BaseOf(EXTRA_DBITS, code) <= 128 * u && 128 * u + 127 < BaseOf(EXTRA_DBITS, code + 1)
    ensures InStretch(EXTRA_DBITS, code, 128 * u) && InStretch(EXTRA_DBITS, code, 128 * u + 127)
  {
    hide BaseOf;
  }

  method NearTables(baseDist: array<nat>, distCode: array<nat>) returns (dist: nat)
    requires baseDist.Length == D_CODES && distCode.Length == 512 && baseDist != distCode
    modifies baseDist, distCode
    ensures dist == 256 && Filled(distCode[..], EXTRA_DBITS, 256, 15)
    ensures |EXTRA_DBITS| == D_CODES && forall k :: 0 <= k < 16 ==> baseDist[k] == BaseOf(EXTRA_DBITS, k)
  {
    hide BaseOf, EXTRA_DBITS, InStretch, Pow2;
    DistancesCovered();
    dist := 0;
    NoStretch(EXTRA_DBITS);
    for code := 0 to 16
      invariant dist == BaseOf(EXTRA_DBITS, code) && Filled(distCode[..], EXTRA_DBITS, dist, if code > 0 then code - 1 else 0)
      invariant forall k :: 0 <= k < code ==> baseDist[k] == BaseOf(EXTRA_DBITS, k)
    {
      baseDist[code] := dist;
      NextStretch(EXTRA_DBITS, code);
      BasesGrow(EXTRA_DBITS, code + 1, 16);
      for n := 0 to Pow2(EXTRA_DBITS[code])
        modifies distCode
        invariant dist == BaseOf(EXTRA_DBITS, code) + n && Filled(distCode[..], EXTRA_DBITS, dist, code)
      {
        WithinStretch(EXTRA_DBITS, code, dist);
        FillOne(distCode, EXTRA_DBITS, dist, code);
        dist := dist + 1;
      }
    }
  }

  /** d_code. */
  method DCode(distCode: array<nat>, dist: nat) returns (code: nat)
    requires distCode.Length == 512 && Filled(distCode[..], EXTRA_DBITS, 256, 15) && FilledFar(distCode[..], 256, 29)
    requires dist < 32768
    ensures code == DistanceSymbol(dist)
  {
    hide BaseOf, EXTRA_DBITS;
    code := if dist < 256 then distCode[dist] else distCode[256 + dist / 128];
    ghost var u := dist / 128;
    if dist >= 256 {
      assert distCode[..][256 + u] == code;
      assert InStretch(EXTRA_DBITS, code, 128 * u) && InStretch(EXTRA_DBITS, code, 128 * u + 127);
    } else {
      assert distCode[..][dist] == code;
    }
    StretchKnown(EXTRA_DBITS, code, dist);
  }

  // ---------------------------------------------------------------- compress_block

  /** The code of a symbol that has one. */
  ghost function SymbolCode(lens: seq<nat>, i: nat): (c: seq<bool>)
    requires i < |lens| && lens[i] != 0
    ensures |c| == lens[i]
  {
    CodeBits(Used(lens), i)
  }

  /** The extra bits of v, least significant first. */
  ghost function ExtraOf(extra: seq<nat>, k: nat, v: nat): (b: seq<bool>)
    requires k < |extra|
    ensures |b| == extra[k]
  {
    if extra[k] == 0 then [] else LsbOf(if v >= BaseOf(extra, k) then v - BaseOf(extra, k) else 0, extra[k])
  }

  /** The codes for literals and lengths, and for distances, have all the symbols a token needs. */
  ghost predicate Codable(ll: seq<nat>, dl: seq<nat>, tok: Token) {
    match tok
    case Literal(c) => 0 <= c < LITERALS && c < |ll| && ll[c] != 0
    case Match(len, dist) =>
      && MIN_MATCH <= len <= MAX_MATCH && 1 <= dist <= 32768
      && HasCode(ll, LITERALS + 1 + LengthSymbol(len - MIN_MATCH)) && HasCode(dl, DistanceSymbol(dist - 1))
  }

  ghost predicate HasCode(lens: seq<nat>, i: nat) { i < |lens| && lens[i] != 0 }

  /** The symbol of a length and its extra bits. */
  ghost function LengthCode(ll: seq<nat>, lc: nat): seq<bool>
    requires lc < 256 && HasCode(ll, LITERALS + 1 + LengthSymbol(lc))
  {
    SymbolCode(ll, LITERALS + 1 + LengthSymbol(lc)) + ExtraOf(EXTRA_LBITS, LengthSymbol(lc), lc)
  }

  ghost function DistanceCode(dl: seq<nat>, d: nat): seq<bool>
    requires d < 32768 && HasCode(dl, DistanceSymbol(d))
  {
    SymbolCode(dl, DistanceSymbol(d)) + ExtraOf(EXTRA_DBITS, DistanceSymbol(d), d)
  }

  /** The bits of a token. */
  ghost function TokenCode(ll: seq<nat>, dl: seq<nat>, tok: Token): seq<bool>
    requires Codable(ll, dl, tok)
  {
    match tok
    case Literal(c) => SymbolCode(ll, c)
    case Match(len, dist) => LengthCode(ll, len - MIN_MATCH) + DistanceCode(dl, dist - 1)
  }

  ghost predicate AllCodable(ll: seq<nat>, dl: seq<nat>, toks: seq<Token>) {
    forall j :: 0 <= j < |toks| ==> Codable(ll, dl, toks[j])
  }

  ghost function TokensCode(ll: seq<nat>, dl: seq<nat>, toks: seq<Token>): seq<bool>
    requires AllCodable(ll, dl, toks)
  {
    if |toks| == 0 then [] else TokensCode(ll, dl, toks[..|toks| - 1]) + TokenCode(ll, dl, toks[|toks| - 1])
  }

  /** A block: its tokens, and the symbol that ends it. */
  ghost function BlockCode(ll: seq<nat>, dl: seq<nat>, toks: seq<Token>): seq<bool>
    requires AllCodable(ll, dl, toks) && END_BLOCK < |ll| && ll[END_BLOCK] != 0
  {
    TokensCode(ll, dl, toks) + SymbolCode(ll, END_BLOCK)
  }

  /** A tree holds the code of every symbol that has one. */
  ghost predicate TreeFor(tree: seq<seq<bool>>, lens: seq<nat>) {
    |tree| == |lens| && forall i :: 0 <= i < |lens| && lens[i] != 0 ==> tree[i] == SymbolCode(lens, i)
  }

  /** The tables as tr_static_init leaves them. */
  ghost predicate Tables(baseLength: array<nat>, lengthCode: array<nat>, baseDist: array<nat>, distCode: array<nat>)
    reads baseLength, lengthCode, baseDist, distCode
  {
    && baseLength.Length == LENGTH_CODES == |EXTRA_LBITS| && lengthCode.Length == 256
    && baseDist.Length == D_CODES == |EXTRA_DBITS| && distCode.Length == 512
    && (forall k :: 0 <= k < 28 ==> baseLength[k] == BaseOf(EXTRA_LBITS, k))
    && (forall lc :: 0 <= lc < 256 ==> lengthCode[lc] == LengthSymbol(lc))
    && (forall k :: 0 <= k < D_CODES ==> baseDist[k] == BaseOf(EXTRA_DBITS, k))
    && Filled(distCode[..], EXTRA_DBITS, 256, 15) && FilledFar(distCode[..], 256, 29)
  }

  /** tr_static_init, as far as lengths and distances go. */
  method StaticInit() returns (baseLength: array<nat>, lengthCode: array<nat>, baseDist: array<nat>, distCode: array<nat>)
    ensures fresh({baseLength, lengthCode, baseDist, distCode}) && Tables(baseLength, lengthCode, baseDist, distCode)
  {
    hide BaseOf, EXTRA_LBITS, EXTRA_DBITS, Filled, FilledFar;
    baseLength, lengthCode := LengthTables();
    baseDist, distCode := DistanceTables();
  }

  /** A match: the symbol of its length, the extra bits, the symbol of its distance, the extra
      bits. */
  method SendMatch(lc: nat, distance: nat, ghost ll: seq<nat>, ghost dl: seq<nat>, ltree: seq<seq<bool>>, dtree: seq<seq<bool>>,
                   baseLength: array<nat>, lengthCode: array<nat>, baseDist: array<nat>, distCode: array<nat>)
    returns (bits: seq<bool>)
    requires Tables(baseLength, lengthCode, baseDist, distCode) && TreeFor(ltree, ll) && TreeFor(dtree, dl)
    requires lc < 256 && distance >= 1 && Codable(ll, dl, Match(lc + MIN_MATCH, distance))
    ensures bits == TokenCode(ll, dl, Match(lc + MIN_MATCH, distance))
  {
    hide BaseOf, LengthSymbol, DistanceSymbol, EXTRA_LBITS, EXTRA_DBITS, LsbOf, SymbolCode;
    var code := lengthCode[lc];
    bits := ltree[code + LITERALS + 1];
    var extra := EXTRA_LBITS[code];
    if extra != 0 {
      HasBase(lc);
      bits := bits + LsbOf(lc - baseLength[code], extra);
    } else {
      assert bits + [] == bits;
    }
    var dist := distance - 1;
    ghost var first := bits;
    code := DCode(distCode, dist);
    bits := bits + dtree[code];
    extra := EXTRA_DBITS[code];
    DistanceHasBase(dist);
    if extra != 0 {
      bits := bits + LsbOf(dist - baseDist[code], extra);
      assert bits == first + (dtree[code] + LsbOf(dist - baseDist[code], extra));
    } else {
      assert dtree[code] + [] == dtree[code];
    }
  }

  lemma HasBase(lc: nat)
    requires lc < 256 && |EXTRA_LBITS| == LENGTH_CODES && EXTRA_LBITS[LengthSymbol(lc)] != 0
    ensures LengthSymbol(lc) < 28 && BaseOf(EXTRA_LBITS, LengthSymbol(lc)) <= lc
  {
    ExtraBits();
    LengthsCovered();
    hide BaseOf, EXTRA_LBITS;
  }

  lemma DistanceHasBase(d: nat)
    requires d < 32768
    ensures DistanceSymbol(d) < |EXTRA_DBITS| && BaseOf(EXTRA_DBITS, DistanceSymbol(d)) <= d
  {
    DistancesCovered();
    hide BaseOf, EXTRA_DBITS;
  }

  /** compress_block: the bits of the tokens in the buffers and of the end of the block. */
  method CompressBlock(dBuf: array<int>, lBuf: array<int>, lastLit: nat, ghost ll: seq<nat>, ghost dl: seq<nat>,
                       ltree: seq<seq<bool>>, dtree: seq<seq<bool>>,
                       baseLength: array<nat>, lengthCode: array<nat>, baseDist: array<nat>, distCode: array<nat>)
    returns (bits: seq<bool>)
    requires Tables(baseLength, lengthCode, baseDist, distCode) && TreeFor(ltree, ll) && TreeFor(dtree, dl)
    requires lastLit <= dBuf.Length && lastLit <= lBuf.Length && END_BLOCK < |ll| && ll[END_BLOCK] != 0
    requires forall j :: 0 <= j < lastLit ==> dBuf[j] >= 0 && 0 <= lBuf[j] < 256
    requires AllCodable(ll, dl, FromBuffers(dBuf[..lastLit], lBuf[..lastLit]))
    ensures bits == BlockCode(ll, dl, FromBuffers(dBuf[..lastLit], lBuf[..lastLit]))
  {
    hide Tables, Codable, TokenCode, SymbolCode;
    ghost var toks := FromBuffers(dBuf[..lastLit], lBuf[..lastLit]);
    bits := [];
    assert toks[..0] == [];
    if lastLit != 0 {
      var lx := 0;
      while true
        invariant lx < lastLit && AllCodable(ll, dl, toks[..lx]) && bits == TokensCode(ll, dl, toks[..lx])
        decreases lastLit - lx
      {
        var dist, lc := dBuf[lx], lBuf[lx];
        assert toks[lx] == FromBuffer(dist, lc) && Codable(ll, dl, toks[lx]);
        assert toks[..lx + 1][..lx] == toks[..lx];
        lx := lx + 1;
        var more;
        if dist == 0 {
          LiteralCode(ll, dl, lc);
          more := ltree[lc];
        } else {
          more := SendMatch(lc, dist, ll, dl, ltree, dtree, baseLength, lengthCode, baseDist, distCode);
        }
        bits := bits + more;
        if !(lx < lastLit) { break; }
      }
    }
    assert toks[..lastLit] == toks;
    bits := bits + ltree[END_BLOCK];
  }

  lemma LiteralCode(ll: seq<nat>, dl: seq<nat>, c: int)
    requires Codable(ll, dl, Literal(c))
    ensures 0 <= c < |ll| && ll[c] != 0 && TokenCode(ll, dl, Literal(c)) == SymbolCode(ll, c)
  {
  }
}
