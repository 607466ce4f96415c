/** How long a coded block can get: short enough for the bytes behind the block in arr2, where
    the compressor puts them (bzlib.c, BZ2_bzCompressInit; compress.c, BZ2_compressBlock). */
module OutputFits {
  import opened Bits
  import opened Mtf
  import opened MtfEncode
  import opened HuffmanCodes
  import opened BlockFormat
  import opened BlockRoundTrip
  import opened StreamFormat

  lemma {:induction false} UnarySize(j: nat)
    ensures |UnaryBits(j)| == j + 1
  {
    if j > 0 { UnarySize(j - 1); }
  }

  lemma {:induction false} SelectorsSize(ranks: seq<int>, k: nat)
    requires k <= |ranks| && forall i :: 0 <= i < |ranks| ==> 0 <= ranks[i] < 6
    ensures |SelectorBits(ranks, k)| <= 6 * (|ranks| - k)
    decreases |ranks| - k
  {
    hide UnaryBits;
    if k < |ranks| {
      UnarySize(ranks[k]);
      SelectorsSize(ranks, k + 1);
    }
  }

  lemma {:induction false} LengthSize(curr: int, target: int)
    ensures |LengthBits(curr, target)| == 1 + 2 * if curr < target then target - curr else curr - target
    decreases if curr < target then target - curr else curr - target
  {
    if curr < target { LengthSize(curr + 1, target); }
    if curr > target { LengthSize(curr - 1, target); }
  }

  lemma {:induction false} TableSize(len: seq<int>, k: nat, curr: int)
    requires k <= |len| && 1 <= curr <= 20 && forall i :: 0 <= i < |len| ==> 1 <= len[i] <= 20
    ensures |TableBits(len, k, curr)| <= 39 * (|len| - k)
    decreases |len| - k
  {
    hide LengthBits;
    if k < |len| {
      LengthSize(curr, len[k]);
      TableSize(len, k + 1, len[k]);
    }
  }

  /** A table takes at most 5 + 39 * 258 bits. */
  const TABLE_BITS := 10067

  lemma {:induction false} TablesSize(lens: seq<seq<int>>, t: nat)
    requires t <= |lens| && forall i :: 0 <= i < |lens| ==> 0 < |lens[i]| <= 258 && lens[i][0] >= 0
    requires forall i :: 0 <= i < |lens| ==> LengthsOf(lens[i], |lens[i]|)
    ensures |AllTables(lens, t)| <= TABLE_BITS * (|lens| - t)
    decreases |lens| - t
  {
    hide TableBits, BitsOf;
    if t < |lens| {
      TableSize(lens[t], 0, lens[t][0]);
      TablesSize(lens, t + 1);
    }
  }

  lemma {:induction false} TokensSize(h: Header, toks: seq<int>, k: nat)
    requires TokensFor(h, toks) && k <= |toks|
    ensures |TokenBits(h, toks, k)| <= 20 * (|toks| - k)
    decreases |toks| - k
  {
    hide CodeBits;
    if k < |toks| { TokensSize(h, toks, k + 1); }
  }

  lemma {:induction false} MapSize(used: seq<bool>, k: nat)
    requires |used| == 256 && k <= 256
    ensures |MapBits(used, k)| <= 256 - k
    decreases 256 - k
  {
    hide Used16;
    if k < 256 { MapSize(used, k + 1); }
  }

  /** Everything in a block but its tokens. */
  const OVERHEAD_BITS := 105 + 16 + 256 + 3 + 15 + 6 * MAX_SELECTORS + 6 * TABLE_BITS

  lemma BlockSize(h: Header, toks: seq<int>)
    requires Writable(h) && TokensFor(h, toks)
    ensures |BlockBits(h, toks)| <= OVERHEAD_BITS - 105 + 20 * |toks|
  {
    hide MapBits, SelectorBits, AllTables, TokenBits, UsedBytes, BitsOf, RanksOf, Fits;
    MapSize(h.used, 0);
    SelectorsSize(SelectorRanks(h), 0);
    TablesSize(h.lens, 0);
    TokensSize(h, toks, 0);
  }

  /** A block takes at most twenty bits for each of its tokens, and a fixed number more. */
  lemma StreamSize(level: nat, c: Coded)
    requires GoodBlock(level, c)
    ensures |BlockStream(level, c)| <= OVERHEAD_BITS + 20 * |ColumnTokens(c.h.used, c.col)|
  {
    hide BlockBits, AllIn, ColumnTokens;
    BlockSize(c.h, ColumnTokens(c.h.used, c.col));
  }

  /** With the stream's header and trailer, a byte of padding and what was left of the block
      before, this fits behind a block of nblock bytes in n + 34 words. */
  lemma BehindBlock(nblock: nat, n: nat, bits: nat, bytes: nat)
    requires nblock <= n && n >= 100000
    requires bits <= 32 + 32 + OVERHEAD_BITS + 20 * (nblock + 1) + 80 && 8 * bytes < bits + 8
    ensures nblock + bytes <= 4 * (n + 34)
  {
  }
}
