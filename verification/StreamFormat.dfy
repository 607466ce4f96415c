/** A whole bzip2 stream: what BZ2_bzDecompress (bzlib.c, decompress.c) makes of the bits it
    is given, and what BZ2_compressBlock (compress.c) writes. */
module StreamFormat {
  import opened Bits
  import opened BitStream
  import opened HuffmanCodes
  import opened InverseTransform
  import opened RunLength
  import opened BlockCrc
  import opened BlockFormat
  import opened BlockRoundTrip
  import opened MtfEncode
  import opened Mtf

  /** How far the decoder gets: it needs more input, is finished, or rejects the stream.  A
      block marked as randomised ends what is modelled, and so does a write beyond an array. Of
      the streams rejected for their data, those with a block that breaks off before a count
      are told apart, with the number of bytes put out for that block. */
  datatype Stop = More | End | DataError | BrokenOff(bytes: nat) | MagicError | Randomised | Overrun

  /** The bytes put out and how it ends. */
  datatype Result = Result(out: seq<int>, stop: Stop)

  function Then(w: seq<int>, r: Result): Result { Result(w + r.out, r.stop) }

  const STREAM_MAGIC: seq<int> := [0x42, 0x5a, 0x68]
  const BLOCK_MAGIC: seq<int> := [0x31, 0x41, 0x59, 0x26, 0x53, 0x59]
  const END_MAGIC: seq<int> := [0x17, 0x72, 0x45, 0x38, 0x50, 0x90]

  // ---------------------------------------------------------------- decoding

  /** The decoder's answer at byte k of the stream header. */
  ghost function ReadMagic(k: nat, bits: seq<bool>): Result
    requires k <= 3
    decreases |bits|
  {
    if |bits| < 8 then Result([], More)
    else
      var uc := Val(bits[..8]);
      if k < 3 then
        if uc != STREAM_MAGIC[k] then Result([], MagicError) else ReadMagic(k + 1, bits[8..])
      else if uc < 0x31 || uc > 0x39 then Result([], MagicError)
      else ReadBlockMagic(uc - 0x30, NO_SUM, 0, bits[8..])
  }

  /** At byte k of the mark that opens a block, or at the first byte of the one that ends the
      stream. */
  ghost function ReadBlockMagic(level: nat, combined: CrcWord, k: nat, bits: seq<bool>): Result
    requires k <= 5
    decreases |bits|, 0, 6 - k
  {
    if |bits| < 8 then Result([], More)
    else
      var uc := Val(bits[..8]);
      if k == 0 && uc == END_MAGIC[0] then ReadEndMagic(combined, 1, bits[8..])
      else if uc != BLOCK_MAGIC[k] then Result([], DataError)
      else if k < 5 then ReadBlockMagic(level, combined, k + 1, bits[8..])
      else ReadBlockCrc(level, combined, 0, 0, bits[8..])
  }

  /** At byte k of the stored checksum of a block. */
  ghost function ReadBlockCrc(level: nat, combined: CrcWord, k: nat, crc: nat, bits: seq<bool>): Result
    requires k <= 4
    decreases |bits|, 1, 6 - k
  {
    if k == 4 then ReadRandomised(level, combined, crc, bits)
    else if |bits| < 8 then Result([], More)
    else ReadBlockCrc(level, combined, k + 1, crc * 256 + Val(bits[..8]), bits[8..])
  }

  ghost function ReadRandomised(level: nat, combined: CrcWord, crc: nat, bits: seq<bool>): Result
    decreases |bits|, 1, 1
  {
    if |bits| == 0 then Result([], More)
    else if bits[0] then Result([], Randomised)
    else ReadOrigin(level, combined, crc, 0, 0, bits[1..])
  }

  /** At byte k of origPtr. */
  ghost function ReadOrigin(level: nat, combined: CrcWord, crc: nat, k: nat, orig: nat, bits: seq<bool>): Result
    requires k <= 3
    decreases |bits|, 1, 6 - k
  {
    if k == 3 then
      if orig > 10 + 100000 * level then Result([], DataError) else ReadBody(level, combined, crc, orig, bits)
    else if |bits| < 8 then Result([], More)
    else ReadOrigin(level, combined, crc, k + 1, orig * 256 + Val(bits[..8]), bits[8..])
  }

  /** The block itself. */
  ghost function ReadBody(level: nat, combined: CrcWord, crc: nat, orig: nat, bits: seq<bool>): Result
    decreases |bits|, 1, 1
  {
    BlockShrinks(100000 * level, bits);
    AfterBody(level, combined, crc, orig, ReadBlock(100000 * level, bits), |bits|)
  }

  /** Once the last column has been read, or not. */
  ghost function AfterBody(level: nat, combined: CrcWord, crc: nat, orig: nat, p: Parse<seq<int>>, size: nat): Result
    requires p.Got? ==> |p.rest| <= size
    decreases size, 1, 0
  {
    match p
    case Short => Result([], More)
    case Bad => Result([], DataError)
    case Beyond => Result([], Overrun)
    case Got(col, rest) =>
      if orig >= |col| then Result([], DataError)
      else
        var t := Spelt(Walk(col, orig, |col|), SymbolAfter(col, orig, |col|));
        if !t.whole then Result(t.bytes, BrokenOff(|t.bytes|))
        else Then(t.bytes, AfterBlock(level, combined, crc, BlockSum(t.bytes), rest))
  }

  /** The block has been put out: its checksum decides. */
  ghost function AfterBlock(level: nat, combined: CrcWord, crc: nat, sum: CrcWord, bits: seq<bool>): Result
    decreases |bits|, 0, 10
  {
    if Number(sum) != crc then Result([], DataError)
    else ReadBlockMagic(level, Combine(combined, sum), 0, bits)
  }

  ghost function ReadEndMagic(combined: CrcWord, k: nat, bits: seq<bool>): Result
    requires k <= 6
    decreases |bits|
  {
    if k == 6 then ReadEndCrc(combined, 0, 0, bits)
    else if |bits| < 8 then Result([], More)
    else if Val(bits[..8]) != END_MAGIC[k] then Result([], DataError)
    else ReadEndMagic(combined, k + 1, bits[8..])
  }

  /** At byte k of the stored checksum of the stream. */
  ghost function ReadEndCrc(combined: CrcWord, k: nat, crc: nat, bits: seq<bool>): Result
    requires k <= 4
    decreases |bits|
  {
    if k == 4 then Result([], if Number(combined) != crc then DataError else End)
    else if |bits| < 8 then Result([], More)
    else ReadEndCrc(combined, k + 1, crc * 256 + Val(bits[..8]), bits[8..])
  }

  /** The decoder's answer to a stream. */
  ghost function Decode(bits: seq<bool>): Result {
    ReadMagic(0, bits)
  }

  // ---------------------------------------------------------------- what is written

  /** A block as the encoder leaves it: its tables, last column, origPtr, and the raw bytes it
      stands for. */
  datatype Coded = Coded(h: Header, col: seq<int>, orig: nat, raw: seq<int>)

  ghost predicate GoodBlock(level: nat, c: Coded) {
    && Writable(c.h) && AllIn(c.col, UsedBytes(c.h.used, 256)) && |c.col| <= 100000 * level <= 900000
    && |ColumnTokens(c.h.used, c.col)| <= G_SIZE * |c.h.sel|
    && TokensFor(c.h, ColumnTokens(c.h.used, c.col))
    && c.orig < |c.col| && Expand(Walk(c.col, c.orig, |c.col|)) == Some(c.raw)
  }

  /** bsPutUInt32. */
  function Bytes4(n: nat): (s: seq<int>)
    ensures |s| == 4 && forall i :: 0 <= i < 4 ==> 0 <= s[i] < 256
  {
    [n / 0x100_0000 % 256, n / 0x1_0000 % 256, n / 0x100 % 256, n % 256]
  }

  ghost function BlockStream(level: nat, c: Coded): seq<bool>
    requires GoodBlock(level, c)
  {
    BytesBits(BLOCK_MAGIC) + (BytesBits(Bytes4(Number(BlockSum(c.raw)))) + ([false] + (BitsOf(c.orig, 24)
      + BlockBits(c.h, ColumnTokens(c.h.used, c.col)))))
  }

  ghost predicate GoodBlocks(level: nat, bs: seq<Coded>) {
    forall i :: 0 <= i < |bs| ==> GoodBlock(level, bs[i])
  }

  ghost function BlocksBits(level: nat, bs: seq<Coded>): seq<bool>
    requires GoodBlocks(level, bs)
  {
    if |bs| == 0 then [] else BlocksBits(level, bs[..|bs| - 1]) + BlockStream(level, bs[|bs| - 1])
  }

  ghost function RawBytes(bs: seq<Coded>): seq<int> {
    if |bs| == 0 then [] else RawBytes(bs[..|bs| - 1]) + bs[|bs| - 1].raw
  }

  ghost function CombinedSum(bs: seq<Coded>): CrcWord {
    if |bs| == 0 then NO_SUM else Combine(CombinedSum(bs[..|bs| - 1]), BlockSum(bs[|bs| - 1].raw))
  }

  /** A word rotated left by k places. */
  function RotatedBy(c: CrcWord, k: nat): CrcWord { c[k % 32..] + c[..k % 32] }

  /** The sums of the blocks, each rotated by one place for every block that follows it, added
      up. */
  ghost function SumOfRotated(bs: seq<Coded>): CrcWord {
    if |bs| == 0 then NO_SUM else Plus(RotatedBy(BlockSum(bs[0].raw), |bs| - 1), SumOfRotated(bs[1..]))
  }

  lemma RotatedPlus(a: CrcWord, b: CrcWord)
    ensures Rotated(Plus(a, b)) == Plus(Rotated(a), Rotated(b)) && Rotated(NO_SUM) == NO_SUM
    ensures Plus(NO_SUM, a) == a == Plus(a, NO_SUM)
  {
  }

  lemma PlusAssociates(a: CrcWord, b: CrcWord, c: CrcWord)
    ensures Plus(Plus(a, b), c) == Plus(a, Plus(b, c))
  {
  }

  lemma RotatedMore(c: CrcWord, k: nat)
    ensures RotatedBy(c, 0) == c && Rotated(RotatedBy(c, k)) == RotatedBy(c, k + 1)
  {
    var r := k % 32;
    assert (k + 1) % 32 == if r == 31 then 0 else r + 1;
    forall i | 0 <= i < 32 ensures Rotated(RotatedBy(c, k))[i] == RotatedBy(c, k + 1)[i] {
    }
  }

  lemma {:induction false} SumSnoc(bs: seq<Coded>, c: Coded)
    ensures SumOfRotated(bs + [c]) == Plus(Rotated(SumOfRotated(bs)), BlockSum(c.raw))
  {
    hide RotatedBy, Plus, Rotated, BlockSum, NO_SUM;
    var sum := BlockSum(c.raw);
    RotatedPlus(sum, sum);
    if |bs| == 0 {
      assert (bs + [c])[1..] == [];
      RotatedMore(sum, 0);
    } else {
      assert (bs + [c])[1..] == bs[1..] + [c];
      SumSnoc(bs[1..], c);
      var first := BlockSum(bs[0].raw);
      RotatedMore(first, |bs| - 1);
      RotatedPlus(RotatedBy(first, |bs| - 1), SumOfRotated(bs[1..]));
      PlusAssociates(RotatedBy(first, |bs|), Rotated(SumOfRotated(bs[1..])), sum);
    }
  }

  /** The combined checksum: that of block k of n rotated n - 1 - k times, all added up. */
  lemma {:induction false} CombinedIsRotated(bs: seq<Coded>)
    ensures CombinedSum(bs) == SumOfRotated(bs)
  {
    hide RotatedBy, Plus, Rotated, BlockSum;
    if |bs| > 0 {
      var init := bs[..|bs| - 1];
      CombinedIsRotated(init);
      SumSnoc(init, bs[|bs| - 1]);
      assert init + [bs[|bs| - 1]] == bs;
    }
  }

  ghost function StartBits(level: nat): seq<bool> { BytesBits(STREAM_MAGIC + [0x30 + level]) }

  ghost function EndBits(combined: CrcWord): seq<bool> {
    BytesBits(END_MAGIC) + BytesBits(Bytes4(Number(combined)))
  }

  ghost function StreamBits(level: nat, bs: seq<Coded>): seq<bool>
    requires GoodBlocks(level, bs)
  {
    StartBits(level) + (BlocksBits(level, bs) + EndBits(CombinedSum(bs)))
  }

  // ---------------------------------------------------------------- reading it back

  ghost predicate ByteString(s: seq<int>) {
    forall i :: 0 <= i < |s| ==> 0 <= s[i] < 256
  }

  lemma ByteCons(c: int, t: seq<int>)
    requires 0 <= c < 256 && ByteString(t)
    ensures ByteString([c] + t) && BytesBits([c] + t) == BitsOf(c, 8) + BytesBits(t)
  {
    hide BitsOf, BytesBits;
    BytesConcat([c], t);
    BytesSnoc([], c);
    NoBytes();
    assert [] + [c] == [c] && [] + BitsOf(c, 8) == BitsOf(c, 8);
  }

  lemma ByteValue(c: int)
    requires 0 <= c < 256
    ensures Val(BitsOf(c, 8)) == c
  {
    hide Val, BitsOf, Pow2;
    PowersOfTwo();
    ValOfBits(c, 8);
  }

  /** The first byte of a string of bits made of bytes. */
  lemma FirstByte(s: seq<int>, rest: seq<bool>)
    requires |s| > 0 && ByteString(s)
    ensures var b := BytesBits(s) + rest;
            |b| >= 8 && Val(b[..8]) == s[0] && b[8..] == BytesBits(s[1..]) + rest
  {
    hide Val, BitsOf, BytesBits;
    var c, t := s[0], s[1..];
    ByteCons(c, t);
    assert s == [c] + t;
    ByteValue(c);
    FirstEight(BitsOf(c, 8), BytesBits(t), rest);
  }

  lemma FirstEight(x: seq<bool>, y: seq<bool>, rest: seq<bool>)
    requires |x| == 8
    ensures ((x + y) + rest)[..8] == x && ((x + y) + rest)[8..] == y + rest
  {
  }

  /** Bytes as the digits of a number, most significant first. */
  ghost function Horner(acc: nat, s: seq<int>): nat
    requires ByteString(s)
    decreases |s|
  {
    if |s| == 0 then acc else Horner(acc * 256 + s[0], s[1..])
  }

  lemma HornerCons(acc: nat, c: int, s: seq<int>)
    requires 0 <= c < 256 && ByteString(s)
    ensures ByteString([c] + s) && Horner(acc, [c] + s) == Horner(acc * 256 + c, s)
    ensures Horner(acc * 256 + c, []) == acc * 256 + c
  {
    assert ([c] + s)[1..] == s;
  }

  lemma Horner3(acc: nat, a: int, b: int, c: int)
    requires 0 <= a < 256 && 0 <= b < 256 && 0 <= c < 256
    ensures ByteString([a, b, c]) && Horner(acc, [a, b, c]) == ((acc * 256 + a) * 256 + b) * 256 + c
  {
    hide Horner;
    HornerCons(acc, a, [b, c]);
    HornerCons(acc * 256 + a, b, [c]);
    HornerCons((acc * 256 + a) * 256 + b, c, []);
    assert [a] + [b, c] == [a, b, c] && [b] + [c] == [b, c] && [c] + [] == [c];
  }

  lemma Bytes4Number(n: nat)
    requires n < 0x1_0000_0000
    ensures ByteString(Bytes4(n)) && Horner(0, Bytes4(n)) == n
  {
    hide Horner;
    var a, b, c, d := n / 0x100_0000 % 256, n / 0x1_0000 % 256, n / 0x100 % 256, n % 256;
    HornerCons(0, a, [b, c, d]);
    assert Bytes4(n) == [a] + [b, c, d];
    Horner3(a, b, c, d);
    FourDigits(n);
  }

  lemma FourDigits(n: nat)
    requires n < 0x1_0000_0000
    ensures n == ((n / 0x100_0000 % 256 * 256 + n / 0x1_0000 % 256) * 256 + n / 0x100 % 256) * 256 + n % 256
  {
    assert n / 0x100_0000 == n / 0x1_0000 / 256 && n / 0x1_0000 == n / 0x100 / 256;
  }

  lemma {:induction false} BlockMagicBack(level: nat, combined: CrcWord, k: nat, rest: seq<bool>)
    requires k <= 5
    ensures ReadBlockMagic(level, combined, k, BytesBits(BLOCK_MAGIC[k..]) + rest)
         == ReadBlockCrc(level, combined, 0, 0, rest)
    decreases 6 - k
  {
    hide Val, BytesBits, ReadBlockCrc, ReadEndMagic;
    FirstByte(BLOCK_MAGIC[k..], rest);
    assert BLOCK_MAGIC[k..][1..] == BLOCK_MAGIC[k + 1..];
    if k < 5 {
      BlockMagicBack(level, combined, k + 1, rest);
    } else {
      NoBytes();
      assert BLOCK_MAGIC[6..] == [] && [] + rest == rest;
    }
  }

  lemma {:induction false} BlockCrcBack(level: nat, combined: CrcWord, k: nat, acc: nat, s: seq<int>, rest: seq<bool>)
    requires k + |s| == 4 && ByteString(s)
    ensures ReadBlockCrc(level, combined, k, acc, BytesBits(s) + rest)
         == ReadRandomised(level, combined, Horner(acc, s), rest)
    decreases |s|
  {
    hide Val, BytesBits, ReadRandomised;
    if k == 4 {
      NoBytes();
      assert [] + rest == rest;
    } else {
      FirstByte(s, rest);
      BlockCrcBack(level, combined, k + 1, acc * 256 + s[0], s[1..], rest);
    }
  }

  lemma {:induction false} OriginBack(level: nat, combined: CrcWord, crc: nat, k: nat, acc: nat, s: seq<int>, rest: seq<bool>)
    requires k + |s| == 3 && ByteString(s) && Horner(acc, s) <= 10 + 100000 * level
    ensures ReadOrigin(level, combined, crc, k, acc, BytesBits(s) + rest)
         == ReadBody(level, combined, crc, Horner(acc, s), rest)
    decreases |s|
  {
    hide Val, BytesBits, ReadBody;
    if k == 3 {
      NoBytes();
      assert [] + rest == rest;
    } else {
      FirstByte(s, rest);
      OriginBack(level, combined, crc, k + 1, acc * 256 + s[0], s[1..], rest);
    }
  }

  /** 24 bits sent at once are three bytes. */
  lemma ThreeBytes(v: nat)
    requires v < 0x100_0000
    ensures var s := [v / 0x1_0000, v / 0x100 % 256, v % 256];
            ByteString(s) && BitsOf(v, 24) == BytesBits(s) && Horner(0, s) == v
  {
    hide BitsOf, BytesBits, Pow2, Horner;
    var a, b, c := v / 0x1_0000, v / 0x100 % 256, v % 256;
    var s := [a, b, c];
    assert v == (a * 256 + b) * 256 + c by { assert v / 0x1_0000 == v / 0x100 / 256; }
    Horner3(0, a, b, c);
    PowersOfTwo();
    NoBytes();
    BytesSnoc([], a);
    BytesSnoc([a], b);
    BytesSnoc([a, b], c);
    assert [] + [a] == [a] && [a] + [b] == [a, b] && [a, b] + [c] == s;
    ShiftIn(a, b, 8, 8);
    ShiftIn(a * 256 + b, c, 16, 8);
    assert [] + BitsOf(a, 8) == BitsOf(a, 8);
  }

  lemma ThenThen(a: seq<int>, b: seq<int>, r: Result)
    ensures Then(a, Then(b, r)) == Then(a + b, r)
    ensures Then([], r) == r
  {
    assert [] + r.out == r.out;
    assert a + (b + r.out) == (a + b) + r.out;
  }

  lemma BodyBack(level: nat, combined: CrcWord, c: Coded, rest: seq<bool>)
    requires GoodBlock(level, c)
    ensures ReadBody(level, combined, Number(BlockSum(c.raw)), c.orig,
                     BlockBits(c.h, ColumnTokens(c.h.used, c.col)) + rest)
         == Then(c.raw, ReadBlockMagic(level, Combine(combined, BlockSum(c.raw)), 0, rest))
  {
    hide ReadBlock, Walk, SymbolAfter, Expand, Spelt, BlockBits, ColumnTokens, Writable, BlockSum, Combine, ReadBlockMagic,
         Number;
    SpeltIsExpansion(Walk(c.col, c.orig, |c.col|), SymbolAfter(c.col, c.orig, |c.col|));
    BlockReadBack(c.h, c.col, 100000 * level, rest);
    var crc, bits := Number(BlockSum(c.raw)), BlockBits(c.h, ColumnTokens(c.h.used, c.col)) + rest;
    BlockShrinks(100000 * level, bits);
    assert ReadBody(level, combined, crc, c.orig, bits)
        == AfterBody(level, combined, crc, c.orig, Got(c.col, rest), |bits|);
    assert AfterBody(level, combined, crc, c.orig, Got(c.col, rest), |bits|)
        == Then(c.raw, AfterBlock(level, combined, crc, BlockSum(c.raw), rest));
  }

  /** One block is read back, checksum and all. */
  lemma OneBlockBack(level: nat, combined: CrcWord, c: Coded, rest: seq<bool>)
    requires GoodBlock(level, c)
    ensures ReadBlockMagic(level, combined, 0, BlockStream(level, c) + rest)
         == Then(c.raw, ReadBlockMagic(level, Combine(combined, BlockSum(c.raw)), 0, rest))
  {
    hide GoodBlock, BlockBits, BytesBits, ReadBlockMagic, ReadBlockCrc, ReadOrigin, ReadBody, Combine, BlockSum, Number,
         Bytes4, BitsOf, Horner, ColumnTokens;
    GoodParts(level, c);
    var n := Number(BlockSum(c.raw));
    var e := BlockBits(c.h, ColumnTokens(c.h.used, c.col)) + rest;
    var d := BitsOf(c.orig, 24) + e;
    var b := [false] + d;
    assert BlockStream(level, c) + rest == BytesBits(BLOCK_MAGIC) + (BytesBits(Bytes4(n)) + b);
    assert BLOCK_MAGIC[0..] == BLOCK_MAGIC;
    BlockMagicBack(level, combined, 0, BytesBits(Bytes4(n)) + b);
    Bytes4Number(n);
    BlockCrcBack(level, combined, 0, 0, Bytes4(n), b);
    assert b[1..] == d;
    ThreeBytes(c.orig);
    OriginBack(level, combined, n, 0, 0, [c.orig / 0x1_0000, c.orig / 0x100 % 256, c.orig % 256], e);
    BodyBack(level, combined, c, rest);
  }

  lemma GoodParts(level: nat, c: Coded)
    requires GoodBlock(level, c)
    ensures Writable(c.h) && AllIn(c.col, UsedBytes(c.h.used, 256))
    ensures TokensFor(c.h, ColumnTokens(c.h.used, c.col))
    ensures c.orig < 0x100_0000 && c.orig <= 10 + 100000 * level
  {
  }

  /** Any number of blocks, whatever follows. */
  lemma {:induction false} BlocksBack(level: nat, bs: seq<Coded>, rest: seq<bool>)
    requires GoodBlocks(level, bs)
    ensures ReadBlockMagic(level, NO_SUM, 0, BlocksBits(level, bs) + rest)
         == Then(RawBytes(bs), ReadBlockMagic(level, CombinedSum(bs), 0, rest))
    decreases |bs|
  {
    hide ReadBlockMagic, BlockStream, GoodBlock, Combine, BlockSum;
    if |bs| == 0 {
      assert [] + rest == rest;
      ThenThen([], [], ReadBlockMagic(level, NO_SUM, 0, rest));
    } else {
      var t, c := bs[..|bs| - 1], bs[|bs| - 1];
      BlocksBack(level, t, BlockStream(level, c) + rest);
      OneBlockBack(level, CombinedSum(t), c, rest);
      assert BlocksBits(level, bs) + rest == BlocksBits(level, t) + (BlockStream(level, c) + rest);
      ThenThen(RawBytes(t), c.raw, ReadBlockMagic(level, CombinedSum(bs), 0, rest));
    }
  }

  lemma {:induction false} EndMagicBack(combined: CrcWord, k: nat, rest: seq<bool>)
    requires k <= 6
    ensures ReadEndMagic(combined, k, BytesBits(END_MAGIC[k..]) + rest) == ReadEndCrc(combined, 0, 0, rest)
    decreases 6 - k
  {
    hide Val, BytesBits, ReadEndCrc;
    if k == 6 {
      NoBytes();
      assert END_MAGIC[6..] == [] && [] + rest == rest;
    } else {
      FirstByte(END_MAGIC[k..], rest);
      assert END_MAGIC[k..][1..] == END_MAGIC[k + 1..];
      EndMagicBack(combined, k + 1, rest);
    }
  }

  lemma {:induction false} EndCrcBack(combined: CrcWord, k: nat, acc: nat, s: seq<int>, rest: seq<bool>)
    requires k + |s| == 4 && ByteString(s) && Horner(acc, s) == Number(combined)
    ensures ReadEndCrc(combined, k, acc, BytesBits(s) + rest) == Result([], End)
    decreases |s|
  {
    hide Val, BytesBits, Number;
    if k < 4 {
      FirstByte(s, rest);
      EndCrcBack(combined, k + 1, acc * 256 + s[0], s[1..], rest);
    }
  }

  lemma EndBack(level: nat, combined: CrcWord, pad: seq<bool>)
    ensures ReadBlockMagic(level, combined, 0, EndBits(combined) + pad) == Result([], End)
  {
    hide Val, BytesBits, Number, ReadEndMagic, ReadEndCrc, Horner, Bytes4;
    var n := Number(combined);
    var rest := BytesBits(Bytes4(n)) + pad;
    Bytes4Number(n);
    assert EndBits(combined) + pad == BytesBits(END_MAGIC) + rest;
    FirstByte(END_MAGIC, rest);
    EndMagicBack(combined, 1, rest);
    EndCrcBack(combined, 0, 0, Bytes4(n), pad);
  }

  lemma StartBack(level: nat, rest: seq<bool>)
    requires 1 <= level <= 9
    ensures Decode(StartBits(level) + rest) == ReadBlockMagic(level, NO_SUM, 0, rest)
  {
    hide Decode, BytesBits, ReadBlockMagic;
    MagicSteps(STREAM_MAGIC + [0x30 + level], rest);
  }

  lemma MagicSteps(s: seq<int>, rest: seq<bool>)
    requires |s| == 4 && ByteString(s) && s[..3] == STREAM_MAGIC && 0x31 <= s[3] <= 0x39
    ensures Decode(BytesBits(s) + rest) == ReadBlockMagic(s[3] - 0x30, NO_SUM, 0, rest)
  {
    hide Val, BytesBits, ReadBlockMagic;
    FirstByte(s, rest);
    FirstByte(s[1..], rest);
    FirstByte(s[2..], rest);
    FirstByte(s[3..], rest);
    NoBytes();
    assert s[1..][1..] == s[2..] && s[2..][1..] == s[3..] && s[3..][1..] == [] && [] + rest == rest;
    assert s[0] == s[..3][0] && s[1] == s[..3][1] && s[2] == s[..3][2];
    assert ReadMagic(2, BytesBits(s[2..]) + rest) == ReadMagic(3, BytesBits(s[3..]) + rest);
    assert ReadMagic(1, BytesBits(s[1..]) + rest) == ReadMagic(2, BytesBits(s[2..]) + rest);
  }

  /** Decoding a stream gives back the raw bytes of its blocks, whatever follows the stream. */
  lemma StreamReadBack(level: nat, bs: seq<Coded>, pad: seq<bool>)
    requires 1 <= level <= 9 && GoodBlocks(level, bs)
    ensures Decode(StreamBits(level, bs) + pad) == Result(RawBytes(bs), End)
  {
    hide Decode, BlocksBits, StartBits, EndBits, ReadBlockMagic, RawBytes, CombinedSum, GoodBlocks;
    var e := EndBits(CombinedSum(bs)) + pad;
    assert StreamBits(level, bs) + pad == StartBits(level) + (BlocksBits(level, bs) + e);
    StartBack(level, BlocksBits(level, bs) + e);
    BlocksBack(level, bs, e);
    EndBack(level, CombinedSum(bs), pad);
    assert RawBytes(bs) + [] == RawBytes(bs);
  }

  /** The stream of no bytes, byte by byte: "BZh", the level, the digits of the square root of pi, and
      a checksum of nothing. */
  lemma EmptyStream(level: nat, pad: seq<bool>)
    requires 1 <= level <= 9
    ensures StreamBits(level, []) == BytesBits([0x42, 0x5a, 0x68, 0x30 + level, 0x17, 0x72, 0x45, 0x38, 0x50, 0x90, 0, 0, 0, 0])
    ensures Decode(StreamBits(level, []) + pad) == Result([], End)
  {
    hide Decode, BytesBits, Number, Horner;
    NothingSummed();
    BytesConcat(END_MAGIC, [0, 0, 0, 0]);
    BytesConcat(STREAM_MAGIC + [0x30 + level], END_MAGIC + [0, 0, 0, 0]);
    assert STREAM_MAGIC + [0x30 + level] + (END_MAGIC + [0, 0, 0, 0])
        == [0x42, 0x5a, 0x68, 0x30 + level, 0x17, 0x72, 0x45, 0x38, 0x50, 0x90, 0, 0, 0, 0];
    StreamReadBack(level, [], pad);
  }

  lemma NothingSummed()
    ensures Bytes4(Number(CombinedSum([]))) == [0, 0, 0, 0]
  {
    NoBits(32);
  }

  lemma {:induction false} NoBits(n: nat)
    ensures Val(Falses(n)) == 0
  {
    if n > 0 {
      NoBits(n - 1);
      assert Falses(n)[..n - 1] == Falses(n - 1);
    }
  }

  /** A block opens with the digits of pi. */
  lemma BlockOpens(level: nat, c: Coded)
    requires GoodBlock(level, c)
    ensures BytesBits([0x31, 0x41, 0x59, 0x26, 0x53, 0x59]) <= BlockStream(level, c)
  {
    hide GoodBlock, BytesBits;
  }
}
