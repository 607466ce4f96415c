/** How many selectors the decoder has room for (decompress.c, BZ2_decompress): it takes
    any number up to 32767 from the stream, but its arrays hold 18002. */
module SelectorBounds {
  import opened Bits
  import opened HuffmanCodes
  import opened Mtf
  import opened MtfEncode
  import opened BlockFormat
  import opened BlockRoundTrip
  import opened BitStream
  import opened BlockCrc
  import opened StreamFormat

  // ---------------------------------------------------------------- after the selectors

  lemma {:induction false} DataInside(h: Header, max: nat, d: Data, bits: seq<bool>)
    requires ValidHeader(h) && ValidData(h, d)
    ensures ReadData(h, max, d, bits) != Beyond
    decreases |bits|, 0
  {
    if d.count / G_SIZE < |h.sel| {
      var len := h.lens[h.sel[d.count / G_SIZE]];
      SymbolProgress(len, bits);
      hide ReadSymbol;
      var p := ReadSymbol(len, bits);
      if p.Got? { AfterInside(h, max, d.(count := d.count + 1), p.value, p.rest); }
    }
  }

  lemma {:induction false} AfterInside(h: Header, max: nat, d: Data, sym: int, bits: seq<bool>)
    requires ValidHeader(h) && ValidData(h, d) && 0 <= sym < InUse(h.used) + 2
    ensures ReadAfter(h, max, d, sym, bits) != Beyond
    decreases |bits|, 1
  {
    if sym == RUNA || sym == RUNB {
      if d.weight < RUN_LIMIT {
        DataInside(h, max, d.(run := d.run + (sym + 1) * d.weight, weight := 2 * d.weight), bits);
      }
    } else if !Overflows(max, d) && sym != InUse(h.used) + 1 && |Flushed(d).out| < max {
      var f := Flushed(d);
      DataInside(h, max, Data(f.count, ToFront(f.list, sym - 1), f.out + [f.list[sym - 1]], 0, 1), bits);
    }
  }

  lemma {:induction false} TablesInside(f: Frame, done: seq<seq<int>>, bits: seq<bool>)
    requires ValidTables(f, done)
    ensures ReadTables(f, done, bits) != Beyond
    decreases |bits|, f.nGroups - |done|, 1
  {
    hide ReadData, UsedBytes, Val;
    if |done| == f.nGroups {
      DataInside(Header(f.used, f.sel, done), f.max, DataStart(f.used), bits);
    } else if |bits| >= 5 {
      LengthsInside(f, done, [], Val(bits[..5]), bits[5..]);
    }
  }

  lemma {:induction false} LengthsInside(f: Frame, done: seq<seq<int>>, cur: seq<int>, curr: int, bits: seq<bool>)
    requires ValidTables(f, done) && |done| < f.nGroups && ValidPart(f, cur)
    ensures ReadLengths(f, done, cur, curr, bits) != Beyond
    decreases |bits|, f.nGroups - |done|, 0
  {
    hide ReadTables, UsedBytes;
    if |cur| == InUse(f.used) + 2 {
      TablesInside(f, done + [cur], bits);
    } else if 1 <= curr <= 20 && |bits| > 0 {
      if !bits[0] {
        LengthsInside(f, done, cur + [curr], curr, bits[1..]);
      } else if |bits| > 1 {
        LengthsInside(f, done, cur, if bits[1..][0] then curr - 1 else curr + 1, bits[1..][1..]);
      }
    }
  }

  // ---------------------------------------------------------------- the selectors

  /** The bits hold one rank more than there is room for. */
  ghost predicate TooManyRanks(nGroups: nat, bits: seq<bool>) {
    exists ranks :: |ranks| == MAX_SELECTORS + 1 && RanksWithin(ranks, nGroups) && SelectorBits(ranks, 0) <= bits
  }

  /** The rank for which there is no room. */
  lemma {:induction false} LastBeyond(max: nat, used: seq<bool>, nGroups: nat, nSel: nat, ranks: seq<int>, j: nat, r: nat, rest: seq<bool>)
    requires |used| == 256 && InUse(used) >= 1 && j <= r < nGroups
    requires RanksWithin(ranks, nGroups) && |ranks| == MAX_SELECTORS < nSel
    ensures ReadSelectors(max, used, nGroups, nSel, ranks, j, UnaryBits(r - j) + rest) == Beyond
    decreases r - j
  {
    hide InUse, ReadTables, Selected;
    if j < r {
      LastBeyond(max, used, nGroups, nSel, ranks, j + 1, r, rest);
      assert (UnaryBits(r - j) + rest)[1..] == UnaryBits(r - (j + 1)) + rest;
    }
  }

  lemma {:induction false} BitsOfOneMore(a: seq<int>, x: nat, k: nat)
    requires k <= |a| && forall i :: 0 <= i < |a| ==> 0 <= a[i]
    ensures SelectorBits(a + [x], k) == SelectorBits(a, k) + UnaryBits(x)
    decreases |a| - k
  {
    hide UnaryBits;
    if k < |a| {
      BitsOfOneMore(a, x, k + 1);
      assert UnaryBits(a[k]) + (SelectorBits(a, k + 1) + UnaryBits(x)) == (UnaryBits(a[k]) + SelectorBits(a, k + 1)) + UnaryBits(x);
    } else {
      assert SelectorBits(a + [x], k + 1) == [];
      assert UnaryBits(x) + [] == UnaryBits(x) == [] + UnaryBits(x);
    }
  }

  lemma {:induction false} BitsAfterFirst(x: nat, m: seq<int>, k: nat)
    requires k <= |m| && forall i :: 0 <= i < |m| ==> 0 <= m[i]
    ensures SelectorBits([x] + m, k + 1) == SelectorBits(m, k)
    decreases |m| - k
  {
    hide UnaryBits;
    if k < |m| { BitsAfterFirst(x, m, k + 1); }
  }

  /** The ranks that did not fit, the first of them having been counted up to j. */
  lemma {:induction false} BeyondRanks(max: nat, used: seq<bool>, nGroups: nat, nSel: nat, ranks: seq<int>, j: nat, bits: seq<bool>)
      returns (more: seq<int>)
    requires |used| == 256 && InUse(used) >= 1 && j < nGroups && RanksWithin(ranks, nGroups)
    requires |ranks| <= nSel && |ranks| <= MAX_SELECTORS
    requires ReadSelectors(max, used, nGroups, nSel, ranks, j, bits) == Beyond
    ensures nSel > MAX_SELECTORS && |more| == MAX_SELECTORS + 1 - |ranks| && RanksWithin(more, nGroups) && more[0] >= j
    ensures UnaryBits(more[0] - j) + SelectorBits(more, 1) <= bits
    decreases |bits|
  {
    hide InUse, ReadTables, SymbolsOf;
    if |ranks| == nSel {
      SelectedRange(nGroups, ranks);
      TablesInside(Frame(max, used, Selected(nGroups, ranks), nGroups), [], bits);
      assert false;
    } else if bits[0] {
      more := BeyondRanks(max, used, nGroups, nSel, ranks, j + 1, bits[1..]);
      assert bits == [true] + bits[1..];
    } else {
      assert bits == [false] + bits[1..];
      more := [j];
      if |ranks| < MAX_SELECTORS {
        var m := BeyondRanks(max, used, nGroups, nSel, ranks + [j], 0, bits[1..]);
        more := [j] + m;
        BitsAfterFirst(j, m, 0);
      }
    }
  }

  /** The decoder writes beyond its arrays exactly if the number it was sent is more than they
      hold, and the bits go on with one rank too many. */
  lemma CountBeyond(max: nat, used: seq<bool>, nGroups: nat, bits: seq<bool>)
    requires |used| == 256 && InUse(used) >= 1 && nGroups >= 2
    ensures ReadCount(max, used, nGroups, bits) == Beyond
       <==> |bits| >= 15 && Val(bits[..15]) > MAX_SELECTORS && TooManyRanks(nGroups, bits[15..])
  {
    hide InUse, ReadSelectors, UnaryBits, Val;
    if |bits| >= 15 {
      var n := Val(bits[..15]);
      if ReadCount(max, used, nGroups, bits) == Beyond {
        var ranks := BeyondRanks(max, used, nGroups, n, [], 0, bits[15..]);
        assert SelectorBits(ranks, 0) == UnaryBits(ranks[0] - 0) + SelectorBits(ranks, 1);
      }
      if n > MAX_SELECTORS && TooManyRanks(nGroups, bits[15..]) {
        var ranks :| |ranks| == MAX_SELECTORS + 1 && RanksWithin(ranks, nGroups) && SelectorBits(ranks, 0) <= bits[15..];
        OneTooMany(max, used, nGroups, n, ranks, bits[15..]);
      }
    }
  }

  lemma OneTooMany(max: nat, used: seq<bool>, nGroups: nat, nSel: nat, ranks: seq<int>, bits: seq<bool>)
    requires |used| == 256 && InUse(used) >= 1 && nGroups >= 2 && nSel > MAX_SELECTORS
    requires |ranks| == MAX_SELECTORS + 1 && RanksWithin(ranks, nGroups) && SelectorBits(ranks, 0) <= bits
    ensures ReadSelectors(max, used, nGroups, nSel, [], 0, bits) == Beyond
  {
    hide InUse, ReadSelectors, UnaryBits, SelectorBits;
    var first, last := ranks[..MAX_SELECTORS], ranks[MAX_SELECTORS];
    var rest := bits[|SelectorBits(ranks, 0)|..];
    assert ranks == first + [last];
    BitsOfOneMore(first, last, 0);
    assert bits == SelectorBits(first, 0) + (UnaryBits(last - 0) + rest);
    assert first[..0] == [];
    SelectorsBack(max, used, nGroups, nSel, first, 0, UnaryBits(last - 0) + rest);
    LastBeyond(max, used, nGroups, nSel, first, 0, last, rest);
  }

  /** When the selectors are all there, the decoder stays inside its arrays exactly if there are
      no more than 18002 of them. */
  lemma WritesInside(max: nat, used: seq<bool>, nGroups: nat, ranks: seq<int>, rest: seq<bool>)
    requires |used| == 256 && InUse(used) >= 1 && nGroups >= 2 && |ranks| < 32768 && RanksWithin(ranks, nGroups)
    ensures ReadCount(max, used, nGroups, BitsOf(|ranks|, 15) + (SelectorBits(ranks, 0) + rest)) != Beyond
       <==> |ranks| <= MAX_SELECTORS
  {
    hide InUse, ReadCount, UnaryBits, SelectorBits, BitsOf, Val;
    var bits := BitsOf(|ranks|, 15) + (SelectorBits(ranks, 0) + rest);
    assert Pow2(15) == 32768;
    ValOfBits(|ranks|, 15);
    assert bits[..15] == BitsOf(|ranks|, 15) && bits[15..] == SelectorBits(ranks, 0) + rest;
    CountBeyond(max, used, nGroups, bits);
    if |ranks| > MAX_SELECTORS {
      var first := ranks[..MAX_SELECTORS + 1];
      BitsOfPrefix(first, ranks[MAX_SELECTORS + 1..]);
      assert ranks == first + ranks[MAX_SELECTORS + 1..];
      assert SelectorBits(first, 0) <= bits[15..];
    }
  }

  lemma {:induction false} BitsOfPrefix(a: seq<int>, b: seq<int>)
    requires forall i :: 0 <= i < |a| ==> 0 <= a[i]
    requires forall i :: 0 <= i < |b| ==> 0 <= b[i]
    ensures SelectorBits(a, 0) <= SelectorBits(a + b, 0)
    decreases |b|
  {
    hide UnaryBits, SelectorBits;
    if |b| == 0 {
      assert a + b == a;
    } else {
      BitsOfPrefix(a, b[..|b| - 1]);
      BitsOfOneMore(a + b[..|b| - 1], b[|b| - 1], 0);
      assert a + b == (a + b[..|b| - 1]) + [b[|b| - 1]];
    }
  }

  /** Such a header: two tables, 18003 selectors, all of them the first of the list. */
  lemma OneSelectorTooMany(max: nat, used: seq<bool>, rest: seq<bool>)
    requires |used| == 256 && InUse(used) >= 1
    ensures var ranks := seq(18003, _ => 0);
            ReadGroups(max, used, BitsOf(2, 3) + (BitsOf(18003, 15) + (SelectorBits(ranks, 0) + rest))) == Beyond
  {
    hide InUse, ReadCount, UnaryBits, SelectorBits, BitsOf, Val;
    var ranks := seq(18003, _ => 0);
    WritesInside(max, used, 2, ranks, rest);
    var b := BitsOf(18003, 15) + (SelectorBits(ranks, 0) + rest);
    assert Pow2(3) == 8;
    ValOfBits(2, 3);
    assert (BitsOf(2, 3) + b)[..3] == BitsOf(2, 3) && (BitsOf(2, 3) + b)[3..] == b;
  }

  // ---------------------------------------------------------------- a whole stream

  /** The header of a block with 18003 selectors, up to and including them. */
  ghost function LongHeader(used: seq<bool>): seq<bool>
    requires |used| == 256
  {
    Used16(used) + (MapBits(used, 0) + (BitsOf(2, 3) + (BitsOf(18003, 15) + SelectorBits(seq(18003, _ => 0), 0))))
  }

  lemma LongHeaderRead(max: nat, used: seq<bool>, rest: seq<bool>)
    requires |used| == 256 && InUse(used) >= 1
    ensures ReadBlock(max, LongHeader(used) + rest) == Beyond
  {
    hide InUse, UnaryBits, SelectorBits, BitsOf, Val, MapBits, Used16, ReadGroups, ReadUsed, ReadUsed16;
    var c := BitsOf(2, 3) + (BitsOf(18003, 15) + (SelectorBits(seq(18003, _ => 0), 0) + rest));
    OneSelectorTooMany(max, used, rest);
    var u := Used16(used);
    assert LongHeader(used) + rest == u + (MapBits(used, 0) + c);
    assert u[..0] == [] && u[0..] == u;
    Used16Back(max, u, 0, MapBits(used, 0) + c);
    UsedThenGroups(max, used, c);
  }

  /** The beginning of a stream whose first block has such a header: crc and orig are the stored
      checksum and origPtr. */
  ghost function LongStream(level: nat, used: seq<bool>, crc: nat, orig: nat): seq<bool>
    requires |used| == 256
  {
    StartBits(level) + (BytesBits(BLOCK_MAGIC) + (BytesBits(Bytes4(crc)) + ([false] + (BitsOf(orig, 24) + LongHeader(used)))))
  }

  /** Whatever follows, the decoder writes beyond its arrays, with no byte put out before. */
  lemma LongStreamOverruns(level: nat, used: seq<bool>, crc: nat, orig: nat, rest: seq<bool>)
    requires 1 <= level <= 9 && |used| == 256 && InUse(used) >= 1 && crc < 0x1_0000_0000 && orig <= 10 + 100000 * level
    ensures Decode(LongStream(level, used, crc, orig) + rest) == Result([], Overrun)
  {
    hide InUse, LongHeader, BytesBits, BitsOf, Bytes4, Decode, ReadBlockMagic, ReadBlockCrc, ReadOrigin, ReadBody, StartBits;
    var e := LongHeader(used) + rest;
    var d := BitsOf(orig, 24) + e;
    var b := [false] + d;
    assert LongStream(level, used, crc, orig) + rest
        == StartBits(level) + (BytesBits(BLOCK_MAGIC) + (BytesBits(Bytes4(crc)) + b));
    StartBack(level, BytesBits(BLOCK_MAGIC) + (BytesBits(Bytes4(crc)) + b));
    assert BLOCK_MAGIC[0..] == BLOCK_MAGIC;
    BlockMagicBack(level, NO_SUM, 0, BytesBits(Bytes4(crc)) + b);
    Bytes4Number(crc);
    BlockCrcBack(level, NO_SUM, 0, 0, Bytes4(crc), b);
    assert b[1..] == d;
    ThreeBytes(orig);
    OriginBack(level, NO_SUM, crc, 0, 0, [orig / 0x1_0000, orig / 0x100 % 256, orig % 256], e);
    LongBody(level, used, crc, orig, rest);
  }

  lemma LongBody(level: nat, used: seq<bool>, crc: nat, orig: nat, rest: seq<bool>)
    requires |used| == 256 && InUse(used) >= 1
    ensures ReadBody(level, NO_SUM, crc, orig, LongHeader(used) + rest) == Result([], Overrun)
  {
    hide InUse, LongHeader, ReadBlock;
    LongHeaderRead(100000 * level, used, rest);
  }
}
