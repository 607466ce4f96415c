/** The bits of one compressed block after its header (compress.c, sendMTFValues) and how
    the decoder reads them (decompress.c): one function per point where BZ2_decompress waits
    for input, each saying what the decoder makes of the bits still to come. */
module BlockFormat {
  import opened Bits
  import opened HuffmanCodes
  import opened Mtf
  import opened MtfEncode

  const G_SIZE := 50

  /** BZ_MAX_SELECTORS, the size of the two arrays of selectors. */
  const MAX_SELECTORS := 18002
  const RUN_LIMIT := 2 * 1024 * 1024

  // ---------------------------------------------------------------- symbols

  /** The tables of a block: bytes in use, selectors, code lengths. */
  datatype Header = Header(used: seq<bool>, sel: seq<int>, lens: seq<seq<int>>)

  ghost function InUse(used: seq<bool>): nat
    requires |used| == 256
  {
    |UsedBytes(used, 256)|
  }

  ghost predicate LengthsOf(len: seq<int>, alphaSize: nat) {
    |len| == alphaSize && forall i :: 0 <= i < alphaSize ==> 1 <= len[i] <= 20
  }

  ghost predicate ValidHeader(h: Header) {
    && |h.used| == 256 && InUse(h.used) >= 1
    && (forall i :: 0 <= i < |h.sel| ==> 0 <= h.sel[i] < |h.lens|)
    && (forall t :: 0 <= t < |h.lens| ==> LengthsOf(h.lens[t], InUse(h.used) + 2))
  }

  /** The data phase: symbols fetched so far, the move-to-front list (of bytes), the bytes of
      the last column, the open run and the weight of its next digit. */
  datatype Data = Data(count: nat, list: seq<int>, out: seq<int>, run: nat, weight: nat)

  ghost predicate ValidData(h: Header, d: Data) {
    |h.used| == 256 && |d.list| == InUse(h.used) >= 1
  }

  function Copies(x: int, k: nat): (s: seq<int>)
    ensures |s| == k && forall i :: 0 <= i < k ==> s[i] == x
  {
    seq(k, _ => x)
  }

  /** The run is over: its bytes join the column. */
  ghost function Flushed(d: Data): Data
    requires |d.list| > 0
  {
    Data(d.count, d.list, d.out + Copies(d.list[0], d.run), 0, 1)
  }

  ghost predicate Overflows(max: nat, d: Data) {
    d.run > 0 && |d.out| + d.run > max
  }

  lemma SymbolProgress(len: seq<int>, bits: seq<bool>)
    requires forall i :: 0 <= i < |len| ==> 1 <= len[i] <= 20
    ensures var p := ReadSymbol(len, bits); p.Got? ==> |p.rest| < |bits|
  {
    NoShorter(len, |len|, 1, 0);
    assert First(len, 0) == 0;
  }

  /** The decoder's answer when the next thing it needs is a symbol. */
  ghost function ReadData(h: Header, max: nat, d: Data, bits: seq<bool>): Parse<seq<int>>
    requires ValidHeader(h) && ValidData(h, d)
    decreases |bits|, 0
  {
    if d.count / G_SIZE >= |h.sel| then Bad
    else
      var len := h.lens[h.sel[d.count / G_SIZE]];
      SymbolProgress(len, bits);
      match ReadSymbol(len, bits)
      case Short => Short
      case Bad => Bad
      case Beyond => Beyond
      case Got(sym, rest) => ReadAfter(h, max, d.(count := d.count + 1), sym, rest)
  }

  /** The decoder's answer once it has the symbol. */
  ghost function ReadAfter(h: Header, max: nat, d: Data, sym: int, bits: seq<bool>): Parse<seq<int>>
    requires ValidHeader(h) && ValidData(h, d) && 0 <= sym < InUse(h.used) + 2
    decreases |bits|, 1
  {
    if sym == RUNA || sym == RUNB then
      if d.weight >= RUN_LIMIT then Bad
      else ReadData(h, max, d.(run := d.run + (sym + 1) * d.weight, weight := 2 * d.weight), bits)
    else if Overflows(max, d) then Bad
    else
      var f := Flushed(d);
      if sym == InUse(h.used) + 1 then Got(f.out, bits)
      else if |f.out| >= max then Bad
      else ReadData(h, max, Data(f.count, ToFront(f.list, sym - 1), f.out + [f.list[sym - 1]], 0, 1), bits)
  }

  /** The decoder's answer when it needs one more bit of a code of which n - 1 bits are zvec. */
  ghost function ReadMore(h: Header, max: nat, d: Data, n: nat, zvec: nat, bits: seq<bool>): Parse<seq<int>>
    requires ValidHeader(h) && ValidData(h, d) && d.count / G_SIZE < |h.sel|
    requires First(h.lens[h.sel[d.count / G_SIZE]], n) <= 2 * zvec
  {
    if |bits| == 0 then Short
    else ReadFrom(h, max, d, n, 2 * zvec + Bit(bits[0]), bits[1..])
  }

  /** The decoder's answer when n bits of a code have been read as zvec. */
  ghost function ReadFrom(h: Header, max: nat, d: Data, n: nat, zvec: nat, bits: seq<bool>): Parse<seq<int>>
    requires ValidHeader(h) && ValidData(h, d) && d.count / G_SIZE < |h.sel|
    requires First(h.lens[h.sel[d.count / G_SIZE]], n) <= zvec
  {
    match Symbol(h.lens[h.sel[d.count / G_SIZE]], n, zvec, bits)
    case Short => Short
    case Bad => Bad
    case Beyond => Beyond
    case Got(sym, rest) => ReadAfter(h, max, d.(count := d.count + 1), sym, rest)
  }

  ghost function DataStart(used: seq<bool>): Data
    requires |used| == 256
  {
    Data(0, UsedBytes(used, 256), [], 0, 1)
  }

  // ---------------------------------------------------------------- code lengths

  /** What is known when the code lengths are being received. */
  datatype Frame = Frame(max: nat, used: seq<bool>, sel: seq<int>, nGroups: nat)

  ghost predicate ValidFrame(f: Frame) {
    && |f.used| == 256 && InUse(f.used) >= 1
    && (forall i :: 0 <= i < |f.sel| ==> 0 <= f.sel[i] < f.nGroups)
  }

  ghost predicate ValidTables(f: Frame, done: seq<seq<int>>) {
    && ValidFrame(f) && |done| <= f.nGroups
    && forall t :: 0 <= t < |done| ==> LengthsOf(done[t], InUse(f.used) + 2)
  }

  ghost predicate ValidPart(f: Frame, cur: seq<int>) {
    && ValidFrame(f) && |cur| <= InUse(f.used) + 2
    && forall i :: 0 <= i < |cur| ==> 1 <= cur[i] <= 20
  }

  ghost function ReadTables(f: Frame, done: seq<seq<int>>, bits: seq<bool>): Parse<seq<int>>
    requires ValidTables(f, done)
    decreases |bits|, f.nGroups - |done|, 1
  {
    if |done| == f.nGroups then
      ReadData(Header(f.used, f.sel, done), f.max, DataStart(f.used), bits)
    else if |bits| < 5 then Short
    else ReadLengths(f, done, [], Val(bits[..5]), bits[5..])
  }

  ghost function ReadLengths(f: Frame, done: seq<seq<int>>, cur: seq<int>, curr: int, bits: seq<bool>): Parse<seq<int>>
    requires ValidTables(f, done) && |done| < f.nGroups && ValidPart(f, cur)
    decreases |bits|, f.nGroups - |done|, 0
  {
    if |cur| == InUse(f.used) + 2 then ReadTables(f, done + [cur], bits)
    else if curr < 1 || curr > 20 then Bad
    else if |bits| == 0 then Short
    else if bits[0] then ReadDelta(f, done, cur, curr, bits[1..])
    else ReadLengths(f, done, cur + [curr], curr, bits[1..])
  }

  ghost function ReadDelta(f: Frame, done: seq<seq<int>>, cur: seq<int>, curr: int, bits: seq<bool>): Parse<seq<int>>
    requires ValidTables(f, done) && |done| < f.nGroups && ValidPart(f, cur)
    decreases |bits|, f.nGroups - |done|, 0
  {
    if |bits| == 0 then Short
    else ReadLengths(f, done, cur, if bits[0] then curr - 1 else curr + 1, bits[1..])
  }

  // ---------------------------------------------------------------- selectors

  /** The selectors a list of move-to-front ranks stands for. */
  ghost function Selected(nGroups: nat, ranks: seq<int>): seq<int>
    requires RanksWithin(ranks, nGroups)
  {
    SymbolsOf(Identity(nGroups), ranks)
  }

  lemma {:induction false} SelectedRange(nGroups: nat, ranks: seq<int>)
    requires RanksWithin(ranks, nGroups)
    ensures forall i :: 0 <= i < |ranks| ==> 0 <= Selected(nGroups, ranks)[i] < nGroups
    ensures multiset(ListOf(Identity(nGroups), ranks)) == multiset(Identity(nGroups))
  {
    if |ranks| > 0 {
      hide SymbolsOf, ListOf, ToFront;
      var r, j, l := ranks[..|ranks| - 1], ranks[|ranks| - 1], Identity(nGroups);
      SelectedRange(nGroups, r);
      FollowSnoc(l, r, j);
      assert r + [j] == ranks;
      ToFrontMembers(ListOf(l, r), j);
      var x := ListOf(l, r)[j];
      assert x in multiset(ListOf(l, r));
      assert x in multiset(l);
      assert x in l;
      assert Selected(nGroups, ranks) == Selected(nGroups, r) + [x];
    }
  }

  /** The number of selectors is taken as it is sent.  A rank that has no place in the array any
      more ends what can be said of the decoder. */
  ghost function ReadSelectors(max: nat, used: seq<bool>, nGroups: nat, nSel: nat, ranks: seq<int>, j: nat,
                               bits: seq<bool>): Parse<seq<int>>
    requires |used| == 256 && InUse(used) >= 1 && j < nGroups
    requires RanksWithin(ranks, nGroups) && |ranks| <= nSel
    decreases |bits|
  {
    if |ranks| == nSel then
      SelectedRange(nGroups, ranks);
      ReadTables(Frame(max, used, Selected(nGroups, ranks), nGroups), [], bits)
    else if |bits| == 0 then Short
    else if !bits[0] then
      if |ranks| >= MAX_SELECTORS then Beyond else ReadSelectors(max, used, nGroups, nSel, ranks + [j], 0, bits[1..])
    else if j + 1 >= nGroups then Bad
    else ReadSelectors(max, used, nGroups, nSel, ranks, j + 1, bits[1..])
  }

  ghost function ReadCount(max: nat, used: seq<bool>, nGroups: nat, bits: seq<bool>): Parse<seq<int>>
    requires |used| == 256 && InUse(used) >= 1 && nGroups >= 2
  {
    if |bits| < 15 then Short
    else if Val(bits[..15]) < 1 then Bad
    else ReadSelectors(max, used, nGroups, Val(bits[..15]), [], 0, bits[15..])
  }

  ghost function ReadGroups(max: nat, used: seq<bool>, bits: seq<bool>): Parse<seq<int>>
    requires |used| == 256 && InUse(used) >= 1
  {
    if |bits| < 3 then Short
    else if Val(bits[..3]) < 2 || Val(bits[..3]) > 6 then Bad
    else ReadCount(max, used, Val(bits[..3]), bits[3..])
  }

  // ---------------------------------------------------------------- the mapping table

  ghost function ReadUsed(max: nat, u16: seq<bool>, used: seq<bool>, bits: seq<bool>): Parse<seq<int>>
    requires |u16| == 16 && |used| <= 256
    decreases 256 - |used|
  {
    if |used| == 256 then
      if InUse(used) == 0 then Bad else ReadGroups(max, used, bits)
    else if !u16[|used| / 16] then ReadUsed(max, u16, used + [false], bits)
    else if |bits| == 0 then Short
    else ReadUsed(max, u16, used + [bits[0]], bits[1..])
  }

  ghost function ReadUsed16(max: nat, u16: seq<bool>, bits: seq<bool>): Parse<seq<int>>
    requires |u16| <= 16
    decreases 16 - |u16|
  {
    if |u16| == 16 then ReadUsed(max, u16, [], bits)
    else if |bits| == 0 then Short
    else ReadUsed16(max, u16 + [bits[0]], bits[1..])
  }

  /** The last column of a block of at most max bytes, read from the mapping table on. */
  ghost function ReadBlock(max: nat, bits: seq<bool>): Parse<seq<int>>
  {
    ReadUsed16(max, [], bits)
  }

  // ---------------------------------------------------------------- progress

  ghost predicate Shrinks<T>(p: Parse<T>, bits: seq<bool>) {
    p.Got? ==> |p.rest| <= |bits|
  }

  lemma {:induction false} DataShrinks(h: Header, max: nat, d: Data, bits: seq<bool>)
    requires ValidHeader(h) && ValidData(h, d)
    ensures Shrinks(ReadData(h, max, d, bits), bits)
    decreases |bits|, 0
  {
    if d.count / G_SIZE < |h.sel| {
      var len := h.lens[h.sel[d.count / G_SIZE]];
      SymbolProgress(len, bits);
      hide ReadSymbol;
      var p := ReadSymbol(len, bits);
      if p.Got? { AfterShrinks(h, max, d.(count := d.count + 1), p.value, p.rest); }
    }
  }

  lemma {:induction false} AfterShrinks(h: Header, max: nat, d: Data, sym: int, bits: seq<bool>)
    requires ValidHeader(h) && ValidData(h, d) && 0 <= sym < InUse(h.used) + 2
    ensures Shrinks(ReadAfter(h, max, d, sym, bits), bits)
    decreases |bits|, 1
  {
    if sym == RUNA || sym == RUNB {
      if d.weight < RUN_LIMIT {
        DataShrinks(h, max, d.(run := d.run + (sym + 1) * d.weight, weight := 2 * d.weight), bits);
      }
    } else if !Overflows(max, d) && sym != InUse(h.used) + 1 && |Flushed(d).out| < max {
      var f := Flushed(d);
      DataShrinks(h, max, Data(f.count, ToFront(f.list, sym - 1), f.out + [f.list[sym - 1]], 0, 1), bits);
    }
  }

  lemma {:induction false} TablesShrink(f: Frame, done: seq<seq<int>>, bits: seq<bool>)
    requires ValidTables(f, done)
    ensures Shrinks(ReadTables(f, done, bits), bits)
    decreases |bits|, f.nGroups - |done|, 1
  {
    hide ReadData, UsedBytes, Val;
    if |done| == f.nGroups {
      DataShrinks(Header(f.used, f.sel, done), f.max, DataStart(f.used), bits);
    } else if |bits| >= 5 {
      LengthsShrink(f, done, [], Val(bits[..5]), bits[5..]);
    }
  }

  lemma {:induction false} LengthsShrink(f: Frame, done: seq<seq<int>>, cur: seq<int>, curr: int, bits: seq<bool>)
    requires ValidTables(f, done) && |done| < f.nGroups && ValidPart(f, cur)
    ensures Shrinks(ReadLengths(f, done, cur, curr, bits), bits)
    decreases |bits|, f.nGroups - |done|, 0
  {
    hide ReadTables, UsedBytes;
    if |cur| == InUse(f.used) + 2 {
      TablesShrink(f, done + [cur], bits);
    } else if 1 <= curr <= 20 && |bits| > 0 {
      if !bits[0] {
        LengthsShrink(f, done, cur + [curr], curr, bits[1..]);
      } else if |bits| > 1 {
        LengthsShrink(f, done, cur, if bits[1..][0] then curr - 1 else curr + 1, bits[1..][1..]);
      }
    }
  }

  lemma {:induction false} SelectorsShrink(max: nat, used: seq<bool>, nGroups: nat, nSel: nat, ranks: seq<int>, j: nat,
                                           bits: seq<bool>)
    requires |used| == 256 && InUse(used) >= 1 && j < nGroups
    requires RanksWithin(ranks, nGroups) && |ranks| <= nSel
    ensures Shrinks(ReadSelectors(max, used, nGroups, nSel, ranks, j, bits), bits)
    decreases |bits|
  {
    hide ReadTables, UsedBytes, SymbolsOf;
    if |ranks| == nSel {
      SelectedRange(nGroups, ranks);
      TablesShrink(Frame(max, used, Selected(nGroups, ranks), nGroups), [], bits);
    } else if |bits| > 0 {
      if !bits[0] {
        if |ranks| < MAX_SELECTORS { SelectorsShrink(max, used, nGroups, nSel, ranks + [j], 0, bits[1..]); }
      } else if j + 1 < nGroups {
        SelectorsShrink(max, used, nGroups, nSel, ranks, j + 1, bits[1..]);
      }
    }
  }

  lemma GroupsShrink(max: nat, used: seq<bool>, bits: seq<bool>)
    requires |used| == 256 && InUse(used) >= 1
    ensures Shrinks(ReadGroups(max, used, bits), bits)
  {
    hide ReadSelectors, UsedBytes, Val;
    if |bits| >= 18 && 2 <= Val(bits[..3]) <= 6 && Val(bits[3..][..15]) >= 1 {
      SelectorsShrink(max, used, Val(bits[..3]), Val(bits[3..][..15]), [], 0, bits[3..][15..]);
    }
  }

  lemma {:induction false} UsedShrink(max: nat, u16: seq<bool>, used: seq<bool>, bits: seq<bool>)
    requires |u16| == 16 && |used| <= 256
    ensures Shrinks(ReadUsed(max, u16, used, bits), bits)
    decreases 256 - |used|
  {
    hide ReadGroups, UsedBytes;
    if |used| == 256 {
      if InUse(used) >= 1 { GroupsShrink(max, used, bits); }
    } else if !u16[|used| / 16] {
      UsedShrink(max, u16, used + [false], bits);
    } else if |bits| > 0 {
      UsedShrink(max, u16, used + [bits[0]], bits[1..]);
    }
  }

  lemma {:induction false} Used16Shrinks(max: nat, u16: seq<bool>, bits: seq<bool>)
    requires |u16| <= 16
    ensures Shrinks(ReadUsed16(max, u16, bits), bits)
    decreases 16 - |u16|
  {
    hide ReadUsed;
    if |u16| == 16 {
      UsedShrink(max, u16, [], bits);
    } else if |bits| > 0 {
      Used16Shrinks(max, u16 + [bits[0]], bits[1..]);
    }
  }

  /** Reading a block uses up bits from the front only. */
  lemma BlockShrinks(max: nat, bits: seq<bool>)
    ensures Shrinks(ReadBlock(max, bits), bits)
  {
    hide ReadUsed16;
    Used16Shrinks(max, [], bits);
  }
}
