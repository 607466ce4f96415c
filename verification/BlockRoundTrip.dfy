/** What the encoder writes for a block is read back by the decoder as the same last column,
    whatever bits follow. */
module BlockRoundTrip {
  import opened Bits
  import opened HuffmanCodes
  import opened Mtf
  import opened MtfEncode
  import opened BlockFormat

  // ---------------------------------------------------------------- what is written

  function AnyUsed(used: seq<bool>, i: nat, j: nat): bool
    requires |used| == 256 && i < 16 && j <= 16
  {
    j > 0 && (AnyUsed(used, i, j - 1) || used[16 * i + j - 1])
  }

  /** One bit for each sixteen bytes. */
  function Used16(used: seq<bool>): (u: seq<bool>)
    requires |used| == 256
    ensures |u| == 16 && forall i :: 0 <= i < 16 ==> u[i] == AnyUsed(used, i, 16)
  {
    seq(16, i requires 0 <= i < 16 => AnyUsed(used, i, 16))
  }

  /** The mapping table from byte k on. */
  ghost function MapBits(used: seq<bool>, k: nat): seq<bool>
    requires |used| == 256 && k <= 256
    decreases 256 - k
  {
    if k == 256 then []
    else (if Used16(used)[k / 16] then [used[k]] else []) + MapBits(used, k + 1)
  }

  function UnaryBits(j: nat): seq<bool> {
    if j == 0 then [false] else [true] + UnaryBits(j - 1)
  }

  ghost function SelectorBits(ranks: seq<int>, k: nat): seq<bool>
    requires k <= |ranks| && forall i :: 0 <= i < |ranks| ==> 0 <= ranks[i]
    decreases |ranks| - k
  {
    if k == |ranks| then [] else UnaryBits(ranks[k]) + SelectorBits(ranks, k + 1)
  }

  /** Steps from one code length to the next, and the zero that ends them. */
  function LengthBits(curr: int, target: int): seq<bool>
    decreases if curr < target then target - curr else curr - target
  {
    if curr < target then [true, false] + LengthBits(curr + 1, target)
    else if curr > target then [true, true] + LengthBits(curr - 1, target)
    else [false]
  }

  ghost function TableBits(len: seq<int>, k: nat, curr: int): seq<bool>
    requires k <= |len|
    decreases |len| - k
  {
    if k == |len| then [] else LengthBits(curr, len[k]) + TableBits(len, k + 1, len[k])
  }

  ghost function AllTables(lens: seq<seq<int>>, t: nat): seq<bool>
    requires t <= |lens| && forall i :: 0 <= i < |lens| ==> |lens[i]| > 0 && lens[i][0] >= 0
    decreases |lens| - t
  {
    if t == |lens| then []
    else (BitsOf(lens[t][0], 5) + TableBits(lens[t], 0, lens[t][0])) + AllTables(lens, t + 1)
  }

  ghost predicate TokensFor(h: Header, toks: seq<int>) {
    && ValidHeader(h) && |toks| <= G_SIZE * |h.sel|
    && forall k :: 0 <= k < |toks| ==> 0 <= toks[k] < InUse(h.used) + 2
  }

  ghost function TokenBits(h: Header, toks: seq<int>, k: nat): seq<bool>
    requires TokensFor(h, toks) && k <= |toks|
    decreases |toks| - k
  {
    if k == |toks| then [] else CodeBits(h.lens[h.sel[k / G_SIZE]], toks[k]) + TokenBits(h, toks, k + 1)
  }

  /** Fifty symbols share a table: the first fifty that of selector 0, the next fifty that of
      selector 1, and so on; the encoder and the decoder agree on that. */
  lemma FiftyToATable(h: Header, toks: seq<int>, k: nat, max: nat, d: Data, sym: int, bits: seq<bool>)
    requires TokensFor(h, toks) && k < |toks| && ValidData(h, d) && d.count == k
    requires 0 <= sym < |h.lens[h.sel[k / 50]]| && Fits(h.lens[h.sel[k / 50]], 20)
    ensures TokenBits(h, toks, k) == CodeBits(h.lens[h.sel[k / 50]], toks[k]) + TokenBits(h, toks, k + 1)
    ensures ReadData(h, max, d, CodeBits(h.lens[h.sel[k / 50]], sym) + bits)
         == ReadAfter(h, max, d.(count := k + 1), sym, bits)
  {
    hide ReadAfter, Symbol, Fits, CodeBits;
    SymbolReadBack(h.lens[h.sel[k / 50]], sym, 20, bits);
  }

  /** A header the encoder can write. */
  ghost predicate Writable(h: Header) {
    && ValidHeader(h) && 2 <= |h.lens| <= 6 && 1 <= |h.sel| <= MAX_SELECTORS
    && (forall t :: 0 <= t < |h.lens| ==> Fits(h.lens[t], 20))
  }

  lemma {:induction false} SelectorsListed(sel: seq<int>, n: nat)
    requires forall i :: 0 <= i < |sel| ==> 0 <= sel[i] < n
    ensures AllIn(sel, Identity(n))
  {
    forall i | 0 <= i < |sel| ensures sel[i] in Identity(n) { assert Identity(n)[sel[i]] == sel[i]; }
  }

  ghost function SelectorRanks(h: Header): (r: seq<int>)
    requires ValidHeader(h)
    ensures |r| == |h.sel| && RanksWithin(r, |h.lens|)
  {
    SelectorsListed(h.sel, |h.lens|);
    RanksOf(Identity(|h.lens|), h.sel)
  }

  ghost function BlockBits(h: Header, toks: seq<int>): seq<bool>
    requires Writable(h) && TokensFor(h, toks)
  {
    Used16(h.used) + (MapBits(h.used, 0) + (BitsOf(|h.lens|, 3) + (BitsOf(|h.sel|, 15)
      + (SelectorBits(SelectorRanks(h), 0) + (AllTables(h.lens, 0) + TokenBits(h, toks, 0))))))
  }

  // ---------------------------------------------------------------- the mapping table

  lemma {:induction false} Used16Back(max: nat, u: seq<bool>, k: nat, rest: seq<bool>)
    requires |u| == 16 && k <= 16
    ensures ReadUsed16(max, u[..k], u[k..] + rest) == ReadUsed16(max, u, rest)
    decreases 16 - k
  {
    if k == 16 {
      assert u[..k] == u && u[k..] + rest == rest;
    } else {
      Used16Back(max, u, k + 1, rest);
      assert u[..k] + [u[k]] == u[..k + 1];
      assert (u[k..] + rest)[1..] == u[k + 1..] + rest;
      hide ReadUsed;
    }
  }

  lemma {:induction false} AnyUsedAt(used: seq<bool>, i: nat, j: nat, k: nat)
    requires |used| == 256 && i < 16 && k < j <= 16 && used[16 * i + k]
    ensures AnyUsed(used, i, j)
    decreases j
  {
    if k < j - 1 { AnyUsedAt(used, i, j - 1, k); }
  }

  lemma MapBitsNext(used: seq<bool>, k: nat, rest: seq<bool>)
    requires |used| == 256 && k < 256
    ensures var tail := MapBits(used, k + 1) + rest;
            MapBits(used, k) + rest == if Used16(used)[k / 16] then [used[k]] + tail else tail
    ensures used[k] ==> Used16(used)[k / 16]
    ensures used[..k + 1] == used[..k] + [used[k]]
  {
    if used[k] { AnyUsedAt(used, k / 16, 16, k % 16); }
    if !Used16(used)[k / 16] {
      assert MapBits(used, k) + rest == MapBits(used, k + 1) + rest;
    }
  }

  lemma {:induction false} MapBack(max: nat, used: seq<bool>, k: nat, rest: seq<bool>)
    requires |used| == 256 && k <= 256
    ensures ReadUsed(max, Used16(used), used[..k], MapBits(used, k) + rest) == ReadUsed(max, Used16(used), used, rest)
    decreases 256 - k
  {
    if k == 256 {
      assert used[..k] == used && MapBits(used, k) + rest == rest;
    } else {
      hide ReadGroups, Used16, InUse, MapBits;
      MapBack(max, used, k + 1, rest);
      MapBitsNext(used, k, rest);
      assert Used16(used)[k / 16] ==> (MapBits(used, k) + rest)[1..] == MapBits(used, k + 1) + rest;
    }
  }

  // ---------------------------------------------------------------- selectors

  lemma {:induction false} UnaryBack(max: nat, used: seq<bool>, nGroups: nat, nSel: nat, ranks: seq<int>, j: nat, r: nat,
                                     rest: seq<bool>)
    requires |ranks| < MAX_SELECTORS
    requires |used| == 256 && InUse(used) >= 1 && j <= r < nGroups
    requires RanksWithin(ranks, nGroups) && |ranks| < nSel
    ensures ReadSelectors(max, used, nGroups, nSel, ranks, j, UnaryBits(r - j) + rest)
         == ReadSelectors(max, used, nGroups, nSel, ranks + [r], 0, rest)
    decreases r - j
  {
    hide InUse, ReadTables, Selected;
    if j < r {
      UnaryBack(max, used, nGroups, nSel, ranks, j + 1, r, rest);
      assert (UnaryBits(r - j) + rest)[1..] == UnaryBits(r - (j + 1)) + rest;
    } else {
      assert (UnaryBits(0) + rest)[1..] == rest;
    }
  }

  lemma SelectorsNext(ranks: seq<int>, k: nat, rest: seq<bool>)
    requires k < |ranks| && forall i :: 0 <= i < |ranks| ==> ranks[i] >= 0
    ensures SelectorBits(ranks, k) + rest == UnaryBits(ranks[k]) + (SelectorBits(ranks, k + 1) + rest)
    ensures ranks[..k] + [ranks[k]] == ranks[..k + 1]
  {
    hide UnaryBits;
  }

  lemma {:induction false} SelectorsBack(max: nat, used: seq<bool>, nGroups: nat, nSel: nat, ranks: seq<int>, k: nat, rest: seq<bool>)
    requires |used| == 256 && InUse(used) >= 1 && RanksWithin(ranks, nGroups) && nGroups >= 1
    requires k <= |ranks| <= MAX_SELECTORS && |ranks| <= nSel
    ensures ReadSelectors(max, used, nGroups, nSel, ranks[..k], 0, SelectorBits(ranks, k) + rest)
         == ReadSelectors(max, used, nGroups, nSel, ranks, 0, rest)
    decreases |ranks| - k
  {
    if k == |ranks| {
      assert ranks[..k] == ranks && SelectorBits(ranks, k) + rest == rest;
    } else {
      hide InUse, ReadSelectors, UnaryBits, SelectorBits;
      SelectorsNext(ranks, k, rest);
      UnaryBack(max, used, nGroups, nSel, ranks[..k], 0, ranks[k], SelectorBits(ranks, k + 1) + rest);
      SelectorsBack(max, used, nGroups, nSel, ranks, k + 1, rest);
    }
  }

  // ---------------------------------------------------------------- code lengths

  lemma PartSnoc(f: Frame, cur: seq<int>, c: int)
    requires ValidPart(f, cur) && |cur| < InUse(f.used) + 2 && 1 <= c <= 20
    ensures ValidPart(f, cur + [c])
  {
  }

  lemma {:induction false} LengthBack(f: Frame, done: seq<seq<int>>, cur: seq<int>, curr: int, target: int, rest: seq<bool>)
    requires ValidTables(f, done) && |done| < f.nGroups && ValidPart(f, cur) && |cur| < InUse(f.used) + 2
    requires 1 <= curr <= 20 && 1 <= target <= 20
    ensures ReadLengths(f, done, cur, curr, LengthBits(curr, target) + rest)
         == ReadLengths(f, done, cur + [target], target, rest)
    decreases if curr < target then target - curr else curr - target
  {
    hide InUse, ReadTables, ValidTables, ValidPart;
    var b := LengthBits(curr, target) + rest;
    if curr == target {
      assert b[1..] == rest;
      PartSnoc(f, cur, curr);
    } else {
      var next := if curr < target then curr + 1 else curr - 1;
      assert b[1..][1..] == LengthBits(next, target) + rest;
      assert ReadLengths(f, done, cur, curr, b) == ReadDelta(f, done, cur, curr, b[1..]);
      LengthBack(f, done, cur, next, target, rest);
    }
  }

  lemma {:induction false} TableBack(f: Frame, done: seq<seq<int>>, len: seq<int>, k: nat, curr: int, rest: seq<bool>)
    requires ValidTables(f, done) && |done| < f.nGroups && LengthsOf(len, InUse(f.used) + 2)
    requires k <= |len| && 1 <= curr <= 20
    ensures ReadLengths(f, done, len[..k], curr, TableBits(len, k, curr) + rest) == ReadTables(f, done + [len], rest)
    decreases |len| - k
  {
    hide InUse, ReadTables, ReadDelta;
    if k == |len| {
      assert len[..k] == len && TableBits(len, k, curr) + rest == rest;
    } else {
      hide LengthBits, ReadLengths;
      var tail := TableBits(len, k + 1, len[k]) + rest;
      assert TableBits(len, k, curr) + rest == LengthBits(curr, len[k]) + tail;
      LengthBack(f, done, len[..k], curr, len[k], tail);
      assert len[..k] + [len[k]] == len[..k + 1];
      TableBack(f, done, len, k + 1, len[k], rest);
    }
  }

  /** The first length is sent in five bits. */
  lemma FirstLength(len: seq<int>, alphaSize: nat)
    requires LengthsOf(len, alphaSize) && alphaSize > 0
    ensures Val(BitsOf(len[0], 5)) == len[0]
  {
    hide Val, BitsOf;
    assert Pow2(5) == 32;
    ValOfBits(len[0], 5);
  }

  lemma TableStart(f: Frame, done: seq<seq<int>>, first: seq<bool>, bits: seq<bool>)
    requires ValidTables(f, done) && |done| < f.nGroups && |first| == 5
    ensures ReadTables(f, done, first + bits) == ReadLengths(f, done, [], Val(first), bits)
  {
    hide InUse, ReadData, ReadLengths, Val;
    assert (first + bits)[..5] == first && (first + bits)[5..] == bits;
  }

  lemma OneTableBack(f: Frame, done: seq<seq<int>>, len: seq<int>, tail: seq<bool>)
    requires ValidTables(f, done) && |done| < f.nGroups && LengthsOf(len, InUse(f.used) + 2)
    ensures ReadTables(f, done, (BitsOf(len[0], 5) + TableBits(len, 0, len[0])) + tail)
         == ReadTables(f, done + [len], tail)
  {
    hide InUse, ReadTables, ReadLengths, TableBits, BitsOf, Val;
    FirstLength(len, InUse(f.used) + 2);
    TableStart(f, done, BitsOf(len[0], 5), TableBits(len, 0, len[0]) + tail);
    assert (BitsOf(len[0], 5) + TableBits(len, 0, len[0])) + tail == BitsOf(len[0], 5) + (TableBits(len, 0, len[0]) + tail);
    assert len[..0] == [];
    TableBack(f, done, len, 0, len[0], tail);
  }

  lemma {:induction false} TablesBack(f: Frame, lens: seq<seq<int>>, t: nat, rest: seq<bool>)
    requires ValidTables(f, lens) && |lens| == f.nGroups && t <= |lens|
    ensures ReadTables(f, lens[..t], AllTables(lens, t) + rest)
         == ReadData(Header(f.used, f.sel, lens), f.max, DataStart(f.used), rest)
    decreases |lens| - t
  {
    hide InUse, ReadData;
    if t == |lens| {
      assert lens[..t] == lens && AllTables(lens, t) + rest == rest;
    } else {
      hide ReadTables, TableBits, BitsOf;
      var len := lens[t];
      var tail := AllTables(lens, t + 1) + rest;
      assert AllTables(lens, t) + rest == (BitsOf(len[0], 5) + TableBits(len, 0, len[0])) + tail;
      OneTableBack(f, lens[..t], len, tail);
      assert lens[..t] + [len] == lens[..t + 1];
      TablesBack(f, lens, t + 1, rest);
    }
  }

  // ---------------------------------------------------------------- symbols

  ghost predicate Tracks(d: Data, l: seq<int>, st: RunState) {
    && RanksWithin(st.ranks, |l|)
    && d.list == ListOf(l, st.ranks) && d.out == SymbolsOf(l, st.ranks)
    && d.run == st.run && d.weight == st.weight
  }

  ghost function Size(st: RunState): nat { |st.ranks| + st.run }

  lemma {:induction false} FollowZeros(l: seq<int>, r: seq<int>, k: nat)
    requires RanksWithin(r, |l|) && |l| > 0
    ensures RanksWithin(r + Zeros(k), |l|)
    ensures ListOf(l, r + Zeros(k)) == ListOf(l, r)
    ensures SymbolsOf(l, r + Zeros(k)) == SymbolsOf(l, r) + Copies(ListOf(l, r)[0], k)
  {
    hide ListOf, SymbolsOf;
    if k == 0 {
      assert r + Zeros(0) == r;
    } else {
      FollowZeros(l, r, k - 1);
      FollowSnoc(l, r + Zeros(k - 1), 0);
      assert r + Zeros(k) == (r + Zeros(k - 1)) + [0];
      assert ToFront(ListOf(l, r), 0) == ListOf(l, r);
    }
  }

  lemma FlushTracks(d: Data, l: seq<int>, st: RunState)
    requires Tracks(d, l, st) && |l| > 0
    ensures |d.list| > 0 && Tracks(Flushed(d), l, RunState(st.ranks + Zeros(st.run), 0, 1))
    ensures |d.out| == |st.ranks|
  {
    hide ListOf, SymbolsOf;
    FollowZeros(l, st.ranks, st.run);
  }

  /** One symbol other than end-of-block. */
  lemma SymbolStep(h: Header, max: nat, d: Data, l: seq<int>, st: RunState, t: int, bits: seq<bool>)
    returns (d': Data)
    requires ValidHeader(h) && |l| == InUse(h.used) && Tracks(d, l, st)
    requires 0 <= t <= |l| && st.weight < RUN_LIMIT && Size(Step(st, t)) <= max
    ensures Tracks(d', l, Step(st, t)) && d'.count == d.count && ValidData(h, d')
    ensures ValidData(h, d) && ReadAfter(h, max, d, t, bits) == ReadData(h, max, d', bits)
  {
    hide ListOf, SymbolsOf, ReadData, InUse, ToFront;
    if t == RUNA || t == RUNB {
      d' := d.(run := d.run + (t + 1) * d.weight, weight := 2 * d.weight);
    } else {
      FlushTracks(d, l, st);
      var f := Flushed(d);
      FollowSnoc(l, st.ranks + Zeros(st.run), t - 1);
      d' := Data(f.count, ToFront(f.list, t - 1), f.out + [f.list[t - 1]], 0, 1);
    }
  }

  lemma SymbolLast(h: Header, max: nat, d: Data, l: seq<int>, st: RunState, bits: seq<bool>)
    requires ValidHeader(h) && |l| == InUse(h.used) && Tracks(d, l, st) && Size(st) <= max
    ensures RanksWithin(st.ranks + Zeros(st.run), |l|)
    ensures ValidData(h, d)
    ensures ReadAfter(h, max, d, |l| + 1, bits) == Got(SymbolsOf(l, st.ranks + Zeros(st.run)), bits)
  {
    hide ListOf, SymbolsOf, ReadData, InUse, ToFront;
    FlushTracks(d, l, st);
  }

  /** The weight of a digit never exceeds the run it ends by more than one. */
  lemma {:induction false} WeightBound(ts: seq<int>, k: nat)
    requires k <= |ts|
    ensures var st := Steps(RunState([], 0, 1), ts[..k]);
            1 <= st.weight <= st.run + 1 && Size(st) <= Size(Steps(RunState([], 0, 1), ts))
    decreases |ts| - k
  {
    hide Steps;
    if k == |ts| {
      assert ts[..k] == ts;
      WeightAlways(ts);
    } else {
      WeightBound(ts, k + 1);
      WeightAlways(ts[..k]);
      assert ts[..k + 1] == ts[..k] + [ts[k]];
      StepsSnoc(RunState([], 0, 1), ts[..k], ts[k]);
    }
  }

  lemma {:induction false} WeightAlways(ts: seq<int>)
    ensures var st := Steps(RunState([], 0, 1), ts); 1 <= st.weight <= st.run + 1
  {
    if |ts| > 0 { WeightAlways(ts[..|ts| - 1]); }
  }

  /** The code of the next symbol is read whole. */
  lemma NextSymbol(h: Header, toks: seq<int>, max: nat, d: Data, rest: seq<bool>)
    requires Writable(h) && TokensFor(h, toks) && ValidData(h, d) && d.count < |toks|
    ensures ReadData(h, max, d, TokenBits(h, toks, d.count) + rest)
         == ReadAfter(h, max, d.(count := d.count + 1), toks[d.count], TokenBits(h, toks, d.count + 1) + rest)
  {
    hide ReadSymbol, ReadAfter, CodeBits, Fits, InUse;
    var tail := TokenBits(h, toks, d.count + 1) + rest;
    var len := h.lens[h.sel[d.count / G_SIZE]];
    assert TokenBits(h, toks, d.count) + rest == CodeBits(len, toks[d.count]) + tail;
    SymbolReadBack(len, toks[d.count], 20, tail);
  }

  /** The decoder follows the tokens to the end of the block. */
  lemma {:induction false} DataBack(h: Header, toks: seq<int>, max: nat, d: Data, l: seq<int>, rest: seq<bool>)
    requires Writable(h) && TokensFor(h, toks) && |l| == InUse(h.used) && d.count < |toks|
    requires forall k :: 0 <= k < |toks| - 1 ==> toks[k] <= |l|
    requires toks[|toks| - 1] == |l| + 1
    requires Tracks(d, l, Steps(RunState([], 0, 1), toks[..d.count]))
    requires |RanksRead(toks[..|toks| - 1])| <= max < RUN_LIMIT - 1
    ensures RanksWithin(RanksRead(toks[..|toks| - 1]), |l|) && ValidData(h, d)
    ensures ReadData(h, max, d, TokenBits(h, toks, d.count) + rest)
         == Got(SymbolsOf(l, RanksRead(toks[..|toks| - 1])), rest)
    decreases |toks| - d.count
  {
    hide Steps, SymbolsOf, ListOf, ReadData, ReadAfter, TokenBits, InUse;
    var ts, k := toks[..|toks| - 1], d.count;
    var st := Steps(RunState([], 0, 1), toks[..k]);
    var e := d.(count := k + 1);
    var tail := TokenBits(h, toks, k + 1) + rest;
    NextSymbol(h, toks, max, d, rest);
    assert ts[..k] == toks[..k];
    WeightBound(ts, k);
    if k == |ts| {
      SymbolLast(h, max, e, l, st, tail);
      assert TokenBits(h, toks, |toks|) + rest == rest by { NoTokens(h, toks); }
      assert ts[..k] == ts;
    } else {
      WeightBound(ts, k + 1);
      assert ts[..k + 1] == toks[..k] + [toks[k]] == toks[..k + 1];
      StepsSnoc(RunState([], 0, 1), toks[..k], toks[k]);
      var d' := SymbolStep(h, max, e, l, st, toks[k], tail);
      DataBack(h, toks, max, d', l, rest);
    }
  }

  lemma NoTokens(h: Header, toks: seq<int>)
    requires TokensFor(h, toks)
    ensures TokenBits(h, toks, |toks|) == []
  {
  }

  // ---------------------------------------------------------------- the whole block

  lemma {:induction false} WrittenRange(r: seq<int>, n: nat)
    requires RanksWithin(r, n)
    ensures forall k :: 0 <= k < |Written(r)| ==> 0 <= Written(r)[k] <= n
  {
    if |r| > 0 {
      var t, j := r[..|r| - 1], r[|r| - 1];
      WrittenRange(t, n);
      WrittenLast(r);
      DigitsSmall(Trailing(t), n);
    }
  }

  lemma DigitsSmall(z: nat, n: nat)
    requires n >= 1
    ensures forall k :: 0 <= k < |Digits(z)| ==> 0 <= Digits(z)[k] <= n
  {
  }

  lemma TokensShape(r: seq<int>, n: nat)
    requires RanksWithin(r, n) && n >= 1
    ensures var toks := Tokens(r, n + 1);
            && 0 < |toks| && toks[|toks| - 1] == n + 1
            && toks[..|toks| - 1] == Written(r) + Digits(Trailing(r))
            && (forall k :: 0 <= k < |toks| - 1 ==> 0 <= toks[k] <= n)
  {
    hide Written, Digits, Trailing;
    WrittenRange(r, n);
    DigitsSmall(Trailing(r), n);
  }

  /** The tokens of the column col. */
  ghost function ColumnTokens(used: seq<bool>, col: seq<int>): seq<int>
    requires |used| == 256 && AllIn(col, UsedBytes(used, 256))
  {
    Tokens(RanksOf(UsedBytes(used, 256), col), InUse(used) + 1)
  }

  lemma ColumnTokensFor(h: Header, col: seq<int>)
    requires ValidHeader(h) && InUse(h.used) >= 1 && AllIn(col, UsedBytes(h.used, 256))
    requires |ColumnTokens(h.used, col)| <= G_SIZE * |h.sel|
    ensures var toks := ColumnTokens(h.used, col);
            && TokensFor(h, toks) && 0 < |toks| && toks[|toks| - 1] == InUse(h.used) + 1
            && (forall k :: 0 <= k < |toks| - 1 ==> toks[k] <= InUse(h.used))
            && RanksRead(toks[..|toks| - 1]) == RanksOf(UsedBytes(h.used, 256), col)
  {
    hide RanksOf, Tokens, AllIn, Written, Digits, RanksRead, Trailing;
    var l, toks := UsedBytes(h.used, 256), ColumnTokens(h.used, col);
    var r := RanksOf(l, col);
    TokensShape(r, |l|);
    TokensRoundTrip(r);
    assert forall k :: 0 <= k < |toks| - 1 ==> 0 <= toks[k] <= |l|;
  }

  lemma ColumnDataBack(h: Header, col: seq<int>, max: nat, rest: seq<bool>)
    requires Writable(h) && AllIn(col, UsedBytes(h.used, 256)) && |col| <= max <= 900000
    requires |ColumnTokens(h.used, col)| <= G_SIZE * |h.sel|
    ensures TokensFor(h, ColumnTokens(h.used, col))
    ensures ReadData(h, max, DataStart(h.used), TokenBits(h, ColumnTokens(h.used, col), 0) + rest) == Got(col, rest)
  {
    hide Steps, SymbolsOf, ListOf, RanksOf, ReadData, ReadAfter, TokenBits, Tokens, AllIn, Fits, RanksRead, ColumnTokens;
    var l, toks := UsedBytes(h.used, 256), ColumnTokens(h.used, col);
    ColumnTokensFor(h, col);
    RanksRoundTrip(l, col);
    EmptyTracks(h.used, toks);
    DataBack(h, toks, max, DataStart(h.used), l, rest);
  }

  lemma EmptyTracks(used: seq<bool>, toks: seq<int>)
    requires |used| == 256
    ensures Tracks(DataStart(used), UsedBytes(used, 256), Steps(RunState([], 0, 1), toks[..0]))
  {
  }

  /** From the selectors on. */
  lemma SelectorsOnBack(h: Header, toks: seq<int>, max: nat, rest: seq<bool>)
    requires Writable(h) && TokensFor(h, toks)
    ensures ReadGroups(max, h.used, BitsOf(|h.lens|, 3) + (BitsOf(|h.sel|, 15)
              + (SelectorBits(SelectorRanks(h), 0) + (AllTables(h.lens, 0) + (TokenBits(h, toks, 0) + rest)))))
         == ReadData(h, max, DataStart(h.used), TokenBits(h, toks, 0) + rest)
  {
    hide SelectorBits, AllTables, TokenBits, BitsOf, Val, ReadData, ReadTables, ReadSelectors, Fits, RanksOf, SymbolsOf,
         ListOf, InUse;
    var n, m, ranks := |h.lens|, |h.sel|, SelectorRanks(h);
    var e := TokenBits(h, toks, 0) + rest;
    var d := AllTables(h.lens, 0) + e;
    var c := SelectorBits(ranks, 0) + d;
    var b := BitsOf(m, 15) + c;
    var a := BitsOf(n, 3) + b;
    assert Pow2(3) == 8 && Pow2(15) == 32768;
    ValOfBits(n, 3);
    ValOfBits(m, 15);
    assert a[..3] == BitsOf(n, 3) && a[3..] == b && b[..15] == BitsOf(m, 15) && b[15..] == c;
    assert ReadGroups(max, h.used, a) == ReadCount(max, h.used, n, b)
        == ReadSelectors(max, h.used, n, m, [], 0, c);
    assert ranks[..0] == [];
    SelectorsBack(max, h.used, n, m, ranks, 0, d);
    HeaderBack(h, max, ranks, d, e);
  }

  lemma HeaderBack(h: Header, max: nat, ranks: seq<int>, d: seq<bool>, e: seq<bool>)
    requires Writable(h) && ranks == SelectorRanks(h) && d == AllTables(h.lens, 0) + e
    ensures ReadSelectors(max, h.used, |h.lens|, |h.sel|, ranks, 0, d) == ReadData(h, max, DataStart(h.used), e)
  {
    hide AllTables, ReadData, ReadTables, Fits, RanksOf, SymbolsOf, ListOf, InUse;
    var f := Frame(max, h.used, h.sel, |h.lens|);
    SelectorsListed(h.sel, |h.lens|);
    RanksRoundTrip(Identity(|h.lens|), h.sel);
    assert h.lens[..0] == [];
    TablesBack(f, h.lens, 0, e);
    assert Header(f.used, f.sel, h.lens) == h;
  }

  /** The decoder reads back the last column from the encoder's bits, whatever follows them. */
  lemma BlockReadBack(h: Header, col: seq<int>, max: nat, rest: seq<bool>)
    requires Writable(h) && AllIn(col, UsedBytes(h.used, 256)) && |col| <= max <= 900000
    requires |ColumnTokens(h.used, col)| <= G_SIZE * |h.sel|
    ensures TokensFor(h, ColumnTokens(h.used, col))
    ensures ReadBlock(max, BlockBits(h, ColumnTokens(h.used, col)) + rest) == Got(col, rest)
  {
    hide SelectorBits, AllTables, TokenBits, BitsOf, Val, ReadData, ReadGroups, ReadUsed, ReadUsed16, Fits, RanksOf, Used16,
         ColumnTokens, MapBits, AllIn;
    ColumnDataBack(h, col, max, rest);
    var toks := ColumnTokens(h.used, col);
    SelectorsOnBack(h, toks, max, rest);
    var c := BitsOf(|h.lens|, 3) + (BitsOf(|h.sel|, 15)
             + (SelectorBits(SelectorRanks(h), 0) + (AllTables(h.lens, 0) + (TokenBits(h, toks, 0) + rest))));
    var u := Used16(h.used);
    assert BlockBits(h, toks) + rest == u + (MapBits(h.used, 0) + c);
    assert u[..0] == [] && u[0..] == u && h.used[..0] == [];
    Used16Back(max, u, 0, MapBits(h.used, 0) + c);
    UsedThenGroups(max, h.used, c);
  }

  lemma UsedThenGroups(max: nat, used: seq<bool>, c: seq<bool>)
    requires |used| == 256 && InUse(used) >= 1
    ensures ReadUsed16(max, Used16(used), MapBits(used, 0) + c) == ReadGroups(max, used, c)
  {
    hide ReadGroups, MapBits, InUse, Used16;
    MapBack(max, used, 0, c);
    assert used[..0] == [];
  }
}
