/** Writing a block (compress.c, second half of sendMTFValues): selectors as move-to-front
    ranks, codes, the mapping table, the code lengths as differences, the symbols. */
module SendMtf {
  import opened Bits
  import opened Counting
  import opened HuffmanCodes
  import opened HuffmanTables
  import opened Mtf
  import opened MtfEncode
  import opened BlockFormat
  import opened BlockRoundTrip
  import opened BitStream
  import opened SelectTables

  // ---------------------------------------------------------------- selectors

  /** One selector: its place in the list, which it leaves for the front. */
  method RankSelector(pos: array<int>, x: int) returns (j: nat)
    requires x in pos[..]
    modifies pos
    ensures j == IndexIn(old(pos[..]), x) && j < pos.Length && pos[..] == ToFront(old(pos[..]), j)
  {
    ghost var l := pos[..];
    ghost var at := IndexIn(l, x);
    assert forall k :: 0 <= k < at ==> l[k] == l[..at][k];
    j := 0;
    var tmp := pos[0];
    while x != tmp
      invariant 0 <= j <= at && tmp == l[j]
      invariant forall k :: 1 <= k <= j ==> pos[k] == l[k - 1]
      invariant j == 0 ==> pos[0] == l[0]
      invariant forall k :: j < k < pos.Length ==> pos[k] == l[k]
      decreases at - j
    {
      j := j + 1;
      var tmp2 := tmp;
      tmp := pos[j];
      pos[j] := tmp2;
    }
    pos[0] := tmp;
    assert pos[..] == ToFront(l, j);
  }

  lemma ListedAfter(l: seq<int>, s: seq<int>, x: int)
    requires AllIn(s, l) && x in l
    ensures x in ListAfter(l, s)
  {
    assert x in multiset(l);
  }

  /** The selectors, as their ranks in a move-to-front list of the tables. */
  method RankSelectors(selector: seq<int>, nGroups: nat) returns (selectorMtf: seq<int>)
    requires forall i :: 0 <= i < |selector| ==> 0 <= selector[i] < nGroups
    ensures AllIn(selector, Identity(nGroups)) && selectorMtf == RanksOf(Identity(nGroups), selector)
  {
    hide ListAfter, RanksOf, ToFront, IndexIn;
    SelectorsListed(selector, nGroups);
    var pos := new int[nGroups](i => i);
    selectorMtf := [];
    assert selector[..0] == [] && pos[..] == Identity(nGroups);
    NoRanks(Identity(nGroups));
    for i := 0 to |selector|
      invariant AllIn(selector[..i], Identity(nGroups))
      invariant pos[..] == ListAfter(Identity(nGroups), selector[..i])
      invariant selectorMtf == RanksOf(Identity(nGroups), selector[..i])
    {
      assert Identity(nGroups)[selector[i]] == selector[i];
      ListedAfter(Identity(nGroups), selector[..i], selector[i]);
      RanksSnoc(Identity(nGroups), selector[..i], selector[i]);
      assert selector[..i + 1] == selector[..i] + [selector[i]];
      var j := RankSelector(pos, selector[i]);
      selectorMtf := selectorMtf + [j];
    }
    assert selector[..|selector|] == selector;
  }

  /** w.Bits() has grown by what separates `rest` from `all`. */
  ghost predicate Sent(w: BitWriter, all: seq<bool>, rest: seq<bool>)
    reads w
  {
    w.Valid() && w.Bits() + rest == all
  }

  lemma AppendOne(bits: seq<bool>, a: seq<bool>, rest: seq<bool>, all: seq<bool>)
    requires bits + (a + rest) == all
    ensures (bits + a) + rest == all
  {
  }

  method PutBit(w: BitWriter, b: bool, ghost all: seq<bool>, ghost rest: seq<bool>)
    requires Sent(w, all, [b] + rest)
    modifies w
    ensures Sent(w, all, rest)
  {
    assert BitsOf(Bit(b), 1) == [b];
    AppendOne(w.Bits(), [b], rest, all);
    assert Pow2(1) == 2;
    if b { w.BsW(1, 1); } else { w.BsW(1, 0); }
  }

  method PutBits(w: BitWriter, n: nat, v: nat, ghost all: seq<bool>, ghost rest: seq<bool>)
    requires Sent(w, all, BitsOf(v, n) + rest) && n <= 24 && v < Pow2(n)
    modifies w
    ensures Sent(w, all, rest)
  {
    hide BitsOf, Pow2;
    AppendOne(w.Bits(), BitsOf(v, n), rest, all);
    w.BsW(n, v);
  }

  // ---------------------------------------------------------------- the mapping table

  method UsedSixteens(used: seq<bool>) returns (inUse16: seq<bool>)
    requires |used| == 256
    ensures inUse16 == Used16(used)
  {
    inUse16 := [];
    for i := 0 to 16
      invariant |inUse16| == i && forall k :: 0 <= k < i ==> inUse16[k] == AnyUsed(used, k, 16)
    {
      var any := false;
      for j := 0 to 16
        invariant any == AnyUsed(used, i, j)
      {
        if used[i * 16 + j] { any := true; }
      }
      inUse16 := inUse16 + [any];
    }
  }

  lemma MapSkip(used: seq<bool>, k: nat, m: nat)
    requires |used| == 256 && k <= m <= 256 && m % 16 == 0 && m - 16 <= k && (k < m ==> !Used16(used)[k / 16])
    ensures MapBits(used, k) == MapBits(used, m)
    decreases m - k
  {
    if k < m {
      MapSkip(used, k + 1, m);
      assert [] + MapBits(used, k + 1) == MapBits(used, k + 1);
    }
  }

  method SendUsed16(w: BitWriter, inUse16: seq<bool>, ghost all: seq<bool>, ghost rest: seq<bool>)
    requires |inUse16| == 16 && Sent(w, all, inUse16 + rest)
    modifies w
    ensures Sent(w, all, rest)
  {
    hide Sent;
    assert inUse16[0..] == inUse16;
    for i := 0 to 16
      invariant Sent(w, all, inUse16[i..] + rest)
    {
      assert inUse16[i..] + rest == [inUse16[i]] + (inUse16[i + 1..] + rest);
      PutBit(w, inUse16[i], all, inUse16[i + 1..] + rest);
    }
    assert inUse16[16..] + rest == rest;
  }

  lemma MapStep(used: seq<bool>, i: nat, j: nat, rest: seq<bool>)
    requires |used| == 256 && i < 16 && j < 16 && Used16(used)[i]
    ensures MapBits(used, 16 * i + j) + rest == [used[16 * i + j]] + (MapBits(used, 16 * i + j + 1) + rest)
  {
    assert (16 * i + j) / 16 == i;
  }

  method SendSixteen(w: BitWriter, used: seq<bool>, i: nat, ghost all: seq<bool>, ghost rest: seq<bool>)
    requires |used| == 256 && i < 16 && Used16(used)[i] && Sent(w, all, MapBits(used, 16 * i) + rest)
    modifies w
    ensures Sent(w, all, MapBits(used, 16 * i + 16) + rest)
  {
    hide Sent, Used16, MapBits;
    for j := 0 to 16
      invariant Sent(w, all, MapBits(used, 16 * i + j) + rest)
    {
      MapStep(used, i, j, rest);
      PutBit(w, used[i * 16 + j], all, MapBits(used, 16 * i + j + 1) + rest);
    }
  }

  /** The mapping table. */
  method SendMapping(w: BitWriter, used: seq<bool>, ghost all: seq<bool>, ghost rest: seq<bool>)
    requires |used| == 256 && Sent(w, all, Used16(used) + (MapBits(used, 0) + rest))
    modifies w
    ensures Sent(w, all, rest)
  {
    hide Sent, Used16, MapBits;
    var inUse16 := UsedSixteens(used);
    SendUsed16(w, inUse16, all, MapBits(used, 0) + rest);
    for i := 0 to 16
      invariant Sent(w, all, MapBits(used, 16 * i) + rest)
    {
      if inUse16[i] {
        SendSixteen(w, used, i, all, rest);
      } else {
        MapSkip(used, 16 * i, 16 * i + 16);
      }
    }
    MapEnds(used);
    assert [] + rest == rest;
  }

  lemma MapEnds(used: seq<bool>)
    requires |used| == 256
    ensures MapBits(used, 256) == []
  {
  }

  method SendSelectors(w: BitWriter, ranks: seq<int>, ghost all: seq<bool>, ghost rest: seq<bool>)
    requires (forall i :: 0 <= i < |ranks| ==> 0 <= ranks[i]) && Sent(w, all, SelectorBits(ranks, 0) + rest)
    modifies w
    ensures Sent(w, all, rest)
  {
    hide Sent;
    for i := 0 to |ranks|
      invariant Sent(w, all, SelectorBits(ranks, i) + rest)
    {
      ghost var tail := SelectorBits(ranks, i + 1) + rest;
      assert SelectorBits(ranks, i) + rest == UnaryBits(ranks[i]) + tail;
      for j := 0 to ranks[i]
        invariant Sent(w, all, UnaryBits(ranks[i] - j) + tail)
      {
        assert UnaryBits(ranks[i] - j) + tail == [true] + (UnaryBits(ranks[i] - (j + 1)) + tail);
        PutBit(w, true, all, UnaryBits(ranks[i] - (j + 1)) + tail);
      }
      assert UnaryBits(0) == [false];
      PutBit(w, false, all, tail);
    }
    assert SelectorBits(ranks, |ranks|) + rest == rest;
  }

  // ---------------------------------------------------------------- code lengths

  lemma TwoBits()
    ensures BitsOf(2, 2) == [true, false] && BitsOf(3, 2) == [true, true] && Pow2(2) == 4
  {
  }

  /** The steps from curr to the next length. */
  method SendLength(w: BitWriter, curr0: int, target: int, ghost all: seq<bool>, ghost rest: seq<bool>) returns (curr: int)
    requires Sent(w, all, LengthBits(curr0, target) + rest)
    modifies w
    ensures Sent(w, all, rest) && curr == target
  {
    hide Sent, BitsOf, Pow2;
    TwoBits();
    curr := curr0;
    while curr < target
      invariant curr <= target || curr == curr0
      invariant Sent(w, all, LengthBits(curr, target) + rest)
      decreases target - curr
    {
      assert LengthBits(curr, target) + rest == [true, false] + (LengthBits(curr + 1, target) + rest);
      PutBits(w, 2, 2, all, LengthBits(curr + 1, target) + rest);
      curr := curr + 1;
    }
    while curr > target
      invariant curr >= target
      invariant Sent(w, all, LengthBits(curr, target) + rest)
      decreases curr - target
    {
      assert LengthBits(curr, target) + rest == [true, true] + (LengthBits(curr - 1, target) + rest);
      PutBits(w, 2, 3, all, LengthBits(curr - 1, target) + rest);
      curr := curr - 1;
    }
    assert LengthBits(curr, target) == [false];
    PutBit(w, false, all, rest);
  }

  method SendTable(w: BitWriter, len: seq<int>, ghost all: seq<bool>, ghost rest: seq<bool>)
    requires |len| > 0 && 0 <= len[0] <= 20
    requires Sent(w, all, (BitsOf(len[0], 5) + TableBits(len, 0, len[0])) + rest)
    modifies w
    ensures Sent(w, all, rest)
  {
    hide Sent, BitsOf;
    var curr := len[0];
    ghost var tail := TableBits(len, 0, len[0]) + rest;
    assert (BitsOf(curr, 5) + TableBits(len, 0, curr)) + rest == BitsOf(curr, 5) + tail;
    assert Pow2(5) == 32;
    PutBits(w, 5, curr, all, tail);
    for i := 0 to |len|
      invariant Sent(w, all, TableBits(len, i, curr) + rest)
    {
      ghost var next := TableBits(len, i + 1, len[i]) + rest;
      assert TableBits(len, i, curr) + rest == LengthBits(curr, len[i]) + next;
      curr := SendLength(w, curr, len[i], all, next);
    }
    assert TableBits(len, |len|, curr) + rest == rest;
  }

  method SendTables(w: BitWriter, lens: seq<seq<int>>, ghost all: seq<bool>, ghost rest: seq<bool>)
    requires forall t :: 0 <= t < |lens| ==> |lens[t]| > 0 && 0 <= lens[t][0] <= 20
    requires Sent(w, all, AllTables(lens, 0) + rest)
    modifies w
    ensures Sent(w, all, rest)
  {
    hide Sent, BitsOf, TableBits;
    for t := 0 to |lens|
      invariant Sent(w, all, AllTables(lens, t) + rest)
    {
      ghost var tail := AllTables(lens, t + 1) + rest;
      assert AllTables(lens, t) + rest == (BitsOf(lens[t][0], 5) + TableBits(lens[t], 0, lens[t][0])) + tail;
      SendTable(w, lens[t], all, tail);
    }
    assert AllTables(lens, |lens|) + rest == rest;
  }

  // ---------------------------------------------------------------- codes and symbols

  /** The codes of one table. */
  method CodesFor(len: seq<int>) returns (code: seq<int>)
    requires Lengths(len, 1, 17)
    ensures |code| == |len| && forall i :: 0 <= i < |len| ==> code[i] == Code(len, i)
  {
    hide Code;
    var minLen, maxLen := 32, 0;
    for i := 0 to |len|
      invariant forall k :: 0 <= k < i ==> minLen <= len[k] <= maxLen
      invariant if i == 0 then minLen == 32 && maxLen == 0 else 1 <= minLen <= maxLen <= 17
    {
      if len[i] > maxLen { maxLen := len[i]; }
      if len[i] < minLen { minLen := len[i]; }
    }
    var length := new int[|len|](i requires 0 <= i < |len| => len[i]);
    var c := new int[|len|];
    assert length[..|len|] == len;
    HbAssignCodes(c, length, minLen, maxLen, |len|);
    code := c[..];
  }

  ghost predicate CodesOf(codes: seq<seq<int>>, lens: seq<seq<int>>) {
    && |codes| == |lens|
    && forall t :: 0 <= t < |lens| ==>
         && |codes[t]| == |lens[t]|
         && forall i :: 0 <= i < |lens[t]| ==> lens[t][i] >= 0 && codes[t][i] == Code(lens[t], i)
  }

  method AllCodes(lens: seq<seq<int>>) returns (codes: seq<seq<int>>)
    requires forall t :: 0 <= t < |lens| ==> Lengths(lens[t], 1, 17)
    ensures CodesOf(codes, lens)
  {
    hide Code;
    codes := [];
    for t := 0 to |lens|
      invariant |codes| == t
      invariant forall k :: 0 <= k < t ==> |codes[k]| == |lens[k]|
      invariant forall k, i :: 0 <= k < t && 0 <= i < |lens[k]| ==> lens[k][i] >= 0 && codes[k][i] == Code(lens[k], i)
    {
      var code := CodesFor(lens[t]);
      codes := codes + [code];
    }
  }

  /** One symbol. */
  method SendSymbol(w: BitWriter, h: Header, codes: seq<seq<int>>, toks: seq<int>, k: nat, sel: nat,
                    ghost all: seq<bool>, ghost rest: seq<bool>)
    requires Writable(h) && TokensFor(h, toks) && CodesOf(codes, h.lens) && k < |toks| && sel == k / G_SIZE
    requires Sent(w, all, TokenBits(h, toks, k) + rest)
    modifies w
    ensures Sent(w, all, TokenBits(h, toks, k + 1) + rest)
  {
    hide Sent, BitsOf, Code, Fits;
    var t := h.sel[sel];
    var n, c := h.lens[t][toks[k]], codes[t][toks[k]];
    ghost var tail := TokenBits(h, toks, k + 1) + rest;
    assert TokenBits(h, toks, k) + rest == BitsOf(c, n) + tail;
    CodeFits(h.lens[t], toks[k], 20);
    PutBits(w, n, c, all, tail);
  }

  /** The block data proper. */
  method SendSymbols(w: BitWriter, h: Header, codes: seq<seq<int>>, toks: seq<int>, ghost all: seq<bool>, ghost rest: seq<bool>)
    requires Writable(h) && TokensFor(h, toks) && CodesOf(codes, h.lens)
    requires |h.sel| == (|toks| + G_SIZE - 1) / G_SIZE
    requires Sent(w, all, TokenBits(h, toks, 0) + rest)
    modifies w
    ensures Sent(w, all, rest)
  {
    hide Sent, TokensFor, CodesOf, Writable, TokenBits;
    var selCtr, gs := 0, 0;
    while gs < |toks|
      invariant gs == GroupStart(selCtr, |toks|) && selCtr <= |h.sel|
      invariant gs < |toks| ==> gs == G_SIZE * selCtr
      invariant gs == |toks| ==> selCtr == |h.sel|
      invariant Sent(w, all, TokenBits(h, toks, gs) + rest)
      decreases |toks| - gs
    {
      var ge := gs + G_SIZE - 1;
      if ge >= |toks| { ge := |toks| - 1; }
      for i := gs to ge + 1
        invariant Sent(w, all, TokenBits(h, toks, i) + rest)
      {
        SendSymbol(w, h, codes, toks, i, selCtr, all, rest);
      }
      gs := ge + 1;
      selCtr := selCtr + 1;
    }
    // assertion 3007 of the source
    assert selCtr == |h.sel|;
    NoTokens(h, toks);
    assert [] + rest == rest;
  }

  // ---------------------------------------------------------------- sendMTFValues

  lemma {:induction false} FitsLonger(lens: seq<int>, max: nat, n: nat)
    requires Fits(lens, max) && max <= n && forall i :: 0 <= i < |lens| ==> lens[i] <= max
    ensures Fits(lens, n)
    decreases n
  {
    hide CountEq, First, Pow2;
    if max < n {
      FitsLonger(lens, max, n - 1);
      NoLonger(lens, |lens|, max, n);
      FirstNext(lens, n - 1);
      PowNext(n - 1);
      assert First(lens, n - 1) + CountEq(lens, |lens|, n - 1) <= Pow2(n - 1);
    }
  }

  lemma PowNext(n: nat)
    ensures Pow2(n + 1) == 2 * Pow2(n)
  {
  }

  /** Tables that complete the code make a header the decoder accepts. */
  lemma HeaderWritable(used: seq<bool>, sel: seq<int>, lens: seq<seq<int>>, toks: seq<int>)
    requires |used| == 256 && InUse(used) >= 1 && 2 <= |lens| <= 6 && CompleteTables(lens, InUse(used) + 2)
    requires 0 < |toks| <= 900001 && |sel| == (|toks| + G_SIZE - 1) / G_SIZE
    requires forall g :: 0 <= g < |sel| ==> 0 <= sel[g] < |lens|
    requires InAlphabet(toks, InUse(used) + 2)
    ensures Writable(Header(used, sel, lens)) && TokensFor(Header(used, sel, lens), toks)
  {
    hide Kraft, InUse, Pow2;
    var h := Header(used, sel, lens);
    forall t | 0 <= t < |lens| ensures LengthsOf(lens[t], InUse(used) + 2) && Fits(lens[t], 20) {
      hide Fits;
      FitsIffKraft(lens[t], 17);
      FitsLonger(lens[t], 17, 20);
    }
    hide Fits;
  }

  /** sendMTFValues: what it writes is a block the decoder can read, for the given tokens. */
  method SendMtfValues(w: BitWriter, mtfv: seq<int>, mtfFreq: seq<int>, inUse: seq<bool>, nInUse: nat) returns (ghost h: Header)
    requires |inUse| == 256 && nInUse == InUse(inUse) >= 1 && w.Valid()
    requires BlockTokens(mtfv, nInUse + 2) && Counted(mtfFreq, mtfv, nInUse + 2) && |mtfv| <= 900001
    modifies w
    ensures w.Valid() && Writable(h) && h.used == inUse && TokensFor(h, mtfv)
    ensures |h.sel| == (|mtfv| + G_SIZE - 1) / G_SIZE && Chosen(h.sel, h.lens, mtfv, nInUse + 2)
    ensures w.Bits() == old(w.Bits()) + BlockBits(h, mtfv)
  {
    hide Chosen, Kraft, Pow2, TokenBits, AllTables, SelectorBits, MapBits, Used16, BitsOf, RanksOf, Counted, CompleteTables, InUse,
         Writable, TokensFor, CodesOf;
    var selector, lens := ChooseTables(mtfv, mtfFreq, nInUse + 2);
    TokensInAlphabet(mtfv, nInUse + 2);
    HeaderWritable(inUse, selector, lens, mtfv);
    h := Header(inUse, selector, lens);
    WritableParts(h, nInUse + 2);
    var selectorMtf := RankSelectors(selector, |lens|);
    CompleteLengths(lens, nInUse + 2);
    var codes := AllCodes(lens);
    var hdr := Header(inUse, selector, lens);
    ghost var all := w.Bits() + BlockBits(h, mtfv);
    ghost var c4 := TokenBits(h, mtfv, 0);
    ghost var c3 := AllTables(lens, 0) + c4;
    ghost var c2 := SelectorBits(selectorMtf, 0) + c3;
    ghost var c1 := BitsOf(|lens|, 3) + (BitsOf(|selector|, 15) + c2);
    assert BlockBits(h, mtfv) == Used16(inUse) + (MapBits(inUse, 0) + c1);
    SendMapping(w, inUse, all, c1);
    SendHeaderCounts(w, |lens|, |selector|, all, c2);
    SendSelectors(w, selectorMtf, all, c3);
    SendTables(w, lens, all, c4);
    assert c4 + [] == c4;
    SendSymbols(w, hdr, codes, mtfv, all, []);
    assert w.Bits() + [] == w.Bits();
  }

  method SendHeaderCounts(w: BitWriter, nGroups: nat, nSelectors: nat, ghost all: seq<bool>, ghost rest: seq<bool>)
    requires nGroups < 8 && nSelectors < 32768
    requires Sent(w, all, BitsOf(nGroups, 3) + (BitsOf(nSelectors, 15) + rest))
    modifies w
    ensures Sent(w, all, rest)
  {
    hide Sent, BitsOf;
    assert Pow2(3) == 8 && Pow2(15) == 32768;
    PutBits(w, 3, nGroups, all, BitsOf(nSelectors, 15) + rest);
    PutBits(w, 15, nSelectors, all, rest);
  }

  lemma TokensInAlphabet(toks: seq<int>, alphaSize: nat)
    requires BlockTokens(toks, alphaSize)
    ensures InAlphabet(toks, alphaSize)
  {
  }

  lemma WritableParts(h: Header, alphaSize: nat)
    requires Writable(h) && alphaSize == InUse(h.used) + 2
    ensures ValidHeader(h) && |h.sel| < 32768 && 2 <= |h.lens| <= 6
    ensures forall t :: 0 <= t < |h.lens| ==> |h.lens[t]| > 0 && 0 <= h.lens[t][0] <= 20
  {
  }

  lemma CompleteLengths(lens: seq<seq<int>>, alphaSize: nat)
    requires CompleteTables(lens, alphaSize)
    ensures forall t :: 0 <= t < |lens| ==> Lengths(lens[t], 1, 17)
  {
  }
}
