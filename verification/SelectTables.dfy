/** Choosing the coding tables of a block (compress.c, first half of sendMTFValues): the
    initial partition of the alphabet, the cheapest table for every fifty symbols, and the
    symbol counts from which the next tables are made. */
module SelectTables {
  import Bits
  import CodeOptimal
  import opened Counting
  import opened HuffmanCodes
  import opened HuffmanLengths
  import opened MtfEncode
  import opened BlockFormat

  const GREATER_ICOST := 15
  const LESSER_ICOST := 0

  /** How many coding tables a block gets. */
  method GroupCount(nMTF: nat) returns (nGroups: nat)
    requires nMTF > 0
    ensures 2 <= nGroups <= 6
    ensures nGroups > 2 <==> nMTF >= 200
    ensures nGroups > 3 <==> nMTF >= 600
    ensures nGroups > 4 <==> nMTF >= 1200
    ensures nGroups > 5 <==> nMTF >= 2400
  {
    if nMTF < 200 { nGroups := 2; }
    else if nMTF < 600 { nGroups := 3; }
    else if nMTF < 1200 { nGroups := 4; }
    else if nMTF < 2400 { nGroups := 5; }
    else { nGroups := 6; }
  }

  // ---------------------------------------------------------------- sums of counts

  ghost function Sum(s: seq<int>, i: nat): int
    requires i <= |s|
  {
    if i == 0 then 0 else Sum(s, i - 1) + s[i - 1]
  }

  lemma {:induction false} SumPlusOne(s: seq<int>, i: nat, k: nat)
    requires i <= |s| && k < |s|
    ensures Sum(s[k := s[k] + 1], i) == Sum(s, i) + if k < i then 1 else 0
  {
    if i > 0 { SumPlusOne(s, i - 1, k); }
  }

  lemma {:induction false} SumZero(s: seq<int>, i: nat)
    requires i <= |s| && forall k :: 0 <= k < |s| ==> s[k] == 0
    ensures Sum(s, i) == 0
  {
    if i > 0 { SumZero(s, i - 1); }
  }

  /** Making every symbol count for something adds at most one each. */
  lemma {:induction false} LeavesTotal(freq: seq<int>, i: nat)
    requires i <= |freq| && forall k :: 0 <= k < |freq| ==> freq[k] >= 0
    ensures Total(Leaves(freq), i) <= Sum(freq, i) + i
  {
    if i > 0 { LeavesTotal(freq, i - 1); }
  }

  // ---------------------------------------------------------------- the cheapest table

  /** What tokens gs..ge-1 cost with the lengths len. */
  ghost function Cost(len: seq<int>, toks: seq<int>, gs: nat, ge: nat): int
    requires gs <= ge <= |toks| && forall i :: gs <= i < ge ==> 0 <= toks[i] < |len|
  {
    if gs == ge then 0 else Cost(len, toks, gs, ge - 1) + len[toks[ge - 1]]
  }

  ghost predicate Tables6(lens: seq<seq<int>>, alphaSize: nat) {
    && |lens| <= 6 && alphaSize <= MAX_ALPHA_SIZE
    && (forall t :: 0 <= t < |lens| ==> |lens[t]| == alphaSize)
    && (forall t, v :: 0 <= t < |lens| && 0 <= v < alphaSize ==> 0 <= lens[t][v] <= 20)
  }

  ghost predicate InAlphabet(toks: seq<int>, alphaSize: nat) {
    forall i :: 0 <= i < |toks| ==> 0 <= toks[i] < alphaSize
  }

  lemma {:induction false} CostBound(len: seq<int>, toks: seq<int>, gs: nat, ge: nat)
    requires gs <= ge <= |toks| && forall i :: gs <= i < ge ==> 0 <= toks[i] < |len|
    requires forall v :: 0 <= v < |len| ==> 0 <= len[v] <= 20
    ensures 0 <= Cost(len, toks, gs, ge) <= 20 * (ge - gs)
  {
    if gs < ge { CostBound(len, toks, gs, ge - 1); }
  }

  /** Two lengths share one 32-bit word. */
  function Packed(hi: int, lo: int): int { hi * 0x1_0000 + lo }

  /** The fast track: six costs are added up in three words. */
  method PackedCosts(mtfv: seq<int>, lens: seq<seq<int>>, gs: nat, ghost alphaSize: nat) returns (cost: seq<int>)
    requires |lens| == 6 && Tables6(lens, alphaSize) && InAlphabet(mtfv, alphaSize) && gs + 50 <= |mtfv|
    ensures |cost| == 6 && forall t :: 0 <= t < 6 ==> cost[t] == Cost(lens[t], mtfv, gs, gs + 50)
  {
    hide Packed;
    var cost01, cost23, cost45 := 0, 0, 0;
    PackedSplit(0, 0);
    for nn := 0 to 50
      invariant cost01 == Packed(Cost(lens[1], mtfv, gs, gs + nn), Cost(lens[0], mtfv, gs, gs + nn))
      invariant cost23 == Packed(Cost(lens[3], mtfv, gs, gs + nn), Cost(lens[2], mtfv, gs, gs + nn))
      invariant cost45 == Packed(Cost(lens[5], mtfv, gs, gs + nn), Cost(lens[4], mtfv, gs, gs + nn))
    {
      var icv := mtfv[gs + nn];
      cost01 := AddPacked(cost01, lens[1], lens[0], mtfv, gs, gs + nn);
      cost23 := AddPacked(cost23, lens[3], lens[2], mtfv, gs, gs + nn);
      cost45 := AddPacked(cost45, lens[5], lens[4], mtfv, gs, gs + nn);
    }
    forall t | 0 <= t < 6 ensures 0 <= Cost(lens[t], mtfv, gs, gs + 50) < 0x1_0000 {
      CostBound(lens[t], mtfv, gs, gs + 50);
    }
    PackedSplit(Cost(lens[1], mtfv, gs, gs + 50), Cost(lens[0], mtfv, gs, gs + 50));
    PackedSplit(Cost(lens[3], mtfv, gs, gs + 50), Cost(lens[2], mtfv, gs, gs + 50));
    PackedSplit(Cost(lens[5], mtfv, gs, gs + 50), Cost(lens[4], mtfv, gs, gs + 50));
    cost := [cost01 % 0x1_0000, cost01 / 0x1_0000, cost23 % 0x1_0000, cost23 / 0x1_0000,
             cost45 % 0x1_0000, cost45 / 0x1_0000];
  }

  method AddPacked(sum: int, hi: seq<int>, lo: seq<int>, mtfv: seq<int>, ghost gs: nat, i: nat) returns (sum': int)
    requires gs <= i < |mtfv| && |hi| == |lo| && InAlphabet(mtfv, |hi|)
    requires sum == Packed(Cost(hi, mtfv, gs, i), Cost(lo, mtfv, gs, i))
    ensures sum' == Packed(Cost(hi, mtfv, gs, i + 1), Cost(lo, mtfv, gs, i + 1))
  {
    sum' := sum + Packed(hi[mtfv[i]], lo[mtfv[i]]);
  }

  lemma PackedSplit(hi: int, lo: int)
    requires 0 <= lo < 0x1_0000
    ensures Packed(hi, lo) % 0x1_0000 == lo && Packed(hi, lo) / 0x1_0000 == hi
    ensures Packed(0, 0) == 0
  {
  }

  /** What the tokens gs..ge-1 cost with each table. */
  method GroupCosts(mtfv: seq<int>, lens: seq<seq<int>>, gs: nat, ge: nat, ghost alphaSize: nat)
    returns (cost: seq<int>)
    requires Tables6(lens, alphaSize) && InAlphabet(mtfv, alphaSize) && gs <= ge <= |mtfv|
    ensures |cost| == |lens| && forall t :: 0 <= t < |lens| ==> cost[t] == Cost(lens[t], mtfv, gs, ge)
  {
    if |lens| == 6 && 50 == ge - gs {
      cost := PackedCosts(mtfv, lens, gs, alphaSize);
      return;
    }
    cost := seq(|lens|, _ => 0);
    for i := gs to ge
      invariant |cost| == |lens| && forall t :: 0 <= t < |lens| ==> cost[t] == Cost(lens[t], mtfv, gs, i)
    {
      var icv := mtfv[i];
      ghost var before := cost;
      for t := 0 to |lens|
        invariant |cost| == |lens|
        invariant forall k :: 0 <= k < t ==> cost[k] == before[k] + lens[k][icv]
        invariant forall k :: t <= k < |lens| ==> cost[k] == before[k]
      {
        cost := cost[t := cost[t] + lens[t][icv]];
      }
    }
  }

  /** The first of the cheapest tables. */
  method BestTable(cost: seq<int>) returns (bt: nat)
    requires |cost| > 0 && forall t :: 0 <= t < |cost| ==> cost[t] < 999999999
    ensures bt < |cost| && forall t :: 0 <= t < |cost| ==> cost[bt] <= cost[t]
    ensures forall t :: 0 <= t < bt ==> cost[bt] < cost[t]
  {
    var bc := 999999999;
    var best := -1;
    for t := 0 to |cost|
      invariant best == -1 <==> t == 0
      invariant best >= 0 ==> best < t && bc == cost[best]
      invariant forall k :: 0 <= k < t ==> bc <= cost[k]
      invariant forall k :: 0 <= k < best ==> bc < cost[k]
      invariant best == -1 ==> bc == 999999999
    {
      if cost[t] < bc { bc, best := cost[t], t; }
    }
    bt := best;
  }

  // ---------------------------------------------------------------- one pass

  /** The end of the g-th group of fifty. */
  function GroupEnd(g: nat, nMTF: nat): nat {
    if G_SIZE * (g + 1) <= nMTF then G_SIZE * (g + 1) else nMTF
  }

  /** Table bt is as cheap as any for group g. */
  ghost predicate Cheapest(lens: seq<seq<int>>, alphaSize: nat, toks: seq<int>, g: nat, bt: int)
    requires Tables6(lens, alphaSize) && InAlphabet(toks, alphaSize) && G_SIZE * g < |toks|
  {
    && 0 <= bt < |lens|
    && forall t :: 0 <= t < |lens| ==>
         Cost(lens[bt], toks, G_SIZE * g, GroupEnd(g, |toks|)) <= Cost(lens[t], toks, G_SIZE * g, GroupEnd(g, |toks|))
  }

  /** How many of the first n tokens are v and belong to groups coded with table t. */
  ghost function Uses(toks: seq<int>, sel: seq<int>, n: nat, t: int, v: int): nat
    requires n <= |toks| && n <= G_SIZE * |sel|
  {
    if n == 0 then 0
    else Uses(toks, sel, n - 1, t, v) + if sel[(n - 1) / G_SIZE] == t && toks[n - 1] == v then 1 else 0
  }

  lemma {:induction false} UsesExtend(toks: seq<int>, sel: seq<int>, x: int, n: nat, t: int, v: int)
    requires n <= |toks| && n <= G_SIZE * |sel|
    ensures Uses(toks, sel + [x], n, t, v) == Uses(toks, sel, n, t, v)
  {
    if n > 0 { UsesExtend(toks, sel, x, n - 1, t, v); }
  }

  ghost predicate Tallied(rfreq: seq<seq<int>>, nGroups: nat, alphaSize: nat, toks: seq<int>, sel: seq<int>, n: nat)
    requires n <= |toks| && n <= G_SIZE * |sel|
  {
    && |rfreq| == nGroups
    && (forall t :: 0 <= t < nGroups ==> |rfreq[t]| == alphaSize)
    && (forall t :: 0 <= t < nGroups ==> Sum(rfreq[t], alphaSize) <= n)
    && (forall t, v :: 0 <= t < nGroups && 0 <= v < alphaSize ==> rfreq[t][v] == Uses(toks, sel, n, t, v))
  }

  lemma TalliedStep(rfreq: seq<seq<int>>, nGroups: nat, alphaSize: nat, toks: seq<int>, sel: seq<int>, n: nat)
    requires n < |toks| && n < G_SIZE * |sel| && Tallied(rfreq, nGroups, alphaSize, toks, sel, n)
    requires 0 <= sel[n / G_SIZE] < nGroups && 0 <= toks[n] < alphaSize
    ensures var bt, v := sel[n / G_SIZE], toks[n];
            Tallied(rfreq[bt := rfreq[bt][v := rfreq[bt][v] + 1]], nGroups, alphaSize, toks, sel, n + 1)
  {
    hide Sum;
    var bt, v := sel[n / G_SIZE], toks[n];
    SumPlusOne(rfreq[bt], alphaSize, v);
  }

  lemma TalliedExtend(rfreq: seq<seq<int>>, nGroups: nat, alphaSize: nat, toks: seq<int>, sel: seq<int>, x: int, n: nat)
    requires n <= |toks| && n <= G_SIZE * |sel| && Tallied(rfreq, nGroups, alphaSize, toks, sel, n)
    ensures Tallied(rfreq, nGroups, alphaSize, toks, sel + [x], n)
  {
    forall t, v | 0 <= t < nGroups && 0 <= v < alphaSize ensures rfreq[t][v] == Uses(toks, sel + [x], n, t, v) {
      UsesExtend(toks, sel, x, n, t, v);
    }
  }

  /** One pass over the block: every group selects its cheapest table, and the symbols coded
      with each table are counted. */
  method SelectPass(mtfv: seq<int>, lens: seq<seq<int>>, alphaSize: nat) returns (selector: seq<int>, rfreq: seq<seq<int>>)
    requires Tables6(lens, alphaSize) && |lens| > 0 && InAlphabet(mtfv, alphaSize) && |mtfv| > 0
    ensures |selector| == (|mtfv| + G_SIZE - 1) / G_SIZE
    ensures forall g :: 0 <= g < |selector| ==> Cheapest(lens, alphaSize, mtfv, g, selector[g])
    ensures Tallied(rfreq, |lens|, alphaSize, mtfv, selector, |mtfv|)
  {
    hide Tallied, Cost;
    selector := [];
    rfreq := seq(|lens|, _ => seq(alphaSize, _ => 0));
    NoneTallied(rfreq, |lens|, alphaSize, mtfv);
    var gs := 0;
    while gs < |mtfv|
      invariant gs == GroupStart(|selector|, |mtfv|) && (gs < |mtfv| ==> gs == G_SIZE * |selector|)
      invariant |selector| <= (|mtfv| + G_SIZE - 1) / G_SIZE
      invariant forall g :: 0 <= g < |selector| ==> G_SIZE * g < |mtfv| && Cheapest(lens, alphaSize, mtfv, g, selector[g])
      invariant gs <= G_SIZE * |selector| && Tallied(rfreq, |lens|, alphaSize, mtfv, selector, gs)
      decreases |mtfv| - gs
    {
      var ge := gs + G_SIZE - 1;
      if ge >= |mtfv| { ge := |mtfv| - 1; }
      var cost := GroupCosts(mtfv, lens, gs, ge + 1, alphaSize);
      CostsSmall(lens, mtfv, gs, ge + 1, alphaSize, cost);
      var bt := BestTable(cost);
      TalliedExtend(rfreq, |lens|, alphaSize, mtfv, selector, bt, gs);
      selector := selector + [bt];
      rfreq := CountGroup(mtfv, rfreq, bt, gs, ge + 1, |lens|, alphaSize, selector);
      gs := ge + 1;
    }
  }

  function GroupStart(g: nat, nMTF: nat): nat {
    if G_SIZE * g <= nMTF then G_SIZE * g else nMTF
  }

  lemma NoneTallied(rfreq: seq<seq<int>>, nGroups: nat, alphaSize: nat, toks: seq<int>)
    requires |rfreq| == nGroups && forall t :: 0 <= t < nGroups ==> rfreq[t] == seq(alphaSize, _ => 0)
    ensures Tallied(rfreq, nGroups, alphaSize, toks, [], 0)
  {
    SumZero(seq(alphaSize, _ => 0), alphaSize);
  }

  lemma CostsSmall(lens: seq<seq<int>>, toks: seq<int>, gs: nat, ge: nat, alphaSize: nat, cost: seq<int>)
    requires Tables6(lens, alphaSize) && InAlphabet(toks, alphaSize) && gs <= ge <= |toks| && ge - gs <= G_SIZE
    requires |cost| == |lens| && forall t :: 0 <= t < |lens| ==> cost[t] == Cost(lens[t], toks, gs, ge)
    ensures forall t :: 0 <= t < |cost| ==> cost[t] < 999999999
  {
    forall t | 0 <= t < |cost| ensures cost[t] < 999999999 { CostBound(lens[t], toks, gs, ge); }
  }

  method CountGroup(mtfv: seq<int>, rfreq: seq<seq<int>>, bt: nat, gs: nat, ge: nat, ghost nGroups: nat,
                    ghost alphaSize: nat, ghost sel: seq<int>)
    returns (r: seq<seq<int>>)
    requires gs <= ge <= |mtfv| && ge <= G_SIZE * |sel| && InAlphabet(mtfv, alphaSize) && bt < nGroups
    requires forall i :: gs <= i < ge ==> sel[i / G_SIZE] == bt
    requires Tallied(rfreq, nGroups, alphaSize, mtfv, sel, gs)
    ensures Tallied(r, nGroups, alphaSize, mtfv, sel, ge)
  {
    hide Tallied;
    r := rfreq;
    for i := gs to ge
      invariant Tallied(r, nGroups, alphaSize, mtfv, sel, i)
    {
      TalliedStep(r, nGroups, alphaSize, mtfv, sel, i);
      TalliedSizes(r, nGroups, alphaSize, mtfv, sel, i);
      r := r[bt := r[bt][mtfv[i] := r[bt][mtfv[i]] + 1]];
    }
  }

  lemma TalliedSizes(rfreq: seq<seq<int>>, nGroups: nat, alphaSize: nat, toks: seq<int>, sel: seq<int>, n: nat)
    requires n <= |toks| && n <= G_SIZE * |sel| && Tallied(rfreq, nGroups, alphaSize, toks, sel, n)
    ensures |rfreq| == nGroups && forall t :: 0 <= t < nGroups ==> |rfreq[t]| == alphaSize
  {
  }

  // ---------------------------------------------------------------- the initial tables

  lemma {:induction false} SumGrows(s: seq<int>, i: nat, j: nat)
    requires i <= j <= |s| && forall k :: 0 <= k < |s| ==> s[k] >= 0
    ensures Sum(s, i) <= Sum(s, j)
    decreases j
  {
    if i < j { SumGrows(s, i, j - 1); }
  }

  /** Take symbols from gs on until they make up tFreq of the total. */
  method TakeSymbols(freq: seq<int>, gs: int, alphaSize: nat, tFreq: int) returns (ge: int, aFreq: int)
    requires 0 <= gs < alphaSize <= |freq| && forall k :: 0 <= k < |freq| ==> freq[k] >= 0
    ensures gs - 1 <= ge < alphaSize && aFreq == Sum(freq, ge + 1) - Sum(freq, gs)
    ensures aFreq >= tFreq || ge == alphaSize - 1
    ensures ge >= gs ==> Sum(freq, ge) - Sum(freq, gs) < tFreq
  {
    ge := gs - 1;
    aFreq := 0;
    while aFreq < tFreq && ge < alphaSize - 1
      invariant gs - 1 <= ge < alphaSize && aFreq == Sum(freq, ge + 1) - Sum(freq, gs)
      invariant ge >= gs ==> Sum(freq, ge) - Sum(freq, gs) < tFreq
      decreases alphaSize - ge
    {
      ge := ge + 1;
      aFreq := aFreq + freq[ge];
    }
  }

  /** The initial cost of symbol v in table t. */
  function InitialCost(owner: seq<int>, t: int, v: nat): int {
    if v < |owner| && owner[v] == t then LESSER_ICOST else GREATER_ICOST
  }

  /** Each symbol below gs is cheap in exactly one of the tables from nPart on. */
  ghost predicate Owned(lens: seq<seq<int>>, owner: seq<int>, nPart: nat, nGroups: nat, gs: int, alphaSize: nat) {
    && nPart <= nGroups == |lens| && 0 <= gs <= alphaSize && |owner| == gs
    && (forall v :: 0 <= v < gs ==> nPart <= owner[v] < nGroups)
    && (forall t :: 0 <= t < nGroups ==> |lens[t]| == alphaSize)
    && (forall t, v :: nPart <= t < nGroups && 0 <= v < alphaSize ==>
          lens[t][v] == InitialCost(owner, t, v))
    && (forall t, v :: 0 <= t < nPart && 0 <= v < alphaSize ==> lens[t][v] == GREATER_ICOST)
  }

  ghost function Owners(owner: seq<int>, ge: int, t: int): (o: seq<int>)
    requires |owner| <= ge + 1
    ensures |o| == ge + 1
    ensures forall v :: 0 <= v <= ge ==> o[v] == if v < |owner| then owner[v] else t
  {
    seq(ge + 1, v requires 0 <= v <= ge => if v < |owner| then owner[v] else t)
  }

  method MarkRange(gs: int, ge: int, alphaSize: nat) returns (len: seq<int>)
    requires 0 <= gs <= ge + 1 <= alphaSize
    ensures |len| == alphaSize
    ensures forall v :: 0 <= v < alphaSize ==> len[v] == if gs <= v <= ge then LESSER_ICOST else GREATER_ICOST
  {
    len := [];
    for v := 0 to alphaSize
      invariant |len| == v
      invariant forall k :: 0 <= k < v ==> len[k] == if gs <= k <= ge then LESSER_ICOST else GREATER_ICOST
    {
      len := len + [if v >= gs && v <= ge then LESSER_ICOST else GREATER_ICOST];
    }
  }

  /** The end of the next range: it may give back its last symbol, but never reaches the
      end-of-block token before the last range, which takes all that is left. */
  method NextRange(freq: seq<int>, gs: int, alphaSize: nat, nPart: nat, nGroups: nat, remF: int)
    returns (ge: int, aFreq: int)
    requires 1 <= nPart <= nGroups && 0 <= gs < alphaSize <= |freq| && forall k :: 0 <= k < |freq| ==> freq[k] >= 0
    requires remF == Sum(freq, alphaSize) - Sum(freq, gs) && freq[alphaSize - 1] == 1
    ensures gs - 1 <= ge < alphaSize && aFreq == Sum(freq, ge + 1) - Sum(freq, gs)
    ensures nPart > 1 ==> ge < alphaSize - 1
    ensures nPart == 1 ==> ge == alphaSize - 1
  {
    SumGrows(freq, gs, alphaSize - 1);
    var tFreq := remF / nPart;
    ge, aFreq := TakeSymbols(freq, gs, alphaSize, tFreq);
    if nPart == 1 {
      if ge < alphaSize - 1 { SumGrows(freq, ge + 1, alphaSize - 1); }
    } else {
      Share(remF, nPart);
    }
    if ge > gs && nPart != nGroups && nPart != 1 && (nGroups - nPart) % 2 == 1 {
      aFreq := aFreq - freq[ge];
      ge := ge - 1;
    }
  }

  lemma Share(remF: int, nPart: int)
    requires remF >= 1 && nPart >= 2
    ensures remF / nPart <= remF - 1
  {
    if remF / nPart > remF - 1 {
      assert remF == (remF / nPart) * nPart + remF % nPart;
      Bits.MulDifference(remF / nPart, remF - 1, nPart);
      assert remF / nPart >= remF;
      if remF / nPart > remF { Bits.MulAtLeast(remF / nPart - remF, nPart); Bits.MulDifference(remF / nPart, remF, nPart); }
      assert remF * nPart >= remF * 2 by { Twice(remF, nPart); }
    }
  }

  lemma Twice(a: int, b: int)
    requires a >= 0 && b >= 2
    ensures a * b >= a * 2
  {
  }

  /** The initial coding tables split the alphabet into ranges of about equal frequency: every
      symbol is cheap in exactly one table. */
  method InitialTables(freq: seq<int>, nMTF: nat, nGroups: nat, alphaSize: nat)
    returns (lens: seq<seq<int>>, ghost owner: seq<int>)
    requires 1 <= nGroups <= 6 && 1 <= alphaSize <= |freq| && forall k :: 0 <= k < |freq| ==> freq[k] >= 0
    requires nMTF == Sum(freq, alphaSize) && freq[alphaSize - 1] == 1
    ensures Owned(lens, owner, 0, nGroups, alphaSize, alphaSize)
  {
    lens := seq(nGroups, _ => seq(alphaSize, _ => GREATER_ICOST));
    owner := [];
    var nPart, remF, gs := nGroups, nMTF, 0;
    while nPart > 0
      invariant 0 <= nPart <= nGroups && Owned(lens, owner, nPart, nGroups, gs, alphaSize)
      invariant if nPart > 0 then gs < alphaSize else gs == alphaSize
      invariant remF == Sum(freq, alphaSize) - Sum(freq, gs)
    {
      var ge, aFreq := NextRange(freq, gs, alphaSize, nPart, nGroups, remF);
      var len := MarkRange(gs, ge, alphaSize);
      OwnNext(lens, owner, nPart, nGroups, gs, ge, alphaSize, len);
      lens := lens[nPart - 1 := len];
      owner := Owners(owner, ge, nPart - 1);
      nPart := nPart - 1;
      gs := ge + 1;
      remF := remF - aFreq;
    }
  }

  lemma OwnNext(lens: seq<seq<int>>, owner: seq<int>, nPart: nat, nGroups: nat, gs: int, ge: int, alphaSize: nat, len: seq<int>)
    requires 1 <= nPart <= nGroups && Owned(lens, owner, nPart, nGroups, gs, alphaSize) && gs <= ge + 1 <= alphaSize
    requires |len| == alphaSize
    requires forall v :: 0 <= v < alphaSize ==> len[v] == if gs <= v <= ge then LESSER_ICOST else GREATER_ICOST
    ensures Owned(lens[nPart - 1 := len], Owners(owner, ge, nPart - 1), nPart - 1, nGroups, ge + 1, alphaSize)
  {
    var l, o := lens[nPart - 1 := len], Owners(owner, ge, nPart - 1);
    forall t, v | nPart - 1 <= t < nGroups && 0 <= v < alphaSize ensures l[t][v] == InitialCost(o, t, v) {
      if t != nPart - 1 { assert lens[t][v] == InitialCost(owner, t, v); }
    }
    forall t, v | 0 <= t < nPart - 1 && 0 <= v < alphaSize ensures l[t][v] == GREATER_ICOST {
      assert l[t][v] == lens[t][v];
    }
  }

  // ---------------------------------------------------------------- frequencies add up

  ghost function CountSum(toks: seq<int>, i: nat, n: nat): int
    requires i <= |toks|
  {
    if n == 0 then 0 else CountSum(toks, i, n - 1) + CountEq(toks, i, n - 1)
  }

  lemma {:induction false} CountSumStep(toks: seq<int>, i: nat, n: nat)
    requires i < |toks| && 0 <= toks[i]
    ensures CountSum(toks, i + 1, n) == CountSum(toks, i, n) + if toks[i] < n then 1 else 0
  {
    if n > 0 { CountSumStep(toks, i, n - 1); }
  }

  lemma {:induction false} CountSumNone(toks: seq<int>, n: nat)
    ensures CountSum(toks, 0, n) == 0
  {
    if n > 0 { CountSumNone(toks, n - 1); }
  }

  lemma {:induction false} CountSumAll(toks: seq<int>, i: nat, n: nat)
    requires i <= |toks| && InAlphabet(toks, n)
    ensures CountSum(toks, i, n) == i
  {
    if i == 0 {
      CountSumNone(toks, n);
    } else {
      CountSumAll(toks, i - 1, n);
      CountSumStep(toks, i - 1, n);
    }
  }

  lemma {:induction false} SumIsCountSum(freq: seq<int>, toks: seq<int>, i: nat)
    requires i <= |freq| && forall t :: 0 <= t < i ==> freq[t] == CountEq(toks, |toks|, t)
    ensures Sum(freq, i) == CountSum(toks, |toks|, i)
  {
    if i > 0 { SumIsCountSum(freq, toks, i - 1); }
  }

  /** Tokens of a block: all in the alphabet, and only the last is the end-of-block token. */
  ghost predicate BlockTokens(toks: seq<int>, alphaSize: nat) {
    && |toks| > 0 && alphaSize >= 3 && toks[|toks| - 1] == alphaSize - 1
    && (forall k :: 0 <= k < |toks| - 1 ==> 0 <= toks[k] < alphaSize - 1)
  }

  lemma {:induction false} LastOnce(toks: seq<int>, alphaSize: nat, i: nat)
    requires BlockTokens(toks, alphaSize) && i <= |toks|
    ensures CountEq(toks, i, alphaSize - 1) == if i == |toks| then 1 else 0
  {
    if i > 0 { LastOnce(toks, alphaSize, i - 1); }
  }

  lemma FrequenciesAddUp(freq: seq<int>, toks: seq<int>, alphaSize: nat)
    requires Counted(freq, toks, alphaSize) && BlockTokens(toks, alphaSize)
    ensures Sum(freq[..alphaSize], alphaSize) == |toks| && freq[alphaSize - 1] == 1
    ensures forall v :: 0 <= v < alphaSize ==> freq[v] >= 0
  {
    LastOnce(toks, alphaSize, |toks|);
    SumIsCountSum(freq[..alphaSize], toks, alphaSize);
    CountSumAll(toks, |toks|, alphaSize);
  }

  // ---------------------------------------------------------------- the tables

  ghost predicate CompleteTables(lens: seq<seq<int>>, alphaSize: nat) {
    forall t :: 0 <= t < |lens| ==>
      |lens[t]| == alphaSize && Lengths(lens[t], 1, 17) && Kraft(lens[t], alphaSize, 17) == Bits.Pow2(17)
  }

  /** len is the best code for these counts, flattened only as often as the best code before was
      too long. */
  ghost predicate Fitted(freq: seq<int>, len: seq<int>) {
    exists rounds: nat :: FittedAfter(freq, len, rounds)
  }

  ghost predicate FittedAfter(freq: seq<int>, len: seq<int>, rounds: nat) {
    CodeOptimal.Optimal(Rescaled(Leaves(freq), rounds), len) && ForcedRounds(Leaves(freq), rounds, 17)
  }

  /** How often each symbol occurs in the groups coded with table t. */
  ghost function CountsOf(toks: seq<int>, sel: seq<int>, t: int, alphaSize: nat): (c: seq<int>)
    requires |toks| <= G_SIZE * |sel|
    ensures |c| == alphaSize
  {
    seq(alphaSize, v requires 0 <= v < alphaSize => Uses(toks, sel, |toks|, t, v))
  }

  /** Each table is made for the symbols that have just been coded with it. */
  ghost predicate AllFitted(lens: seq<seq<int>>, toks: seq<int>, sel: seq<int>, alphaSize: nat)
    requires |toks| <= G_SIZE * |sel|
  {
    forall t :: 0 <= t < |lens| ==> Fitted(CountsOf(toks, sel, t, alphaSize), lens[t])
  }

  lemma TalliedCounts(rfreq: seq<seq<int>>, alphaSize: nat, toks: seq<int>, sel: seq<int>, t: nat)
    requires |toks| <= G_SIZE * |sel| && Tallied(rfreq, |rfreq|, alphaSize, toks, sel, |toks|) && t < |rfreq|
    ensures rfreq[t] == CountsOf(toks, sel, t, alphaSize)
  {
    hide Sum, Uses;
  }

  /** A choice of tables: what each group selects, and the tables made after that. */
  datatype Choice = Choice(sel: seq<int>, lens: seq<seq<int>>)

  /** One round: each group selects a table that is cheapest for it, then each table is made
      anew. */
  ghost predicate Follows(before: seq<seq<int>>, c: Choice, toks: seq<int>, alphaSize: nat) {
    && Tables6(before, alphaSize) && InAlphabet(toks, alphaSize) && |c.lens| == |before|
    && |c.sel| == (|toks| + G_SIZE - 1) / G_SIZE && |toks| <= G_SIZE * |c.sel|
    && (forall g :: 0 <= g < |c.sel| ==> G_SIZE * g < |toks| && Cheapest(before, alphaSize, toks, g, c.sel[g]))
    && AllFitted(c.lens, toks, c.sel, alphaSize)
  }

  ghost predicate Ranged(lens: seq<seq<int>>, alphaSize: nat) {
    exists owner :: Owned(lens, owner, 0, |lens|, alphaSize, alphaSize)
  }

  /** n rounds, from tables in which every symbol is cheap in exactly one. */
  ghost predicate Rounds(trail: seq<Choice>, n: nat, toks: seq<int>, alphaSize: nat) {
    && |trail| == n + 1
    && Ranged(trail[0].lens, alphaSize)
    && forall i :: 1 <= i <= n ==> Follows(trail[i - 1].lens, trail[i], toks, alphaSize)
  }

  /** The tables and selectors of a block are those after four rounds. */
  ghost predicate Chosen(sel: seq<int>, lens: seq<seq<int>>, toks: seq<int>, alphaSize: nat) {
    exists trail :: Rounds(trail, 4, toks, alphaSize) && trail[4] == Choice(sel, lens)
  }

  lemma RoundMore(trail: seq<Choice>, n: nat, toks: seq<int>, alphaSize: nat, c: Choice)
    requires Rounds(trail, n, toks, alphaSize) && Follows(trail[n].lens, c, toks, alphaSize)
    ensures Rounds(trail + [c], n + 1, toks, alphaSize)
  {
    hide Ranged, Follows;
    var t := trail + [c];
    assert t[0] == trail[0];
    forall i | 1 <= i <= n + 1 ensures Follows(t[i - 1].lens, t[i], toks, alphaSize) {
      if i <= n { assert t[i] == trail[i] && t[i - 1] == trail[i - 1]; }
    }
  }

  /** New code lengths from the counts of one table. */
  method LengthsFor(freq: seq<int>) returns (len: seq<int>)
    requires 3 <= |freq| <= MAX_ALPHA_SIZE && forall v :: 0 <= v < |freq| ==> freq[v] >= 0
    requires Sum(freq, |freq|) <= 900001
    ensures |len| == |freq| && Lengths(len, 1, 17) && Kraft(len, |len|, 17) == Bits.Pow2(17)
    ensures Fitted(freq, len)
  {
    LeavesTotal(freq, |freq|);
    hide Kraft, Sum, Total, Bits.Pow2, CodeOptimal.Optimal, ForcedRounds, Rescaled;
    var f := new int[|freq|](i requires 0 <= i < |freq| => freq[i]);
    var l := new int[|freq|];
    assert f[..|freq|] == freq;
    ghost var rounds := HbMakeCodeLengths(l, f, |freq|, 17);
    len := l[..];
    assert l[..|freq|] == len;
    assert FittedAfter(freq, len, rounds);
  }

  /** New code lengths for every table, from how often it has just coded each symbol. */
  method RebuildTables(rfreq: seq<seq<int>>, alphaSize: nat, ghost toks: seq<int>, ghost sel: seq<int>)
    returns (lens: seq<seq<int>>)
    requires 3 <= alphaSize <= MAX_ALPHA_SIZE && |toks| <= 900001 && |toks| <= G_SIZE * |sel|
    requires Tallied(rfreq, |rfreq|, alphaSize, toks, sel, |toks|)
    ensures |lens| == |rfreq| && CompleteTables(lens, alphaSize) && AllFitted(lens, toks, sel, alphaSize)
  {
    hide Kraft, Sum, Bits.Pow2, Uses, Fitted, CountsOf;
    lens := [];
    for t := 0 to |rfreq|
      invariant |lens| == t && CompleteTables(lens, alphaSize) && AllFitted(lens, toks, sel, alphaSize)
    {
      TalliedCounts(rfreq, alphaSize, toks, sel, t);
      var len := LengthsFor(rfreq[t]);
      lens := lens + [len];
    }
  }

  /** Four rounds of selecting tables and rebuilding them. */
  method ChooseTables(mtfv: seq<int>, mtfFreq: seq<int>, alphaSize: nat)
    returns (selector: seq<int>, lens: seq<seq<int>>)
    requires BlockTokens(mtfv, alphaSize) && Counted(mtfFreq, mtfv, alphaSize) && |mtfv| <= 900001
    ensures 2 <= |lens| <= 6 && CompleteTables(lens, alphaSize)
    ensures |selector| == (|mtfv| + G_SIZE - 1) / G_SIZE
    ensures forall g :: 0 <= g < |selector| ==> 0 <= selector[g] < |lens|
    ensures Chosen(selector, lens, mtfv, alphaSize)
  {
    hide Kraft, Sum, Bits.Pow2, Tallied, Cost, CompleteTables, Owned, AllFitted, Rounds;
    var nGroups := GroupCount(|mtfv|);
    FrequenciesAddUp(mtfFreq, mtfv, alphaSize);
    ghost var owner;
    lens, owner := InitialTables(mtfFreq[..alphaSize], |mtfv|, nGroups, alphaSize);
    OwnedAreSmall(lens, owner, nGroups, alphaSize);
    selector := [];
    ghost var trail := [Choice(selector, lens)];
    NoRound(lens, owner, nGroups, mtfv, alphaSize);
    for iter := 0 to 4
      invariant |lens| == nGroups && Tables6(lens, alphaSize)
      invariant |trail| == iter + 1 && Rounds(trail, iter, mtfv, alphaSize) && trail[iter] == Choice(selector, lens)
      invariant iter > 0 ==> CompleteTables(lens, alphaSize)
      invariant iter > 0 ==> |selector| == (|mtfv| + G_SIZE - 1) / G_SIZE
      invariant iter > 0 ==> forall g :: 0 <= g < |selector| ==> 0 <= selector[g] < nGroups
    {
      var rfreq;
      selector, rfreq := SelectPass(mtfv, lens, alphaSize);
      TalliedSizes(rfreq, nGroups, alphaSize, mtfv, selector, |mtfv|);
      lens := RebuildTables(rfreq, alphaSize, mtfv, selector);
      CompleteAreSmall(lens, alphaSize);
      RoundMore(trail, iter, mtfv, alphaSize, Choice(selector, lens));
      trail := trail + [Choice(selector, lens)];
    }
  }

  lemma NoRound(lens: seq<seq<int>>, owner: seq<int>, nGroups: nat, toks: seq<int>, alphaSize: nat)
    requires Owned(lens, owner, 0, nGroups, alphaSize, alphaSize)
    ensures Rounds([Choice([], lens)], 0, toks, alphaSize)
  {
    assert Owned(lens, owner, 0, |lens|, alphaSize, alphaSize);
    assert Ranged(lens, alphaSize);
  }

  lemma OwnedAreSmall(lens: seq<seq<int>>, owner: seq<int>, nGroups: nat, alphaSize: nat)
    requires Owned(lens, owner, 0, nGroups, alphaSize, alphaSize) && nGroups <= 6 && alphaSize <= MAX_ALPHA_SIZE
    ensures Tables6(lens, alphaSize)
  {
    forall t, v | 0 <= t < |lens| && 0 <= v < alphaSize ensures 0 <= lens[t][v] <= 20 {
      assert lens[t][v] == InitialCost(owner, t, v);
    }
  }

  lemma CompleteAreSmall(lens: seq<seq<int>>, alphaSize: nat)
    requires CompleteTables(lens, alphaSize) && |lens| <= 6 && alphaSize <= MAX_ALPHA_SIZE
    ensures Tables6(lens, alphaSize)
  {
    hide Kraft, Bits.Pow2;
  }
}
