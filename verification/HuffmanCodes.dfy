/** Canonical Huffman codes in bzip2 (huffman.c, decompress.c): the codes the encoder assigns,
    the limit/base/perm tables of the decoder, and the decoding loop of GET_MTF_VAL. */
module HuffmanCodes {
  import opened Bits
  import opened Counting
  import opened InverseTransform

  const MAX_ALPHA_SIZE := 258
  const MAX_CODE_LEN := 23

  /** The first code of length n. */
  ghost function First(lens: seq<int>, n: nat): nat {
    if n == 0 then 0 else 2 * (First(lens, n - 1) + CountEq(lens, |lens|, n - 1))
  }

  /** The code of symbol i: codes of one length are consecutive, in symbol order. */
  ghost function Code(lens: seq<int>, i: nat): nat
    requires i < |lens| && lens[i] >= 0
  {
    First(lens, lens[i]) + CountEq(lens, i, lens[i])
  }

  ghost predicate Lengths(lens: seq<int>, lo: nat, hi: nat) {
    && 0 < |lens| <= MAX_ALPHA_SIZE
    && forall i :: 0 <= i < |lens| ==> lo <= lens[i] <= hi
  }

  /** The codes of each length fit in that many bits. */
  ghost predicate Fits(lens: seq<int>, max: nat) {
    forall n :: 0 <= n <= max ==> First(lens, n) + CountEq(lens, |lens|, n) <= Pow2(n)
  }

  // ---------------------------------------------------------------- the Kraft sum

  /** The sum of 2^(max - length): no more than 2^max for any code that can be decoded. */
  ghost function Kraft(lens: seq<int>, k: nat, max: nat): nat
    requires k <= |lens| && forall i :: 0 <= i < k ==> 0 <= lens[i] <= max
  {
    if k == 0 then 0 else Kraft(lens, k - 1, max) + Pow2(max - lens[k - 1])
  }

  /** The same sum restricted to lengths up to n, in units of 2^-n. */
  ghost function Partial(lens: seq<int>, k: nat, n: nat): nat
    requires k <= |lens| && forall i :: 0 <= i < k ==> 0 <= lens[i]
  {
    if k == 0 then 0 else Partial(lens, k - 1, n) + if lens[k - 1] <= n then Pow2(n - lens[k - 1]) else 0
  }

  lemma {:induction false} PartialStep(lens: seq<int>, k: nat, n: nat)
    requires k <= |lens| && forall i :: 0 <= i < k ==> 0 <= lens[i]
    ensures Partial(lens, k, n + 1) == 2 * Partial(lens, k, n) + CountEq(lens, k, n + 1)
  {
    if k > 0 { PartialStep(lens, k - 1, n); }
  }

  lemma {:induction false} PartialAtZero(lens: seq<int>, k: nat)
    requires k <= |lens| && forall i :: 0 <= i < k ==> 0 <= lens[i]
    ensures Partial(lens, k, 0) == CountEq(lens, k, 0)
  {
    if k > 0 { PartialAtZero(lens, k - 1); }
  }

  /** The running total of assigned codes is the partial Kraft sum. */
  lemma {:induction false} FirstIsPartial(lens: seq<int>, n: nat)
    requires forall i :: 0 <= i < |lens| ==> 0 <= lens[i]
    ensures First(lens, n) + CountEq(lens, |lens|, n) == Partial(lens, |lens|, n)
  {
    if n == 0 {
      PartialAtZero(lens, |lens|);
    } else {
      FirstIsPartial(lens, n - 1);
      PartialStep(lens, |lens|, n - 1);
    }
  }

  lemma {:induction false} PartialBelowKraft(lens: seq<int>, k: nat, n: nat, max: nat)
    requires k <= |lens| && n <= max && forall i :: 0 <= i < k ==> 0 <= lens[i] <= max
    ensures Partial(lens, k, n) * Pow2(max - n) <= Kraft(lens, k, max)
    ensures n == max ==> Partial(lens, k, n) == Kraft(lens, k, max)
  {
    if k > 0 {
      PartialBelowKraft(lens, k - 1, n, max);
      var m := lens[k - 1];
      if m <= n {
        Pow2Sum(n - m, max - n);
        Distribute(Partial(lens, k - 1, n), Pow2(n - m), Pow2(max - n));
      }
    }
  }

  lemma Distribute(a: nat, b: nat, c: nat)
    ensures (a + b) * c == a * c + b * c
  {
  }

  lemma CancelFactor(a: nat, b: nat, p: nat)
    requires p >= 1 && a * p <= b * p
    ensures a <= b
  {
    if a > b { MulAtLeast(a - b, p); MulDifference(a, b, p); }
  }

  /** Codes fit exactly when the Kraft sum is at most one. */
  lemma FitsIffKraft(lens: seq<int>, max: nat)
    requires forall i :: 0 <= i < |lens| ==> 0 <= lens[i] <= max
    ensures Fits(lens, max) <==> Kraft(lens, |lens|, max) <= Pow2(max)
  {
    hide First, CountEq, Partial, Kraft, Pow2;
    FirstIsPartial(lens, max);
    PartialBelowKraft(lens, |lens|, max, max);
    if Kraft(lens, |lens|, max) <= Pow2(max) {
      forall n: nat | n <= max ensures First(lens, n) + CountEq(lens, |lens|, n) <= Pow2(n) {
        FirstIsPartial(lens, n);
        PartialBelowKraft(lens, |lens|, n, max);
        Pow2Sum(n, max - n);
        CancelFactor(Partial(lens, |lens|, n), Pow2(n), Pow2(max - n));
      }
    }
  }

  // ---------------------------------------------------------------- the codes

  lemma CodeInRange(lens: seq<int>, i: nat)
    requires i < |lens| && lens[i] >= 0
    ensures First(lens, lens[i]) <= Code(lens, i) < First(lens, lens[i]) + CountEq(lens, |lens|, lens[i])
  {
    CountEqGrows(lens, i, |lens|, lens[i]);
  }

  /** Codes longer than n start above every code of length n. */
  lemma {:induction false} FirstDominates(lens: seq<int>, n: nat, m: nat)
    requires n < m
    ensures (First(lens, n) + CountEq(lens, |lens|, n)) * Pow2(m - n) <= First(lens, m)
    decreases m
  {
    var top := First(lens, n) + CountEq(lens, |lens|, n);
    if m == n + 1 {
      assert Pow2(1) == 2;
    } else {
      FirstDominates(lens, n, m - 1);
      assert Pow2(m - n) == 2 * Pow2(m - 1 - n);
      assert top * (2 * Pow2(m - 1 - n)) == 2 * (top * Pow2(m - 1 - n)) by { Doubled(top, Pow2(m - 1 - n), 0, 0); }
    }
  }

  lemma QuotientAtLeast(a: nat, p: nat, c: nat)
    requires p >= 1 && a * p <= c
    ensures a <= c / p
  {
    var q, r := c / p, c % p;
    assert c == q * p + r;
    if a > q { MulDifference(a, q, p); MulAtLeast(a - q, p); }
  }

  /** The first n bits of a longer code exceed every code of length n. */
  lemma PrefixAbove(lens: seq<int>, i: nat, n: nat)
    requires i < |lens| && n < lens[i]
    ensures First(lens, n) + CountEq(lens, |lens|, n) <= Code(lens, i) / Pow2(lens[i] - n)
  {
    FirstDominates(lens, n, lens[i]);
    QuotientAtLeast(First(lens, n) + CountEq(lens, |lens|, n), Pow2(lens[i] - n), Code(lens, i));
  }

  ghost function CodeBits(lens: seq<int>, i: nat): (c: seq<bool>)
    requires i < |lens| && lens[i] >= 0
    ensures |c| == lens[i]
  {
    BitsOf(Code(lens, i), lens[i])
  }

  /** The number the first n bits of a code spell. */
  lemma CodePrefix(lens: seq<int>, i: nat, n: nat)
    requires i < |lens| && n <= lens[i] && Code(lens, i) < Pow2(lens[i])
    ensures Val(CodeBits(lens, i)[..n]) == Code(lens, i) / Pow2(lens[i] - n)
  {
    hide Code, Val, BitsOf, Pow2;
    LeadingBits(Code(lens, i), lens[i], n);
    LeadingFits(Code(lens, i), lens[i], n);
    ValOfBits(Code(lens, i) / Pow2(lens[i] - n), n);
  }

  lemma WholeCode(lens: seq<int>, i: nat)
    requires i < |lens| && 0 <= lens[i] && Code(lens, i) < Pow2(lens[i])
    ensures Val(CodeBits(lens, i)) == Code(lens, i)
  {
    hide Code, Val, BitsOf;
    ValOfBits(Code(lens, i), lens[i]);
  }

  lemma CodeFits(lens: seq<int>, i: nat, max: nat)
    requires i < |lens| && 0 <= lens[i] <= max && Fits(lens, max)
    ensures Code(lens, i) < Pow2(lens[i])
  {
    hide First, CountEq, Pow2;
    CodeInRange(lens, i);
    assert First(lens, lens[i]) + CountEq(lens, |lens|, lens[i]) <= Pow2(lens[i]);
  }

  /** No code is a prefix of another. */
  lemma PrefixFree(lens: seq<int>, i: nat, j: nat, max: nat)
    requires i < |lens| && j < |lens| && i != j
    requires 0 <= lens[i] <= lens[j] <= max && Fits(lens, max)
    ensures !(CodeBits(lens, i) <= CodeBits(lens, j))
  {
    hide First, CountEq, Pow2, Val, BitsOf;
    hide Fits;
    var n, m := lens[i], lens[j];
    assert CodeBits(lens, i) <= CodeBits(lens, j) ==> CodeBits(lens, j)[..n] == CodeBits(lens, i);
    CodeFits(lens, i, max);
    CodeFits(lens, j, max);
    WholeCode(lens, i);
    CodePrefix(lens, j, n);
    if n < m {
      PrefixAbove(lens, j, n);
      CodeInRange(lens, i);
    } else {
      WholeCode(lens, j);
      CountEqGrows(lens, if i < j then i else j, if i < j then j else i, n);
      assert CodeBits(lens, j)[..n] == CodeBits(lens, j);
    }
  }

  lemma LeadingFits(c: nat, m: nat, n: nat)
    requires n <= m && c < Pow2(m)
    ensures c / Pow2(m - n) < Pow2(n)
  {
    Pow2Sum(n, m - n);
    if Pow2(n) <= c / Pow2(m - n) {
      var p, q := Pow2(m - n), c / Pow2(m - n);
      assert c == q * p + c % p;
      MulDifference(q, Pow2(n), p);
      if q > Pow2(n) { MulAtLeast(q - Pow2(n), p); }
    }
  }

  // ---------------------------------------------------------------- decoding

  /** What a reader of bits can answer: a value and the bits left, too few bits, an error, or
      that the program would write beyond its arrays. */
  datatype Parse<+T> = Got(value: T, rest: seq<bool>) | Short | Bad | Beyond

  /** Canonical decoding with n bits read as zvec: stop at the first length whose codes reach
      up to zvec; no code is longer than 20 bits. */
  ghost function Symbol(lens: seq<int>, n: nat, zvec: nat, bits: seq<bool>): (p: Parse<int>)
    requires First(lens, n) <= zvec
    ensures p != Beyond && (p.Got? ==> 0 <= p.value < |lens| && |p.rest| <= |bits|)
    decreases if n > 20 then 0 else 21 - n
  {
    if n > 20 then Bad
    else if zvec < First(lens, n) + CountEq(lens, |lens|, n) then
      CountsStep(lens, |lens|, n);
      Got(Link(lens, CountLt(lens, |lens|, n) + zvec - First(lens, n)), bits)
    else if |bits| == 0 then Short
    else Symbol(lens, n + 1, 2 * zvec + Bit(bits[0]), bits[1..])
  }

  lemma FirstNext(lens: seq<int>, n: nat)
    ensures First(lens, 0) == 0
    ensures First(lens, n + 1) == 2 * (First(lens, n) + CountEq(lens, |lens|, n))
  {
  }

  ghost function ReadSymbol(lens: seq<int>, bits: seq<bool>): (p: Parse<int>)
    ensures p != Beyond && (p.Got? ==> 0 <= p.value < |lens| && |p.rest| <= |bits|)
  {
    Symbol(lens, 0, 0, bits)
  }

  /** Fewer bits than the code of i has do not end the search. */
  lemma SymbolContinues(lens: seq<int>, i: nat, n: nat, rest: seq<bool>)
    requires i < |lens| && n < lens[i] <= 20 && Code(lens, i) < Pow2(lens[i])
    requires First(lens, n) <= Val(CodeBits(lens, i)[..n])
    ensures First(lens, n + 1) <= Val(CodeBits(lens, i)[..n + 1])
    ensures Symbol(lens, n, Val(CodeBits(lens, i)[..n]), CodeBits(lens, i)[n..] + rest)
         == Symbol(lens, n + 1, Val(CodeBits(lens, i)[..n + 1]), CodeBits(lens, i)[n + 1..] + rest)
  {
    hide First, CountEq, CountLt, Val, BitsOf, Pow2, Rank, Code, Link;
    var c := CodeBits(lens, i);
    CodePrefix(lens, i, n);
    PrefixAbove(lens, i, n);
    FirstNext(lens, n);
    ValSnoc(c[..n], c[n]);
    assert c[..n] + [c[n]] == c[..n + 1];
    assert (c[n..] + rest)[1..] == c[n + 1..] + rest;
  }

  lemma RankIs(lens: seq<int>, i: nat)
    requires i < |lens| && lens[i] >= 0
    ensures Rank(lens, i) == CountLt(lens, |lens|, lens[i]) + CountEq(lens, i, lens[i])
    ensures Code(lens, i) == First(lens, lens[i]) + CountEq(lens, i, lens[i])
  {
  }

  lemma SymbolEnds(lens: seq<int>, i: nat, rest: seq<bool>)
    requires i < |lens| && 0 <= lens[i] <= 20
    ensures First(lens, lens[i]) <= Code(lens, i)
    ensures Symbol(lens, lens[i], Code(lens, i), rest) == Got(i, rest)
  {
    hide First, CountEq, CountLt, Pow2, Rank, Code, Link;
    CodeInRange(lens, i);
    RankIs(lens, i);
    LinkOfRank(lens, i);
  }

  /** With n bits of the code of i read, the search goes on to find i. */
  lemma {:induction false} SymbolFound(lens: seq<int>, i: nat, n: nat, rest: seq<bool>)
    requires i < |lens| && n <= lens[i] <= 20 && Code(lens, i) < Pow2(lens[i])
    requires First(lens, n) <= Val(CodeBits(lens, i)[..n])
    ensures Symbol(lens, n, Val(CodeBits(lens, i)[..n]), CodeBits(lens, i)[n..] + rest) == Got(i, rest)
    decreases lens[i] - n
  {
    hide First, CountEq, CountLt, Val, BitsOf, Pow2, Rank, Code, Symbol, Link;
    var c := CodeBits(lens, i);
    if n == lens[i] {
      assert c[..n] == c && c[n..] + rest == rest;
      WholeCode(lens, i);
      SymbolEnds(lens, i, rest);
    } else {
      SymbolContinues(lens, i, n, rest);
      SymbolFound(lens, i, n + 1, rest);
    }
  }

  /** Canonical codes invert: the code of symbol i, whatever bits follow, is read back as i,
      and exactly its bits are consumed. */
  lemma SymbolReadBack(lens: seq<int>, i: nat, max: nat, rest: seq<bool>)
    requires i < |lens| && 0 <= lens[i] <= max <= 20 && Fits(lens, max)
    ensures ReadSymbol(lens, CodeBits(lens, i) + rest) == Got(i, rest)
  {
    hide CountEq, CountLt, BitsOf, Pow2, Rank, Code, Symbol, Link, Fits;
    CodeFits(lens, i, max);
    var c := CodeBits(lens, i);
    assert c[..0] == [] && c[0..] == c && Val([]) == 0;
    SymbolFound(lens, i, 0, rest);
  }

  // ---------------------------------------------------------------- the decoder's tables

  datatype Tables = Tables(minLen: nat, limit: seq<int>, base: seq<int>, perm: seq<int>)

  ghost predicate TableShape(t: Tables) {
    && 1 <= t.minLen <= 20
    && |t.limit| == MAX_ALPHA_SIZE && |t.base| == MAX_ALPHA_SIZE && |t.perm| == MAX_ALPHA_SIZE
  }

  /** The loop of GET_MTF_VAL with zn bits read as zvec. */
  ghost function Search(t: Tables, zn: nat, zvec: nat, bits: seq<bool>): Parse<int>
    requires TableShape(t)
    decreases if zn > 20 then 0 else 21 - zn
  {
    if zn > 20 then Bad
    else if zvec <= t.limit[zn] then
      var k := zvec - t.base[zn];
      if k < 0 || k >= MAX_ALPHA_SIZE then Bad else Got(t.perm[k], bits)
    else if |bits| == 0 then Short
    else Search(t, zn + 1, 2 * zvec + Bit(bits[0]), bits[1..])
  }

  ghost function GetSymbol(t: Tables, bits: seq<bool>): Parse<int>
    requires TableShape(t)
  {
    if |bits| < t.minLen then Short else Search(t, t.minLen, Val(bits[..t.minLen]), bits[t.minLen..])
  }

  /** The tables BZ2_hbCreateDecodeTables builds for lens. */
  ghost predicate TablesFor(t: Tables, lens: seq<int>, maxLen: nat) {
    && TableShape(t) && Lengths(lens, t.minLen, maxLen) && maxLen <= 20
    && (forall i :: 0 <= i < |lens| ==> Rank(lens, i) < MAX_ALPHA_SIZE && t.perm[Rank(lens, i)] == i)
    && (forall n :: t.minLen <= n <= maxLen ==>
          && t.limit[n] == First(lens, n) + CountEq(lens, |lens|, n) - 1
          && t.base[n] == First(lens, n) - CountLt(lens, |lens|, n))
    && (forall n :: maxLen < n <= 20 ==> t.limit[n] == 0)
  }

  lemma {:induction false} NoShorter(lens: seq<int>, i: nat, lo: nat, n: int)
    requires i <= |lens| && n < lo && forall k :: 0 <= k < |lens| ==> lo <= lens[k]
    ensures CountEq(lens, i, n) == 0 && CountLt(lens, i, lo) == 0
  {
    if i > 0 { NoShorter(lens, i - 1, lo, n); }
  }

  lemma {:induction false} NoLonger(lens: seq<int>, i: nat, hi: nat, n: int)
    requires i <= |lens| && hi < n && forall k :: 0 <= k < |lens| ==> lens[k] <= hi
    ensures CountEq(lens, i, n) == 0
  {
    if i > 0 { NoLonger(lens, i - 1, hi, n); }
  }

  lemma {:induction false} FirstIsZero(lens: seq<int>, lo: nat, n: nat)
    requires n <= lo && forall k :: 0 <= k < |lens| ==> lo <= lens[k]
    ensures First(lens, n) == 0
  {
    if n > 0 {
      FirstIsZero(lens, lo, n - 1);
      NoShorter(lens, |lens|, lo, n - 1);
    }
  }

  lemma {:induction false} PartialPositive(lens: seq<int>, k: nat, n: nat)
    requires 0 < k <= |lens| && forall i :: 0 <= i < |lens| ==> 0 <= lens[i] <= n
    ensures Partial(lens, k, n) >= 1
  {
    if k > 1 { PartialPositive(lens, k - 1, n); }
  }

  /** Where the table is consulted it holds the canonical answer, so that the range check on
      the index never fires. */
  lemma TableEntry(t: Tables, lens: seq<int>, maxLen: nat, n: nat, zvec: nat)
    requires TablesFor(t, lens, maxLen) && t.minLen <= n <= maxLen
    requires First(lens, n) <= zvec < First(lens, n) + CountEq(lens, |lens|, n)
    ensures CountLt(lens, |lens|, n) + zvec - First(lens, n) < |lens|
    ensures var k := zvec - t.base[n];
            0 <= k < MAX_ALPHA_SIZE && t.perm[k] == Link(lens, CountLt(lens, |lens|, n) + zvec - First(lens, n))
  {
    hide First, CountEq, CountLt, Rank, Link;
    CountsStep(lens, |lens|, n);
    var i := Link(lens, CountLt(lens, |lens|, n) + zvec - First(lens, n));
    assert t.perm[Rank(lens, i)] == i;
  }

  /** One comparison with the limit of length n. */
  lemma TableStep(t: Tables, lens: seq<int>, maxLen: nat, n: nat, zvec: nat)
    requires TablesFor(t, lens, maxLen) && t.minLen <= n <= 20
    requires First(lens, n) <= zvec && (n > maxLen ==> zvec >= 1)
    ensures zvec <= t.limit[n] <==> zvec < First(lens, n) + CountEq(lens, |lens|, n)
    ensures zvec <= t.limit[n] ==> CountLt(lens, |lens|, n) + zvec - First(lens, n) < |lens|
    ensures zvec <= t.limit[n] ==>
              var k := zvec - t.base[n];
              && 0 <= k < MAX_ALPHA_SIZE
              && t.perm[k] == Link(lens, CountLt(lens, |lens|, n) + zvec - First(lens, n))
    ensures zvec > t.limit[n] ==> First(lens, n + 1) <= 2 * zvec && (n >= maxLen ==> zvec >= 1)
  {
    hide First, CountEq, CountLt, Rank, Link;
    FirstNext(lens, n);
    if n <= maxLen {
      if zvec <= t.limit[n] {
        TableEntry(t, lens, maxLen, n, zvec);
      } else {
        TopPositive(lens, n, maxLen);
      }
    } else {
      NoLonger(lens, |lens|, maxLen, n);
    }
  }

  /** The table loop is canonical decoding, for every code and every bits: also for codes
      that overlap or leave gaps. */
  lemma {:induction false} SearchIsSymbol(t: Tables, lens: seq<int>, maxLen: nat, n: nat, zvec: nat, bits: seq<bool>)
    requires TablesFor(t, lens, maxLen) && t.minLen <= n && First(lens, n) <= zvec && (n > maxLen ==> zvec >= 1)
    ensures Search(t, n, zvec, bits) == Symbol(lens, n, zvec, bits)
    decreases if n > 20 then 0 else 21 - n
  {
    hide First, CountEq, CountLt, Rank, Link;
    if n <= 20 {
      TableStep(t, lens, maxLen, n, zvec);
      if zvec > t.limit[n] && |bits| > 0 {
        SearchIsSymbol(t, lens, maxLen, n + 1, 2 * zvec + Bit(bits[0]), bits[1..]);
      }
    }
  }

  lemma TopPositive(lens: seq<int>, n: nat, maxLen: nat)
    requires |lens| > 0 && forall k :: 0 <= k < |lens| ==> 0 <= lens[k] <= maxLen
    ensures n == maxLen ==> First(lens, n) + CountEq(lens, |lens|, n) >= 1
  {
    if n == maxLen {
      FirstIsPartial(lens, n);
      PartialPositive(lens, |lens|, n);
    }
  }

  /** Up to the shortest length, canonical decoding only collects bits. */
  lemma {:induction false} SymbolCollects(lens: seq<int>, lo: nat, n: nat, bits: seq<bool>, all: seq<bool>)
    requires n <= lo <= 20 && n <= |all| && all[n..] == bits && forall k :: 0 <= k < |lens| ==> lo <= lens[k]
    ensures First(lens, n) == 0 == First(lens, lo)
    ensures Symbol(lens, n, Val(all[..n]), bits)
         == if |all| < lo then Short else Symbol(lens, lo, Val(all[..lo]), all[lo..])
    decreases lo - n
  {
    hide First, CountEq, CountLt, Rank, Link, Val;
    FirstIsZero(lens, lo, n);
    FirstIsZero(lens, lo, lo);
    if n < lo {
      NoShorter(lens, |lens|, lo, n);
      FirstNext(lens, n);
      if |bits| > 0 {
        ValSnoc(all[..n], all[n]);
        assert all[..n] + [all[n]] == all[..n + 1];
        SymbolCollects(lens, lo, n + 1, bits[1..], all);
      }
    }
  }

  /** GET_MTF_VAL with the tables of BZ2_hbCreateDecodeTables is canonical decoding. */
  lemma TablesDecode(t: Tables, lens: seq<int>, maxLen: nat, bits: seq<bool>)
    requires TablesFor(t, lens, maxLen)
    ensures GetSymbol(t, bits) == ReadSymbol(lens, bits)
  {
    hide CountEq, CountLt, Rank, Link, Symbol, Search;
    SymbolCollects(lens, t.minLen, 0, bits, bits);
    assert bits[..0] == [] && Val([]) == 0;
    if |bits| >= t.minLen {
      assert t.minLen <= lens[0] <= maxLen;
      SearchIsSymbol(t, lens, maxLen, t.minLen, Val(bits[..t.minLen]), bits[t.minLen..]);
    }
  }
}
