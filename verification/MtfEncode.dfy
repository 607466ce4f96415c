/** generateMTFValues and makeMaps_e (compress.c): the last column is read off through ptr,
    coded as move-to-front ranks, and runs of zero are coded in base 2. */
module MtfEncode {
  import opened Counting
  import opened Rotations
  import opened InverseTransform
  import opened Mtf

  // ---------------------------------------------------------------- the byte maps

  /** The bytes below i that are in use, in ascending order: seqToUnseq. */
  function UsedBytes(used: seq<bool>, i: nat): (s: seq<int>)
    requires i <= |used|
    ensures |s| <= i && forall k :: 0 <= k < |s| ==> 0 <= s[k] < i && used[s[k]]
  {
    if i == 0 then [] else UsedBytes(used, i - 1) + if used[i - 1] then [i - 1] else []
  }

  /** The sequence number makeMaps_e gives byte c. */
  function SeqNumber(used: seq<bool>, c: nat): nat
    requires c <= |used|
  {
    |UsedBytes(used, c)|
  }

  lemma {:induction false} UsedPrefix(used: seq<bool>, i: nat, j: nat)
    requires i <= j <= |used|
    ensures UsedBytes(used, i) <= UsedBytes(used, j)
    decreases j
  {
    if i < j { UsedPrefix(used, i, j - 1); }
  }

  /** The decoder's map undoes the encoder's. */
  lemma MapsInverse(used: seq<bool>, c: nat)
    requires c < |used| && used[c]
    ensures SeqNumber(used, c) < |UsedBytes(used, |used|)|
    ensures UsedBytes(used, |used|)[SeqNumber(used, c)] == c
  {
    UsedPrefix(used, c + 1, |used|);
    assert UsedBytes(used, c + 1)[SeqNumber(used, c)] == c;
  }

  method MakeMapsE(inUse: array<bool>, unseqToSeq: array<int>) returns (nInUse: nat)
    requires inUse.Length == 256 && unseqToSeq.Length == 256
    modifies unseqToSeq
    ensures nInUse == |UsedBytes(inUse[..], 256)|
    ensures forall c :: 0 <= c < 256 && inUse[c] ==> unseqToSeq[c] == SeqNumber(inUse[..], c)
  {
    nInUse := 0;
    for i := 0 to 256
      invariant nInUse == |UsedBytes(inUse[..], i)|
      invariant forall c :: 0 <= c < i && inUse[c] ==> unseqToSeq[c] == SeqNumber(inUse[..], c)
    {
      if inUse[i] {
        unseqToSeq[i] := nInUse;
        nInUse := nInUse + 1;
      }
    }
  }

  // ---------------------------------------------------------------- token output

  /** mtfFreq counts the tokens written, for the alphabet in use. */
  ghost predicate Counted(freq: seq<int>, toks: seq<int>, alpha: nat) {
    |freq| == 258 && alpha <= 258 && forall t :: 0 <= t < alpha ==> freq[t] == CountEq(toks, |toks|, t)
  }

  lemma {:induction false} CountEqPrefix(s: seq<int>, x: int, i: nat, c: int)
    requires i <= |s|
    ensures CountEq(s + [x], i, c) == CountEq(s, i, c)
  {
    if i > 0 { CountEqPrefix(s, x, i - 1, c); }
  }

  lemma CountedSnoc(freq: seq<int>, toks: seq<int>, t: int, alpha: nat)
    requires Counted(freq, toks, alpha) && 0 <= t < alpha
    ensures Counted(freq[t := freq[t] + 1], toks + [t], alpha)
  {
    forall c | 0 <= c < alpha
      ensures CountEq(toks + [t], |toks|, c) == CountEq(toks, |toks|, c)
    {
      CountEqPrefix(toks, t, |toks|, c);
    }
  }

  /** From place m on, b is as a was. */
  ghost predicate Untouched(a: seq<int>, b: seq<int>, m: nat) {
    |a| == |b| && forall k :: m <= k < |a| ==> b[k] == a[k]
  }

  method Emit(mtfv: array<int>, mtfFreq: array<int>, wr: nat, t: int, ghost alpha: nat) returns (wr': nat)
    requires mtfv != mtfFreq && wr < mtfv.Length && 0 <= t < alpha <= 258
    requires Counted(mtfFreq[..], mtfv[..wr], alpha)
    modifies mtfv, mtfFreq
    ensures wr' == wr + 1 && mtfv[..wr'] == old(mtfv[..wr]) + [t] && Untouched(old(mtfv[..]), mtfv[..], wr')
    ensures Counted(mtfFreq[..], mtfv[..wr'], alpha)
  {
    hide Counted;
    CountedLength(mtfFreq[..], mtfv[..wr], alpha);
    CountedSnoc(mtfFreq[..], mtfv[..wr], t, alpha);
    ghost var fr := mtfFreq[..];
    mtfv[wr] := t;
    mtfFreq[t] := mtfFreq[t] + 1;
    assert mtfFreq[..] == fr[t := fr[t] + 1];
    wr' := wr + 1;
  }

  lemma CountedLength(freq: seq<int>, toks: seq<int>, alpha: nat)
    requires Counted(freq, toks, alpha)
    ensures |freq| == 258
  {
  }

  lemma NextDigit(d: seq<int>, z: nat)
    ensures d + Digits(z + 1) == (d + [z % 2]) + Digits(z / 2)
    ensures z < 2 ==> d + Digits(z + 1) == d + [z % 2]
  {
    hide Digits;
    DigitsSplit(z);
  }

  lemma DigitsSplit(z: nat)
    ensures Digits(z + 1) == [z % 2] + Digits(z / 2)
    ensures z < 2 ==> Digits(z + 1) == [z % 2]
  {
    assert z + 1 - 1 == z;
  }

  /** The inner loop over zPend. */
  method EmitRun(mtfv: array<int>, mtfFreq: array<int>, wr: nat, zPend: nat, ghost alpha: nat) returns (wr': nat)
    requires mtfv != mtfFreq && zPend > 0 && 2 <= alpha <= 258 && wr + zPend <= mtfv.Length
    requires Counted(mtfFreq[..], mtfv[..wr], alpha)
    modifies mtfv, mtfFreq
    ensures wr <= wr' <= wr + zPend && mtfv[..wr'] == old(mtfv[..wr]) + Digits(zPend)
    ensures Untouched(old(mtfv[..]), mtfv[..], wr')
    ensures Counted(mtfFreq[..], mtfv[..wr'], alpha)
  {
    hide Counted, Digits;
    ghost var out, before := mtfv[..wr], mtfv[..];
    var z := zPend - 1;
    wr' := wr;
    ghost var done: seq<int> := [];
    while true
      invariant 0 <= z && wr <= wr' && wr' + z + 1 <= wr + zPend && mtfv[..wr'] == out + done
      invariant done + Digits(z + 1) == Digits(zPend)
      invariant Counted(mtfFreq[..], mtfv[..wr'], alpha) && Untouched(before, mtfv[..], wr')
      decreases z
    {
      NextDigit(done, z);
      wr' := Emit(mtfv, mtfFreq, wr', if z % 2 == 1 then RUNB else RUNA, alpha);
      assert out + done + [z % 2] == out + (done + [z % 2]);
      done := done + [z % 2];
      if z < 2 { break; }
      z := (z - 2) / 2;
    }
  }

  // ---------------------------------------------------------------- the list

  /** Move the wanted symbol, known not to be in front, to the front; j is where it was. */
  method FindAndMove(yy: array<int>, n: nat, x: int) returns (j: nat)
    requires n <= yy.Length && x in yy[..n] && yy[..n][0] != x
    modifies yy
    ensures j == IndexIn(old(yy[..n]), x) && 1 <= j < n && yy[..n] == ToFront(old(yy[..n]), j)
  {
    ghost var l := yy[..n];
    ghost var at := IndexIn(l, x);
    assert forall k :: 0 <= k < at ==> l[k] == l[..at][k];
    var rtmp := yy[1];
    yy[1] := yy[0];
    j := 1;
    while x != rtmp
      invariant 1 <= j <= at && rtmp == l[j] && yy[0] == l[0]
      invariant forall k :: 1 <= k <= j ==> yy[k] == l[k - 1]
      invariant forall k :: j < k < n ==> yy[k] == l[k]
      decreases at - j
    {
      j := j + 1;
      var rtmp2 := rtmp;
      rtmp := yy[j];
      yy[j] := rtmp2;
    }
    yy[0] := rtmp;
    assert yy[..n] == ToFront(l, j);
  }

  /** The sequence numbers of the last column. */
  ghost function Numbered(used: seq<bool>, col: seq<int>): (s: seq<int>)
    requires |used| == 256 && IsColumn(col)
    ensures |s| == |col| && forall i :: 0 <= i < |col| ==> s[i] == SeqNumber(used, col[i])
  {
    seq(|col|, i requires 0 <= i < |col| => SeqNumber(used, col[i]))
  }

  ghost function Identity(n: nat): (l: seq<int>)
    ensures |l| == n && forall i :: 0 <= i < n ==> l[i] == i
  {
    seq(n, i => i)
  }

  /** Every token produced so far was paid for by a symbol read. */
  lemma {:induction false} TokensFit(r: seq<int>)
    ensures |Written(r)| + Trailing(r) <= |r|
  {
    if |r| > 0 {
      TokensFit(r[..|r| - 1]);
      WrittenLast(r);
    }
  }

  /** yy, mtfv and zPend after the symbols s. */
  ghost predicate Encoded(l: seq<int>, s: seq<int>, list: seq<int>, toks: seq<int>, zPend: nat) {
    && AllIn(s, l) && list == ListAfter(l, s)
    && toks == Written(RanksOf(l, s)) && zPend == Trailing(RanksOf(l, s))
  }

  lemma EncodedZero(l: seq<int>, s: seq<int>, list: seq<int>, toks: seq<int>, zPend: nat, x: int)
    requires Encoded(l, s, list, toks, zPend) && x in l && |list| > 0 && list[0] == x
    ensures Encoded(l, s + [x], list, toks, zPend + 1)
  {
    hide ListAfter, RanksOf, Written, Trailing;
    RanksSnoc(l, s, x);
    var r := RanksOf(l, s);
    assert ToFront(list, 0) == list;
    WrittenLast(r + [0]);
    assert (r + [0])[..|r|] == r;
  }

  lemma EncodedRank(l: seq<int>, s: seq<int>, list: seq<int>, toks: seq<int>, zPend: nat, x: int)
    requires Encoded(l, s, list, toks, zPend) && x in l && |list| > 0 && list[0] != x
    ensures x in list
    ensures var j := IndexIn(list, x);
            Encoded(l, s + [x], ToFront(list, j), toks + Digits(zPend) + [j + 1], 0)
  {
    hide ListAfter, RanksOf, Written, Trailing, Digits, ToFront, AllIn, IndexIn;
    RanksSnoc(l, s, x);
    var r, j := RanksOf(l, s), IndexIn(list, x);
    NotFirst(list, x);
    WrittenLast(r + [j]);
    assert (r + [j])[..|r|] == r;
    Regrouped(toks, Digits(zPend), [j + 1]);
  }

  lemma NotFirst(list: seq<int>, x: int)
    requires x in list && list[0] != x
    ensures 0 < IndexIn(list, x) < |list|
  {
  }

  lemma Regrouped(a: seq<int>, b: seq<int>, c: seq<int>)
    ensures a + b + c == a + (b + c)
  {
  }

  /** One symbol of the main loop of generateMTFValues. */
  method EncodeSymbol(yy: array<int>, mtfv: array<int>, mtfFreq: array<int>, wr: nat, zPend: nat, x: int, n: nat,
                      ghost l: seq<int>, ghost s: seq<int>) returns (wr': nat, zPend': nat)
    requires yy != mtfv && yy != mtfFreq && mtfv != mtfFreq
    requires 0 < n <= yy.Length && n <= 256 && |l| == n && x in l
    requires wr + zPend < mtfv.Length && Counted(mtfFreq[..], mtfv[..wr], n + 2)
    requires Encoded(l, s, yy[..n], mtfv[..wr], zPend)
    modifies yy, mtfv, mtfFreq
    ensures wr <= wr' <= mtfv.Length && Counted(mtfFreq[..], mtfv[..wr'], n + 2)
    ensures Untouched(old(mtfv[..]), mtfv[..], wr')
    ensures Encoded(l, s + [x], yy[..n], mtfv[..wr'], zPend')
  {
    hide Counted, Encoded, Digits, AllIn, ToFront;
    ghost var alpha := n + 2;
    wr', zPend' := wr, zPend;
    if yy[0] == x {
      EncodedZero(l, s, yy[..n], mtfv[..wr], zPend, x);
      zPend' := zPend + 1;
    } else {
      EncodedRank(l, s, yy[..n], mtfv[..wr], zPend, x);
      ghost var list, toks := yy[..n], mtfv[..wr];
      NoDigits();
      if zPend > 0 {
        wr' := EmitRun(mtfv, mtfFreq, wr, zPend, alpha);
        zPend' := 0;
      }
      assert yy[..n] == list && mtfv[..wr'] == toks + Digits(zPend);
      var j := FindAndMove(yy, n, x);
      ghost var before := mtfv[..wr'];
      assert Counted(mtfFreq[..], before, alpha);
      wr' := Emit(mtfv, mtfFreq, wr', j + 1, alpha);
    }
  }

  lemma NoDigits()
    ensures Digits(0) == []
  {
  }

  lemma ColumnBytes(b: seq<int>, f: seq<int>)
    requires IsPermutation(f, |b|) && IsColumn(b)
    ensures IsColumn(LastColumn(b, f)) && forall k :: 0 <= k < |b| ==> 0 <= b[k] < 256
  {
  }

  /** Symbol i of the last column: the byte read through ptr, and its number. */
  lemma ColumnEntry(b: seq<int>, f: seq<int>, used: seq<bool>, nums: seq<int>, i: nat)
    requires IsPermutation(f, |b|) && IsColumn(b) && IsColumn(LastColumn(b, f)) && i < |b|
    requires |used| == 256 && forall k :: 0 <= k < |b| ==> 0 <= b[k] < 256 && used[b[k]]
    requires |nums| == 256 && forall c :: 0 <= c < 256 && used[c] ==> nums[c] == SeqNumber(used, c)
    ensures 0 <= f[i] < |b| && 0 <= b[Pred(|b|, f[i])] < 256
    ensures nums[b[Pred(|b|, f[i])]] == Numbered(used, LastColumn(b, f))[i]
    ensures Numbered(used, LastColumn(b, f))[i] in Identity(|UsedBytes(used, 256)|)
  {
    var c := b[Pred(|b|, f[i])];
    MapsInverse(used, c);
    assert Identity(|UsedBytes(used, 256)|)[SeqNumber(used, c)] == SeqNumber(used, c);
  }

  lemma ColumnNumbered(b: seq<int>, f: seq<int>, used: seq<bool>, nums: seq<int>)
    requires IsPermutation(f, |b|) && IsColumn(b) && IsColumn(LastColumn(b, f)) && |b| > 0
    requires |used| == 256 && forall k :: 0 <= k < |b| ==> 0 <= b[k] < 256 && used[b[k]]
    requires |nums| == 256 && forall c :: 0 <= c < 256 && used[c] ==> nums[c] == SeqNumber(used, c)
    ensures |UsedBytes(used, 256)| > 0
    ensures AllIn(Numbered(used, LastColumn(b, f)), Identity(|UsedBytes(used, 256)|))
  {
    hide IsPermutation, IsColumn, UsedBytes;
    forall i | 0 <= i < |b|
      ensures Numbered(used, LastColumn(b, f))[i] in Identity(|UsedBytes(used, 256)|)
    {
      ColumnEntry(b, f, used, nums, i);
    }
    assert Numbered(used, LastColumn(b, f))[0] in Identity(|UsedBytes(used, 256)|);
  }

  lemma NothingCounted(freq: seq<int>, alpha: nat)
    requires |freq| == 258 && alpha <= 258 && forall t :: 0 <= t < alpha ==> freq[t] == 0
    ensures Counted(freq, [], alpha)
  {
  }

  lemma EncodedNothing(l: seq<int>)
    ensures Encoded(l, [], l, [], 0)
  {
  }

  lemma EncodedFits(l: seq<int>, s: seq<int>, list: seq<int>, toks: seq<int>, zPend: nat)
    requires Encoded(l, s, list, toks, zPend)
    ensures |toks| + zPend <= |s|
  {
    TokensFit(RanksOf(l, s));
  }

  lemma EncodedAll(l: seq<int>, s: seq<int>, list: seq<int>, toks: seq<int>, zPend: nat, eob: int)
    requires Encoded(l, s, list, toks, zPend)
    ensures AllIn(s, l) && toks + Digits(zPend) + [eob] == Tokens(RanksOf(l, s), eob)
  {
  }

  /** Word k of a piece of memory seen as halves of sixteen bits, the low one first. */
  function WordAt(halves: seq<int>, k: nat): int
    requires 2 * k + 1 < |halves|
  {
    halves[2 * k] + 0x1_0000 * halves[2 * k + 1]
  }

  /** The words from i on are those of f. */
  ghost predicate WordsFrom(halves: seq<int>, f: seq<int>, i: nat) {
    2 * |f| <= |halves| && forall k :: i <= k < |f| ==> WordAt(halves, k) == f[k]
  }

  /** Tokens take up a word no sooner than it has been read. */
  lemma WordsKept(a: seq<int>, b: seq<int>, f: seq<int>, i: nat, wr: nat)
    requires WordsFrom(a, f, i) && Untouched(a, b, wr) && wr <= i + 1
    ensures WordsFrom(b, f, i + 1)
  {
    forall k | i + 1 <= k < |f| ensures WordAt(b, k) == f[k] {
      assert WordAt(a, k) == f[k];
    }
  }

  method ClearCounts(mtfFreq: array<int>, alpha: nat)
    requires mtfFreq.Length == 258 && alpha <= 258
    modifies mtfFreq
    ensures Counted(mtfFreq[..], [], alpha)
  {
    for i := 0 to alpha
      invariant forall t :: 0 <= t < i ==> mtfFreq[t] == 0
    { mtfFreq[i] := 0; }
    NothingCounted(mtfFreq[..], alpha);
  }

  method FirstList(n: nat) returns (yy: array<int>)
    requires n <= 256
    ensures fresh(yy) && yy.Length == 256 && yy[..n] == Identity(n)
  {
    yy := new int[256];
    for i := 0 to n
      invariant forall k :: 0 <= k < i ==> yy[k] == k
    { yy[i] := i; }
  }

  /** The zeros still pending, and the end of the block. */
  method Finish(mtfv: array<int>, mtfFreq: array<int>, wr: nat, zPend: nat, eob: int, ghost alpha: nat) returns (wr': nat)
    requires mtfv != mtfFreq && 2 <= alpha <= 258 && 0 <= eob < alpha && wr + zPend < mtfv.Length
    requires Counted(mtfFreq[..], mtfv[..wr], alpha)
    modifies mtfv, mtfFreq
    ensures 0 < wr' <= wr + zPend + 1 && mtfv[..wr'] == old(mtfv[..wr]) + Digits(zPend) + [eob]
    ensures Counted(mtfFreq[..], mtfv[..wr'], alpha)
  {
    hide Counted, Digits;
    wr' := wr;
    NoDigits();
    ghost var toks := mtfv[..wr];
    if zPend > 0 { wr' := EmitRun(mtfv, mtfFreq, wr, zPend, alpha); }
    assert mtfv[..wr'] == toks + Digits(zPend);
    wr' := Emit(mtfv, mtfFreq, wr', eob, alpha);
  }

  /** generateMTFValues.  arr1 is two arrays in one: the words that the block sort has left there,
      ptr, and the tokens, mtfv, that take their place half a word each. */
  method GenerateMtfValues(ghost ptr: seq<int>, arr1: array<int>, block: array<int>, inUse: array<bool>, nblock: nat,
                           unseqToSeq: array<int>, mtfFreq: array<int>)
    returns (nInUse: nat, nMTF: nat)
    requires unseqToSeq != block && arr1 != block && arr1 != unseqToSeq
    requires mtfFreq != block && mtfFreq != unseqToSeq && mtfFreq != arr1
    requires 0 < nblock == |ptr| && nblock <= block.Length && WordsFrom(arr1[..], ptr, 0)
    requires inUse.Length == 256 && unseqToSeq.Length == 256 && mtfFreq.Length == 258
    requires IsPermutation(ptr, nblock) && IsColumn(block[..nblock])
    requires forall k :: 0 <= k < nblock ==> inUse[block[k]]
    modifies unseqToSeq, arr1, mtfFreq
    ensures nInUse == |UsedBytes(inUse[..], 256)| && 0 < nInUse <= 256 && 0 < nMTF <= nblock + 1 <= arr1.Length
    ensures IsColumn(LastColumn(block[..nblock], ptr))
    ensures AllIn(Numbered(inUse[..], LastColumn(block[..nblock], ptr)), Identity(nInUse))
    ensures arr1[..nMTF] == Tokens(RanksOf(Identity(nInUse), Numbered(inUse[..], LastColumn(block[..nblock], ptr))),
                                   nInUse + 1)
    ensures Counted(mtfFreq[..], arr1[..nMTF], nInUse + 2)
  {
    hide IsPermutation, IsColumn, LastColumn, Numbered, Counted, Encoded, AllIn, Digits, RanksOf, Written, UsedBytes, Untouched;
    ghost var b, f, used := block[..nblock], ptr, inUse[..];
    var mtfv := arr1;
    ColumnBytes(b, f);
    ghost var syms := Numbered(used, LastColumn(b, f));
    nInUse := MakeMapsE(inUse, unseqToSeq);
    ghost var l, nums := Identity(nInUse), unseqToSeq[..];
    ColumnNumbered(b, f, used, nums);
    var eob := nInUse + 1;
    ClearCounts(mtfFreq, eob + 1);
    var yy := FirstList(nInUse);
    EncodedNothing(l);
    var wr: nat, zPend: nat := 0, 0;
    assert mtfv[..0] == [] && syms[..0] == [];
    for i := 0 to nblock
      invariant block[..nblock] == b && inUse[..] == used && unseqToSeq[..] == nums
      invariant wr <= i && WordsFrom(mtfv[..], f, i) && Counted(mtfFreq[..], mtfv[..wr], nInUse + 2)
      invariant Encoded(l, syms[..i], yy[..nInUse], mtfv[..wr], zPend)
    {
      EncodedFits(l, syms[..i], yy[..nInUse], mtfv[..wr], zPend);
      ColumnEntry(b, f, used, nums, i);
      assert WordAt(mtfv[..], i) == f[i];
      ghost var before := mtfv[..];
      var j := mtfv[2 * i] + 0x1_0000 * mtfv[2 * i + 1] - 1;
      if j < 0 { j := j + nblock; }
      var x := unseqToSeq[block[j]];
      wr, zPend := EncodeSymbol(yy, mtfv, mtfFreq, wr, zPend, x, nInUse, l, syms[..i]);
      assert syms[..i + 1] == syms[..i] + [x];
      EncodedFits(l, syms[..i + 1], yy[..nInUse], mtfv[..wr], zPend);
      WordsKept(before, mtfv[..], f, i, wr);
    }
    assert syms[..nblock] == syms;
    EncodedFits(l, syms, yy[..nInUse], mtfv[..wr], zPend);
    EncodedAll(l, syms, yy[..nInUse], mtfv[..wr], zPend, eob);
    nMTF := Finish(mtfv, mtfFreq, wr, zPend, eob, nInUse + 2);
  }

  // ---------------------------------------------------------------- numbers and bytes

  /** m is l with every number replaced by its byte. */
  ghost predicate Named(names: seq<int>, l: seq<int>, m: seq<int>) {
    && |l| == |m|
    && (forall i :: 0 <= i < |l| ==> 0 <= l[i] < |names|)
    && (forall i :: 0 <= i < |l| ==> m[i] == names[l[i]])
  }

  lemma {:induction false} UsedDistinct(used: seq<bool>, i: nat)
    requires i <= |used|
    ensures Distinct(UsedBytes(used, i))
  {
    if i > 0 { UsedDistinct(used, i - 1); }
  }

  lemma NamedIndex(names: seq<int>, l: seq<int>, m: seq<int>, x: int)
    requires Distinct(names) && Named(names, l, m) && x in l
    ensures 0 <= x < |names| && names[x] in m && IndexIn(m, names[x]) == IndexIn(l, x)
  {
    hide IndexIn;
    var j := IndexIn(l, x);
    assert m[j] == names[x];
    var k := IndexIn(m, names[x]);
    assert forall i :: 0 <= i < j ==> l[..j][i] == l[i];
    assert forall i :: 0 <= i < k ==> m[..k][i] == m[i];
  }

  lemma NamedToFront(names: seq<int>, l: seq<int>, m: seq<int>, j: nat)
    requires Named(names, l, m) && j < |l|
    ensures Named(names, ToFront(l, j), ToFront(m, j))
  {
  }

  /** Ranks do not depend on what the listed symbols are called. */
  lemma {:induction false} NamedRanks(names: seq<int>, l: seq<int>, m: seq<int>, s: seq<int>, t: seq<int>)
    requires Distinct(names) && Named(names, l, m) && Named(names, s, t) && AllIn(s, l)
    ensures AllIn(t, m) && Named(names, ListAfter(l, s), ListAfter(m, t)) && RanksOf(l, s) == RanksOf(m, t)
  {
    hide Distinct, ToFront, IndexIn, ListAfter, RanksOf;
    if |s| > 0 {
      var s', t', x, y := s[..|s| - 1], t[..|s| - 1], s[|s| - 1], t[|s| - 1];
      NamedRanks(names, l, m, s', t');
      assert s == s' + [x] && t == t' + [y] && x in l;
      RanksSnoc(l, s', x);
      NamedIndex(names, l, m, x);
      NamedIndex(names, ListAfter(l, s'), ListAfter(m, t'), x);
      RanksSnoc(m, t', y);
      NamedToFront(names, ListAfter(l, s'), ListAfter(m, t'), IndexIn(ListAfter(l, s'), x));
    } else {
      assert s == [] && t == [];
      NoRanks(l);
      NoRanks(m);
    }
  }

  lemma NoRanks(l: seq<int>)
    ensures ListAfter(l, []) == l && RanksOf(l, []) == []
  {
  }

  /** Coding the sequence numbers of a column or its bytes gives the same ranks. */
  lemma ColumnRanks(used: seq<bool>, col: seq<int>)
    requires |used| == 256 && IsColumn(col) && forall i :: 0 <= i < |col| ==> used[col[i]]
    requires AllIn(Numbered(used, col), Identity(|UsedBytes(used, 256)|))
    ensures AllIn(col, UsedBytes(used, 256))
    ensures RanksOf(Identity(|UsedBytes(used, 256)|), Numbered(used, col)) == RanksOf(UsedBytes(used, 256), col)
  {
    hide RanksOf, ListAfter, AllIn, UsedBytes;
    var names := UsedBytes(used, 256);
    UsedDistinct(used, 256);
    forall i | 0 <= i < |col| ensures 0 <= Numbered(used, col)[i] < |names| && names[Numbered(used, col)[i]] == col[i] {
      MapsInverse(used, col[i]);
    }
    NamedRanks(names, Identity(|names|), names, Numbered(used, col), col);
  }
}
