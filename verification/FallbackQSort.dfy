/** fallbackSimpleSort and fallbackQSort3 (blocksort.c): sorting a stretch of fmap by the
    class numbers of its entries, with an explicit stack. */
module FallbackQSort {
  import opened Bits

  /** f2 is f1 with the entries at lo..hi rearranged. */
  ghost predicate Rearranged(f1: seq<int>, f2: seq<int>, lo: int, hi: int) {
    && |f1| == |f2|
    && (forall i :: 0 <= i < |f1| && !(lo <= i <= hi) ==> f2[i] == f1[i])
    && multiset(f1) == multiset(f2)
  }

  lemma RearrangedTransitive(f1: seq<int>, f2: seq<int>, f3: seq<int>, lo: int, hi: int)
    requires Rearranged(f1, f2, lo, hi) && Rearranged(f2, f3, lo, hi)
    ensures Rearranged(f1, f3, lo, hi)
  {
  }

  lemma RearrangedWider(f1: seq<int>, f2: seq<int>, lo: int, hi: int, lo': int, hi': int)
    requires Rearranged(f1, f2, lo, hi) && lo' <= lo && hi <= hi'
    ensures Rearranged(f1, f2, lo', hi')
  {
  }

  lemma Cancel(a: multiset<int>, m1: multiset<int>, m2: multiset<int>, c: multiset<int>)
    requires a + m1 + c == a + m2 + c
    ensures m1 == m2
  {
    forall x ensures m1[x] == m2[x] {
      assert (a + m1 + c)[x] == a[x] + m1[x] + c[x];
      assert (a + m2 + c)[x] == a[x] + m2[x] + c[x];
    }
  }

  lemma SplitMultiset(f: seq<int>, lo: int, hi: int)
    requires 0 <= lo <= hi + 1 <= |f|
    ensures multiset(f) == multiset(f[..lo]) + multiset(f[lo..hi + 1]) + multiset(f[hi + 1..])
  {
    assert f == f[..lo] + f[lo..hi + 1] + f[hi + 1..];
  }

  lemma SegmentMultiset(f1: seq<int>, f2: seq<int>, lo: int, hi: int)
    requires Rearranged(f1, f2, lo, hi) && 0 <= lo <= hi + 1 && hi < |f1|
    ensures multiset(f1[lo..hi + 1]) == multiset(f2[lo..hi + 1])
  {
    SplitMultiset(f1, lo, hi);
    SplitMultiset(f2, lo, hi);
    assert f1[..lo] == f2[..lo] && f1[hi + 1..] == f2[hi + 1..];
    Cancel(multiset(f1[..lo]), multiset(f1[lo..hi + 1]), multiset(f2[lo..hi + 1]), multiset(f1[hi + 1..]));
  }

  /** Whatever now stands in the stretch stood somewhere in it before. */
  lemma CameFrom(f1: seq<int>, f2: seq<int>, lo: int, hi: int, i: int) returns (j: int)
    requires Rearranged(f1, f2, lo, hi) && 0 <= lo <= i <= hi < |f1|
    ensures lo <= j <= hi && f1[j] == f2[i]
  {
    SegmentMultiset(f1, f2, lo, hi);
    assert f2[i] == f2[lo..hi + 1][i - lo];
    assert f2[i] in multiset(f2[lo..hi + 1]);
    assert f2[i] in f1[lo..hi + 1];
    var k :| 0 <= k < |f1[lo..hi + 1]| && f1[lo..hi + 1][k] == f2[i];
    j := lo + k;
  }

  /** The entries at lo..hi of f index the class table. */
  ghost predicate Indexes(f: seq<int>, ec: seq<int>, lo: int, hi: int) {
    && 0 <= lo && hi < |f|
    && forall i :: lo <= i <= hi ==> 0 <= f[i] < |ec|
  }

  lemma IndexesRearranged(f1: seq<int>, f2: seq<int>, ec: seq<int>, lo: int, hi: int)
    requires Rearranged(f1, f2, lo, hi) && Indexes(f1, ec, lo, hi)
    ensures Indexes(f2, ec, lo, hi)
  {
    forall i | lo <= i <= hi ensures 0 <= f2[i] < |ec| {
      var j := CameFrom(f1, f2, lo, hi, i);
    }
  }

  ghost predicate SortedBy(f: seq<int>, ec: seq<int>, lo: int, hi: int)
    requires Indexes(f, ec, lo, hi)
  {
    forall i, j :: lo <= i < j <= hi ==> ec[f[i]] <= ec[f[j]]
  }

  // ---------------------------------------------------------------- the simple sort

  /** f with t put back at the hole p. */
  ghost predicate HoleState(f0: seq<int>, f: seq<int>, lo: int, hi: int, p: int, t: int) {
    0 <= lo <= p <= hi < |f| && Rearranged(f0, f[p := t], lo, hi)
  }

  lemma MoveHole(f0: seq<int>, f: seq<int>, lo: int, hi: int, p: int, q: int, t: int)
    requires HoleState(f0, f, lo, hi, p, t) && lo <= q <= hi && p != q
    ensures HoleState(f0, f[p := f[q]], lo, hi, q, t)
  {
    var a, b := f[p := t], f[p := f[q]][q := t];
    assert b == a[p := a[q]][q := a[p]];
    SwapMultiset(a, p, q);
  }

  lemma SwapMultiset(a: seq<int>, p: int, q: int)
    requires 0 <= p < |a| && 0 <= q < |a|
    ensures multiset(a[p := a[q]][q := a[p]]) == multiset(a)
  {
  }

  /** Part-way through inserting t (from place lo) into the sorted places lo+1..hi: the hole
      is at p, everything before it is smaller than t. */
  ghost predicate Inserting(f: seq<int>, ec: seq<int>, lo: int, hi: int, p: int, key: int)
    requires Indexes(f, ec, lo, hi)
  {
    && lo <= p <= hi
    && (forall i :: lo <= i < p ==> ec[f[i]] < key)
    && (forall i, j :: lo <= i < j <= hi && i != p && j != p ==> ec[f[i]] <= ec[f[j]])
  }

  /** Insert fmap[i] into the places i+h, i+2h, ... up to hi. */
  method InsertAt(fmap: array<int>, eclass: array<int>, lo: nat, i: nat, hi: nat, h: nat)
    requires fmap != eclass && lo <= i <= hi && h >= 1
    requires Indexes(fmap[..], eclass[..], lo, hi)
    requires h == 1 ==> SortedBy(fmap[..], eclass[..], i + 1, hi)
    modifies fmap
    ensures Rearranged(old(fmap[..]), fmap[..], lo, hi) && Indexes(fmap[..], eclass[..], lo, hi)
    ensures h == 1 ==> SortedBy(fmap[..], eclass[..], i, hi)
    ensures forall k :: lo <= k < i ==> fmap[k] == old(fmap[k])
  {
    hide Rearranged;
    ghost var f0, ec := fmap[..], eclass[..];
    var tmp := fmap[i];
    var ecTmp := eclass[tmp];
    var j := i + h;
    assert f0[i := tmp] == f0;
    RearrangedSelf(f0, lo, hi);
    while j <= hi && ecTmp > eclass[fmap[j]]
      invariant i + h <= j <= hi + h && eclass[..] == ec
      invariant Indexes(fmap[..], ec, lo, hi)
      invariant HoleState(f0, fmap[..], lo, hi, j - h, tmp)
      invariant forall k :: lo <= k < i ==> fmap[k] == f0[k]
      invariant h == 1 ==> Inserting(fmap[..], ec, i, hi, j - 1, ecTmp)
      decreases hi + h - j
    {
      ghost var f := fmap[..];
      MoveHole(f0, f, lo, hi, j - h, j, tmp);
      fmap[j - h] := fmap[j];
      assert fmap[..] == f[j - h := f[j]];
      j := j + h;
    }
    ghost var f := fmap[..];
    fmap[j - h] := tmp;
    assert fmap[..] == f[j - h := tmp];
  }

  lemma RearrangedSelf(f: seq<int>, lo: int, hi: int)
    ensures Rearranged(f, f, lo, hi)
  {
  }

  method FallbackSimpleSort(fmap: array<int>, eclass: array<int>, lo: nat, hi: int)
    requires fmap != eclass && lo <= hi + 1 && Indexes(fmap[..], eclass[..], lo, hi)
    modifies fmap
    ensures Rearranged(old(fmap[..]), fmap[..], lo, hi)
    ensures Indexes(fmap[..], eclass[..], lo, hi) && SortedBy(fmap[..], eclass[..], lo, hi)
  {
    hide Rearranged;
    ghost var f0 := fmap[..];
    RearrangedSelf(f0, lo, hi);
    if lo == hi { return; }
    if hi - lo > 3 {
      var i := hi - 4;
      while i >= lo
        invariant lo - 1 <= i <= hi - 4
        invariant Rearranged(f0, fmap[..], lo, hi) && Indexes(fmap[..], eclass[..], lo, hi)
      {
        ghost var f := fmap[..];
        InsertAt(fmap, eclass, lo, i, hi, 4);
        RearrangedTransitive(f0, f, fmap[..], lo, hi);
        i := i - 1;
      }
    }
    var i := hi - 1;
    while i >= lo
      invariant Rearranged(f0, fmap[..], lo, hi) && Indexes(fmap[..], eclass[..], lo, hi)
      invariant if lo <= hi then lo - 1 <= i <= hi - 1 && SortedBy(fmap[..], eclass[..], i + 1, hi) else i < lo
    {
      ghost var f := fmap[..];
      InsertAt(fmap, eclass, lo, i, hi, 1);
      RearrangedTransitive(f0, f, fmap[..], lo, hi);
      i := i - 1;
    }
  }

  // ---------------------------------------------------------------- three-way partition

  method Swap(fmap: array<int>, i: nat, j: nat)
    requires i < fmap.Length && j < fmap.Length
    modifies fmap
    ensures fmap[..] == old(fmap[..])[i := old(fmap[j])][j := old(fmap[i])]
  {
    fmap[i], fmap[j] := fmap[j], fmap[i];
  }

  lemma SwapRearranges(f: seq<int>, i: int, j: int, lo: int, hi: int)
    requires 0 <= lo <= i <= hi < |f| && lo <= j <= hi
    ensures Rearranged(f, f[i := f[j]][j := f[i]], lo, hi)
  {
    SwapMultiset(f, i, j);
  }

  /** The stretches of n entries at p1 and p2 have changed places. */
  ghost predicate VSwapped(f0: seq<int>, f: seq<int>, p1: int, p2: int, n: nat) {
    && |f| == |f0| && 0 <= p1 && p1 + n <= p2 && p2 + n <= |f|
    && (forall i :: p1 <= i < p1 + n ==> f[i] == f0[i + p2 - p1])
    && (forall i :: p2 <= i < p2 + n ==> f[i] == f0[i - p2 + p1])
    && (forall i :: 0 <= i < |f| && !(p1 <= i < p1 + n) && !(p2 <= i < p2 + n) ==> f[i] == f0[i])
  }

  lemma VSwapNone(f: seq<int>, p1: int, p2: int)
    requires 0 <= p1 <= p2 <= |f|
    ensures VSwapped(f, f, p1, p2, 0)
  {
  }

  lemma VSwapStep(f0: seq<int>, f: seq<int>, p1: int, p2: int, m: nat)
    requires VSwapped(f0, f, p1, p2, m) && p1 + m < p2 && p2 + m < |f|
    ensures VSwapped(f0, f[p1 + m := f[p2 + m]][p2 + m := f[p1 + m]], p1, p2, m + 1)
  {
    var g := f[p1 + m := f[p2 + m]][p2 + m := f[p1 + m]];
    assert f[p1 + m] == f0[p1 + m] && f[p2 + m] == f0[p2 + m];
    assert g[p1 + m] == f0[p2 + m] && g[p2 + m] == f0[p1 + m];
    assert forall i :: 0 <= i < |f| && i != p1 + m && i != p2 + m ==> g[i] == f[i];
  }

  /** fvswap: exchange the stretches of n entries at p1 and p2. */
  method VSwap(fmap: array<int>, p1: nat, p2: nat, n: nat)
    requires p1 + n <= p2 && p2 + n <= fmap.Length
    modifies fmap
    ensures Rearranged(old(fmap[..]), fmap[..], p1, p2 + n - 1)
    ensures VSwapped(old(fmap[..]), fmap[..], p1, p2, n)
  {
    hide Rearranged, VSwapped;
    ghost var f0 := fmap[..];
    RearrangedSelf(f0, p1, p2 + n - 1);
    VSwapNone(f0, p1, p2);
    var m := 0;
    while m < n
      invariant m <= n && Rearranged(f0, fmap[..], p1, p2 + n - 1)
      invariant VSwapped(f0, fmap[..], p1, p2, m)
    {
      ghost var f := fmap[..];
      SwapRearranges(f, p1 + m, p2 + m, p1, p2 + n - 1);
      VSwapStep(f0, f, p1, p2, m);
      Swap(fmap, p1 + m, p2 + m);
      RearrangedTransitive(f0, f, fmap[..], p1, p2 + n - 1);
      m := m + 1;
    }
  }

  /** The state of the partition: med | < med | unseen | > med | med. */
  ghost predicate Parting(f: seq<int>, ec: seq<int>, lo: int, hi: int, med: int,
                          ltLo: int, unLo: int, unHi: int, gtHi: int)
    requires Indexes(f, ec, lo, hi)
  {
    && lo <= ltLo <= unLo <= unHi + 1 && unHi <= gtHi <= hi
    && (forall i :: lo <= i < ltLo ==> ec[f[i]] == med)
    && (forall i :: ltLo <= i < unLo ==> ec[f[i]] < med)
    && (forall i :: unHi < i <= gtHi ==> ec[f[i]] > med)
    && (forall i :: gtHi < i <= hi ==> ec[f[i]] == med)
  }

  method ScanUp(fmap: array<int>, eclass: array<int>, lo: nat, hi: nat, med: int,
                ltLo: int, unLo: int, unHi: int, gtHi: int) returns (ltLo': int, unLo': int)
    requires fmap != eclass && Indexes(fmap[..], eclass[..], lo, hi)
    requires Parting(fmap[..], eclass[..], lo, hi, med, ltLo, unLo, unHi, gtHi)
    modifies fmap
    ensures Rearranged(old(fmap[..]), fmap[..], lo, hi) && Indexes(fmap[..], eclass[..], lo, hi)
    ensures Parting(fmap[..], eclass[..], lo, hi, med, ltLo', unLo', unHi, gtHi)
    ensures unLo' >= unLo && (unLo' <= unHi ==> eclass[fmap[unLo']] > med)
  {
    hide Rearranged;
    ghost var f0, ec := fmap[..], eclass[..];
    RearrangedSelf(f0, lo, hi);
    ltLo', unLo' := ltLo, unLo;
    while true
      invariant eclass[..] == ec && Indexes(fmap[..], ec, lo, hi)
      invariant Rearranged(f0, fmap[..], lo, hi)
      invariant unLo' >= unLo && Parting(fmap[..], ec, lo, hi, med, ltLo', unLo', unHi, gtHi)
      decreases unHi + 1 - unLo'
    {
      if unLo' > unHi { break; }
      var n := eclass[fmap[unLo']] - med;
      if n == 0 {
        ghost var f := fmap[..];
        SwapRearranges(f, unLo', ltLo', lo, hi);
        Swap(fmap, unLo', ltLo');
        RearrangedTransitive(f0, f, fmap[..], lo, hi);
        ltLo', unLo' := ltLo' + 1, unLo' + 1;
        continue;
      }
      if n > 0 { break; }
      unLo' := unLo' + 1;
    }
  }

  method ScanDown(fmap: array<int>, eclass: array<int>, lo: nat, hi: nat, med: int,
                  ltLo: int, unLo: int, unHi: int, gtHi: int) returns (unHi': int, gtHi': int)
    requires fmap != eclass && Indexes(fmap[..], eclass[..], lo, hi)
    requires Parting(fmap[..], eclass[..], lo, hi, med, ltLo, unLo, unHi, gtHi)
    requires unLo <= unHi ==> eclass[fmap[unLo]] > med
    modifies fmap
    ensures Rearranged(old(fmap[..]), fmap[..], lo, hi) && Indexes(fmap[..], eclass[..], lo, hi)
    ensures Parting(fmap[..], eclass[..], lo, hi, med, ltLo, unLo, unHi', gtHi')
    ensures unHi' <= unHi && (unLo <= unHi' ==> unLo < unHi' && eclass[fmap[unLo]] > med && eclass[fmap[unHi']] < med)
  {
    hide Rearranged;
    ghost var f0, ec := fmap[..], eclass[..];
    RearrangedSelf(f0, lo, hi);
    unHi', gtHi' := unHi, gtHi;
    while true
      invariant eclass[..] == ec && Indexes(fmap[..], ec, lo, hi)
      invariant Rearranged(f0, fmap[..], lo, hi)
      invariant unHi' <= unHi && Parting(fmap[..], ec, lo, hi, med, ltLo, unLo, unHi', gtHi')
      invariant unLo <= unHi' ==> ec[fmap[unLo]] > med
      decreases unHi' + 1 - unLo
    {
      if unLo > unHi' { break; }
      var n := eclass[fmap[unHi']] - med;
      if n == 0 {
        ghost var f := fmap[..];
        SwapRearranges(f, unHi', gtHi', lo, hi);
        Swap(fmap, unHi', gtHi');
        RearrangedTransitive(f0, f, fmap[..], lo, hi);
        unHi', gtHi' := unHi' - 1, gtHi' - 1;
        continue;
      }
      if n < 0 { break; }
      unHi' := unHi' - 1;
    }
  }

  /** The partition loop: the middle is used up and the ends hold the entries equal to med. */
  method PartitionLoop(fmap: array<int>, eclass: array<int>, lo: nat, hi: nat, med: int)
    returns (ltLo: int, unLo: int, unHi: int, gtHi: int)
    requires fmap != eclass && lo <= hi && Indexes(fmap[..], eclass[..], lo, hi)
    modifies fmap
    ensures Rearranged(old(fmap[..]), fmap[..], lo, hi) && Indexes(fmap[..], eclass[..], lo, hi)
    ensures unLo == unHi + 1
    ensures Parting(fmap[..], eclass[..], lo, hi, med, ltLo, unLo, unHi, gtHi)
  {
    hide Rearranged;
    ghost var f0, ec := fmap[..], eclass[..];
    RearrangedSelf(f0, lo, hi);
    ltLo, unLo, unHi, gtHi := lo, lo, hi, hi;
    while true
      invariant eclass[..] == ec && Indexes(fmap[..], ec, lo, hi)
      invariant Rearranged(f0, fmap[..], lo, hi)
      invariant Parting(fmap[..], ec, lo, hi, med, ltLo, unLo, unHi, gtHi)
      decreases unHi + 1 - unLo
    {
      ghost var f1 := fmap[..];
      ltLo, unLo := ScanUp(fmap, eclass, lo, hi, med, ltLo, unLo, unHi, gtHi);
      ghost var f2 := fmap[..];
      unHi, gtHi := ScanDown(fmap, eclass, lo, hi, med, ltLo, unLo, unHi, gtHi);
      RearrangedTransitive(f0, f1, f2, lo, hi);
      RearrangedTransitive(f0, f2, fmap[..], lo, hi);
      if unLo > unHi { break; }
      ghost var f := fmap[..];
      SwapRearranges(f, unLo, unHi, lo, hi);
      Swap(fmap, unLo, unHi);
      RearrangedTransitive(f0, f, fmap[..], lo, hi);
      unLo, unHi := unLo + 1, unHi - 1;
    }
  }

  /** The finished partition: below med up to n, equal to it between, above it from m on. */
  ghost predicate Split3(f: seq<int>, ec: seq<int>, lo: int, hi: int, med: int, n: int, m: int)
    requires Indexes(f, ec, lo, hi)
  {
    && lo - 1 <= n < m <= hi + 1
    && (forall i :: lo <= i <= n ==> ec[f[i]] < med)
    && (forall i :: n < i < m ==> ec[f[i]] == med)
    && (forall i :: m <= i <= hi ==> ec[f[i]] > med)
  }

  /** After the first fvswap the left end reads: below med, then equal to med. */
  lemma LeftGathered(f0: seq<int>, f: seq<int>, ec: seq<int>, lo: int, hi: int, med: int, ltLo: int, unLo: int, n: int)
    requires Indexes(f0, ec, lo, hi) && Indexes(f, ec, lo, hi)
    requires lo <= ltLo <= unLo <= hi + 1
    requires forall i :: lo <= i < ltLo ==> ec[f0[i]] == med
    requires forall i :: ltLo <= i < unLo ==> ec[f0[i]] < med
    requires n == (if ltLo - lo < unLo - ltLo then ltLo - lo else unLo - ltLo)
    requires VSwapped(f0, f, lo, unLo - n, n)
    ensures forall i :: lo <= i < lo + unLo - ltLo ==> ec[f[i]] < med
    ensures forall i :: lo + unLo - ltLo <= i < unLo ==> ec[f[i]] == med
    ensures forall i :: unLo <= i <= hi ==> f[i] == f0[i]
  {
  }

  lemma RightGathered(f0: seq<int>, f: seq<int>, ec: seq<int>, lo: int, hi: int, med: int, unLo: int, gtHi: int, m: int)
    requires Indexes(f0, ec, lo, hi) && Indexes(f, ec, lo, hi)
    requires lo <= unLo && unLo - 1 <= gtHi <= hi
    requires forall i :: unLo <= i <= gtHi ==> ec[f0[i]] > med
    requires forall i :: gtHi < i <= hi ==> ec[f0[i]] == med
    requires m == (if hi - gtHi < gtHi - unLo + 1 then hi - gtHi else gtHi - unLo + 1)
    requires VSwapped(f0, f, unLo, hi - m + 1, m)
    ensures forall i :: unLo <= i <= unLo + hi - gtHi - 1 ==> ec[f[i]] == med
    ensures forall i :: unLo + hi - gtHi <= i <= hi ==> ec[f[i]] > med
    ensures forall i :: lo <= i < unLo ==> f[i] == f0[i]
  {
  }

  method Gather(fmap: array<int>, eclass: array<int>, lo: nat, hi: nat, med: int,
                ltLo: int, unLo: int, unHi: int, gtHi: int) returns (n: int, m: int)
    requires fmap != eclass && Indexes(fmap[..], eclass[..], lo, hi)
    requires unLo == unHi + 1 && Parting(fmap[..], eclass[..], lo, hi, med, ltLo, unLo, unHi, gtHi)
    modifies fmap
    ensures Rearranged(old(fmap[..]), fmap[..], lo, hi) && Indexes(fmap[..], eclass[..], lo, hi)
    ensures n == lo + unLo - ltLo - 1 && m == hi - (gtHi - unHi) + 1
    ensures forall i :: lo <= i <= n ==> eclass[fmap[i]] < med
    ensures forall i :: n < i < m ==> eclass[fmap[i]] == med
    ensures forall i :: m <= i <= hi ==> eclass[fmap[i]] > med
  {
    hide Rearranged, VSwapped;
    ghost var f0, ec := fmap[..], eclass[..];
    n := if ltLo - lo < unLo - ltLo then ltLo - lo else unLo - ltLo;
    VSwap(fmap, lo, unLo - n, n);
    ghost var f1 := fmap[..];
    RearrangedWider(f0, f1, lo, unLo - 1, lo, hi);
    IndexesRearranged(f0, f1, ec, lo, hi);
    LeftGathered(f0, f1, ec, lo, hi, med, ltLo, unLo, n);
    m := if hi - gtHi < gtHi - unHi then hi - gtHi else gtHi - unHi;
    VSwap(fmap, unLo, hi - m + 1, m);
    ghost var f2 := fmap[..];
    RearrangedWider(f1, f2, unLo, hi, lo, hi);
    RearrangedTransitive(f0, f1, f2, lo, hi);
    IndexesRearranged(f1, f2, ec, lo, hi);
    RightGathered(f1, f2, ec, lo, hi, med, unLo, gtHi, m);
    n := lo + unLo - ltLo - 1;
    m := hi - (gtHi - unHi) + 1;
  }

  /** One partition around a class that occurs in the stretch. */
  method Partition(fmap: array<int>, eclass: array<int>, lo: nat, hi: nat, med: int) returns (same: bool, n: int, m: int)
    requires fmap != eclass && lo <= hi && Indexes(fmap[..], eclass[..], lo, hi)
    requires exists i :: lo <= i <= hi && eclass[fmap[i]] == med
    modifies fmap
    ensures Rearranged(old(fmap[..]), fmap[..], lo, hi) && Indexes(fmap[..], eclass[..], lo, hi)
    ensures same ==> forall i :: lo <= i <= hi ==> eclass[fmap[i]] == med
    ensures !same ==> n + 1 < m && Split3(fmap[..], eclass[..], lo, hi, med, n, m)
  {
    hide Rearranged;
    ghost var f0, ec := fmap[..], eclass[..];
    var ltLo, unLo, unHi, gtHi := PartitionLoop(fmap, eclass, lo, hi, med);
    if gtHi < ltLo { return true, lo, hi; }
    ghost var f1 := fmap[..];
    n, m := Gather(fmap, eclass, lo, hi, med, ltLo, unLo, unHi, gtHi);
    RearrangedTransitive(f0, f1, fmap[..], lo, hi);
    same := false;
    MedSurvives(f0, fmap[..], ec, lo, hi, med);
  }

  lemma MedSurvives(f0: seq<int>, f: seq<int>, ec: seq<int>, lo: int, hi: int, med: int)
    requires Rearranged(f0, f, lo, hi) && Indexes(f0, ec, lo, hi) && Indexes(f, ec, lo, hi)
    requires exists i :: lo <= i <= hi && ec[f0[i]] == med
    ensures exists i :: lo <= i <= hi && ec[f[i]] == med
  {
    var i :| lo <= i <= hi && ec[f0[i]] == med;
    var j := CameFrom(f, f0, lo, hi, i);
    assert ec[f[j]] == med;
  }

  // ---------------------------------------------------------------- the explicit stack

  datatype Stretch = Stretch(lo: int, hi: int) {
    function Size(): int { hi - lo + 1 }
  }

  /** i and j are still to be ordered relative to each other. */
  ghost predicate Together(stk: seq<Stretch>, i: int, j: int) {
    exists s :: 0 <= s < |stk| && stk[s].lo <= i && j <= stk[s].hi
  }

  /** The stretches on the stack are disjoint, and everything else is in order. */
  ghost predicate Pending(f: seq<int>, ec: seq<int>, lo: int, hi: int, stk: seq<Stretch>)
    requires Indexes(f, ec, lo, hi)
  {
    && (forall s :: 0 <= s < |stk| ==> lo <= stk[s].lo <= stk[s].hi + 1 <= hi + 1)
    && (forall s, t :: 0 <= s < t < |stk| ==> stk[s].hi < stk[t].lo || stk[t].hi < stk[s].lo)
    && (forall i, j :: lo <= i < j <= hi ==> Together(stk, i, j) || ec[f[i]] <= ec[f[j]])
  }

  ghost predicate Refines(f: seq<int>, ec: seq<int>, top: Stretch, parts: seq<Stretch>)
    requires Indexes(f, ec, top.lo, top.hi)
  {
    && (forall s :: 0 <= s < |parts| ==> top.lo <= parts[s].lo <= parts[s].hi + 1 <= top.hi + 1)
    && (forall s, t :: 0 <= s < t < |parts| ==> parts[s].hi < parts[t].lo || parts[t].hi < parts[s].lo)
    && (forall i, j :: top.lo <= i < j <= top.hi ==> Together(parts, i, j) || ec[f[i]] <= ec[f[j]])
  }

  lemma OrderKept(f0: seq<int>, f: seq<int>, ec: seq<int>, lo: int, hi: int, rest: seq<Stretch>, top: Stretch,
                  i: int, j: int)
    requires Indexes(f0, ec, lo, hi) && Indexes(f, ec, lo, hi)
    requires Pending(f0, ec, lo, hi, rest + [top]) && Rearranged(f0, f, top.lo, top.hi)
    requires lo <= i < j <= hi && !(top.lo <= i && j <= top.hi)
    ensures Together(rest, i, j) || ec[f[i]] <= ec[f[j]]
  {
    var stk := rest + [top];
    assert stk[|rest|] == top;
    var i', j' := i, j;
    if top.lo <= i <= top.hi { i' := CameFrom(f0, f, top.lo, top.hi, i); }
    if top.lo <= j <= top.hi { j' := CameFrom(f0, f, top.lo, top.hi, j); }
    assert f[i] == f0[i'] && f[j] == f0[j'] && i' < j';
    if Together(stk, i', j') {
      var s :| 0 <= s < |stk| && stk[s].lo <= i' && j' <= stk[s].hi;
      assert s < |rest|;
      assert rest[s] == stk[s];
      assert i' == i && j' == j;
    }
  }

  lemma ReplaceTop(f0: seq<int>, f: seq<int>, ec: seq<int>, lo: int, hi: int, rest: seq<Stretch>, top: Stretch,
                   parts: seq<Stretch>)
    requires Indexes(f0, ec, lo, hi) && Indexes(f, ec, lo, hi) && Indexes(f, ec, top.lo, top.hi)
    requires Pending(f0, ec, lo, hi, rest + [top]) && Rearranged(f0, f, top.lo, top.hi)
    requires Refines(f, ec, top, parts)
    ensures Pending(f, ec, lo, hi, rest + parts)
  {
    hide Rearranged;
    var stk := rest + parts;
    var was := rest + [top];
    assert was[|rest|] == top;
    assert forall s :: 0 <= s < |rest| ==> was[s] == rest[s] && stk[s] == rest[s];
    assert forall s :: |rest| <= s < |stk| ==> stk[s] == parts[s - |rest|];
    forall i, j | lo <= i < j <= hi ensures Together(stk, i, j) || ec[f[i]] <= ec[f[j]] {
      if !(top.lo <= i && j <= top.hi) { OrderKept(f0, f, ec, lo, hi, rest, top, i, j); }
      if Together(rest, i, j) || Together(parts, i, j) { TogetherIn(rest, parts, i, j); }
    }
  }

  lemma TogetherIn(rest: seq<Stretch>, parts: seq<Stretch>, i: int, j: int)
    requires Together(rest, i, j) || Together(parts, i, j)
    ensures Together(rest + parts, i, j)
  {
    var stk := rest + parts;
    if Together(rest, i, j) {
      var s :| 0 <= s < |rest| && rest[s].lo <= i && j <= rest[s].hi;
      assert stk[s] == rest[s];
    } else {
      var s :| 0 <= s < |parts| && parts[s].lo <= i && j <= parts[s].hi;
      assert stk[|rest| + s] == parts[s];
    }
  }

  /** Each stretch is at most half the size of what lay below it when it was pushed. */
  ghost predicate Shrinking(stk: seq<Stretch>, n: int) {
    forall s :: 0 <= s < |stk| ==> stk[s].Size() * Pow2(s) <= n
  }

  lemma ShrinkingPush(rest: seq<Stretch>, top: Stretch, a: Stretch, b: Stretch, n: int)
    requires Shrinking(rest + [top], n)
    requires 0 <= a.Size() <= top.Size() && 0 <= b.Size() && 2 * b.Size() <= top.Size()
    ensures Shrinking(rest + [a], n) && Shrinking(rest + [a, b], n) && Shrinking(rest, n)
  {
    var was, k := rest + [top], |rest|;
    assert was[k] == top;
    assert forall s :: 0 <= s < k ==> was[s] == rest[s];
    MulMonotone(a.Size(), top.Size(), Pow2(k));
    MulMonotone(2 * b.Size(), top.Size(), Pow2(k));
    assert b.Size() * Pow2(k + 1) == 2 * b.Size() * Pow2(k);
  }

  lemma MulMonotone(a: int, b: int, p: nat)
    requires a <= b
    ensures a * p <= b * p
  {
  }

  lemma Pow2Thirty()
    ensures Pow2(30) == 0x40000000
  {
    assert Pow2(6) == 0x40;
    hide Pow2;
    Pow2Sum(6, 6);
    Pow2Sum(12, 12);
    Pow2Sum(24, 6);
  }

  /** A stretch long enough to be partitioned lies low on the stack. */
  lemma StackIsShallow(stk: seq<Stretch>, n: int)
    requires Shrinking(stk, n) && n <= 0x7fffffff && |stk| > 0
    requires stk[|stk| - 1].Size() >= 11
    ensures |stk| <= 30
  {
    var k := |stk| - 1;
    if k >= 30 {
      Pow2Thirty();
      hide Pow2;
      Pow2Grows(30, k);
      MulMonotone(11, stk[k].Size(), Pow2(k));
      assert false;
    }
  }

  function TotalWork(stk: seq<Stretch>): int {
    if |stk| == 0 then 0 else TotalWork(stk[..|stk| - 1]) + 2 * stk[|stk| - 1].Size() + 1
  }

  lemma {:induction false} WorkNonNegative(stk: seq<Stretch>)
    requires forall s :: 0 <= s < |stk| ==> stk[s].Size() >= 0
    ensures TotalWork(stk) >= 0
  {
    if |stk| > 0 { WorkNonNegative(stk[..|stk| - 1]); }
  }

  lemma WorkPush(rest: seq<Stretch>, a: Stretch, b: Stretch)
    ensures TotalWork(rest + [a]) == TotalWork(rest) + 2 * a.Size() + 1
    ensures TotalWork(rest + [a, b]) == TotalWork(rest) + 2 * a.Size() + 2 * b.Size() + 2
  {
    assert (rest + [a])[..|rest|] == rest;
    assert (rest + [a, b])[..|rest| + 1] == rest + [a];
  }

  /** The first sp slots of the two stack arrays. */
  ghost predicate OnStack(lo: array<int>, hi: array<int>, sp: nat, stk: seq<Stretch>)
    reads lo, hi
  {
    && |stk| == sp <= lo.Length == hi.Length
    && forall s :: 0 <= s < sp ==> lo[s] == stk[s].lo && hi[s] == stk[s].hi
  }

  method Push(stackLo: array<int>, stackHi: array<int>, sp: nat, lz: int, hz: int, ghost stk: seq<Stretch>)
    requires stackLo != stackHi && OnStack(stackLo, stackHi, sp, stk) && sp < stackLo.Length
    modifies stackLo, stackHi
    ensures OnStack(stackLo, stackHi, sp + 1, stk + [Stretch(lz, hz)])
  {
    stackLo[sp], stackHi[sp] := lz, hz;
  }

  /** The stretches and their sizes, as fallbackQSort3 keeps them. */
  ghost predicate Stacked(f: seq<int>, ec: seq<int>, lo: int, hi: int, stk: seq<Stretch>) {
    && Indexes(f, ec, lo, hi) && Pending(f, ec, lo, hi, stk) && Shrinking(stk, hi - lo + 1)
  }

  lemma StackedStart(f: seq<int>, ec: seq<int>, lo: int, hi: int)
    requires Indexes(f, ec, lo, hi) && lo <= hi + 1
    ensures Stacked(f, ec, lo, hi, [Stretch(lo, hi)])
  {
    var stk := [Stretch(lo, hi)];
    forall i, j | lo <= i < j <= hi ensures Together(stk, i, j) {
      assert stk[0].lo <= i && j <= stk[0].hi;
    }
  }

  lemma StackedEnd(f: seq<int>, ec: seq<int>, lo: int, hi: int)
    requires Stacked(f, ec, lo, hi, [])
    ensures Indexes(f, ec, lo, hi) && SortedBy(f, ec, lo, hi)
  {
    forall i, j | lo <= i < j <= hi ensures ec[f[i]] <= ec[f[j]] {
      assert !Together([], i, j);
    }
  }

  lemma StackedTop(f: seq<int>, ec: seq<int>, lo: int, hi: int, rest: seq<Stretch>, top: Stretch)
    requires Stacked(f, ec, lo, hi, rest + [top])
    ensures lo <= top.lo <= top.hi + 1 <= hi + 1 && Indexes(f, ec, top.lo, top.hi)
    ensures hi < 0x7fffffff && 0 <= lo && top.Size() >= 11 ==> |rest| < 30
  {
    var stk := rest + [top];
    assert stk[|rest|] == top;
    if hi < 0x7fffffff && 0 <= lo && top.Size() >= 11 { StackIsShallow(stk, hi - lo + 1); }
  }

  /** The top stretch has been put in order: drop it. */
  lemma StackedSorted(f0: seq<int>, f: seq<int>, ec: seq<int>, lo: int, hi: int, rest: seq<Stretch>, top: Stretch)
    requires Stacked(f0, ec, lo, hi, rest + [top])
    requires Rearranged(f0, f, top.lo, top.hi) && Indexes(f, ec, lo, hi) && Indexes(f, ec, top.lo, top.hi)
    requires SortedBy(f, ec, top.lo, top.hi)
    ensures Stacked(f, ec, lo, hi, rest)
  {
    var stk := rest + [top];
    assert forall s :: 0 <= s < |rest| ==> stk[s] == rest[s];
    ReplaceTop(f0, f, ec, lo, hi, rest, top, []);
    assert rest + [] == rest;
  }

  /** The top stretch has been partitioned: push the larger part, then the smaller. */
  lemma StackedSplit(f0: seq<int>, f: seq<int>, ec: seq<int>, lo: int, hi: int, rest: seq<Stretch>, top: Stretch,
                     med: int, n: int, m: int, a: Stretch, b: Stretch)
    requires Stacked(f0, ec, lo, hi, rest + [top])
    requires Rearranged(f0, f, top.lo, top.hi) && Indexes(f, ec, lo, hi) && Indexes(f, ec, top.lo, top.hi)
    requires Split3(f, ec, top.lo, top.hi, med, n, m) && n + 1 < m
    requires a.Size() >= b.Size()
    requires (a == Stretch(top.lo, n) && b == Stretch(m, top.hi)) || (b == Stretch(top.lo, n) && a == Stretch(m, top.hi))
    ensures Stacked(f, ec, lo, hi, rest + [a, b])
    ensures TotalWork(rest + [a, b]) < TotalWork(rest + [top])
    ensures Stacked(f0, ec, lo, hi, rest + [top])
  {
    SplitRefines(f, ec, top, med, n, m, a, b);
    ReplaceTop(f0, f, ec, lo, hi, rest, top, [a, b]);
    ShrinkingPush(rest, top, a, b, hi - lo + 1);
    WorkPush(rest, a, b);
    WorkPush(rest, top, top);
  }

  lemma SplitRefines(f: seq<int>, ec: seq<int>, top: Stretch, med: int, n: int, m: int, a: Stretch, b: Stretch)
    requires Indexes(f, ec, top.lo, top.hi) && Split3(f, ec, top.lo, top.hi, med, n, m) && n + 1 < m
    requires (a == Stretch(top.lo, n) && b == Stretch(m, top.hi)) || (b == Stretch(top.lo, n) && a == Stretch(m, top.hi))
    ensures Refines(f, ec, top, [a, b])
  {
    var parts := [a, b];
    forall i, j | top.lo <= i < j <= top.hi ensures Together(parts, i, j) || ec[f[i]] <= ec[f[j]] {
      if j <= n || m <= i {
        assert (parts[0].lo <= i && j <= parts[0].hi) || (parts[1].lo <= i && j <= parts[1].hi);
      }
    }
  }

  /** One turn of the loop of fallbackQSort3: take the top stretch, sort it or split it. */
  method SortTop(fmap: array<int>, eclass: array<int>, ghost loSt: nat, ghost hiSt: nat,
                 stackLo: array<int>, stackHi: array<int>, sp: nat, r: nat, ghost stk: seq<Stretch>)
    returns (sp': nat, r': nat, ghost stk': seq<Stretch>)
    requires stackLo != stackHi && stackLo.Length == 100 && 0 < sp <= 98
    requires fmap != eclass && fmap != stackLo && fmap != stackHi && eclass != stackLo && eclass != stackHi
    requires OnStack(stackLo, stackHi, sp, stk) && hiSt < 0x7fffffff
    requires Stacked(fmap[..], eclass[..], loSt, hiSt, stk)
    modifies fmap, stackLo, stackHi
    ensures sp' <= 98 && OnStack(stackLo, stackHi, sp', stk')
    ensures Stacked(fmap[..], eclass[..], loSt, hiSt, stk')
    ensures Rearranged(old(fmap[..]), fmap[..], loSt, hiSt)
    ensures 0 <= TotalWork(stk') < TotalWork(stk)
  {
    hide Rearranged, Stacked, SortedBy, Split3, TotalWork;
    ghost var f, ec := fmap[..], eclass[..];
    assert sp < 100 - 1;
    var lo, hi := stackLo[sp - 1], stackHi[sp - 1];
    ghost var rest, top := stk[..sp - 1], Stretch(lo, hi);
    assert stk == rest + [top];
    StackedTop(f, ec, loSt, hiSt, rest, top);
    r' := r;
    if hi - lo < 10 {
      FallbackSimpleSort(fmap, eclass, lo, hi);
      DropSorted(f, fmap[..], ec, loSt, hiSt, rest, top);
      return sp - 1, r', rest;
    }
    r' := (r * 7621 + 1) % 32768;
    var r3 := r' % 3;
    var at := if r3 == 0 then lo else if r3 == 1 then (lo + hi) / 2 else hi;
    var med := eclass[fmap[at]];
    var same, n, m := Partition(fmap, eclass, lo, hi, med);
    if same {
      AllSameSorted(fmap[..], ec, lo, hi, med);
      DropSorted(f, fmap[..], ec, loSt, hiSt, rest, top);
      return sp - 1, r', rest;
    }
    ghost var a, b := if n - lo > hi - m then Stretch(lo, n) else Stretch(m, hi),
                      if n - lo > hi - m then Stretch(m, hi) else Stretch(lo, n);
    RearrangedWider(f, fmap[..], lo, hi, loSt, hiSt);
    StackedIndexes(f, fmap[..], ec, loSt, hiSt, stk);
    StackedSplit(f, fmap[..], ec, loSt, hiSt, rest, top, med, n, m, a, b);
    if n - lo > hi - m {
      Push(stackLo, stackHi, sp - 1, lo, n, rest);
      Push(stackLo, stackHi, sp, m, hi, rest + [a]);
    } else {
      Push(stackLo, stackHi, sp - 1, m, hi, rest);
      Push(stackLo, stackHi, sp, lo, n, rest + [a]);
    }
    assert rest + [a] + [b] == rest + [a, b];
    StackedWork(fmap[..], ec, loSt, hiSt, rest + [a, b]);
    return sp + 1, r', rest + [a, b];
  }

  lemma StackedWork(f: seq<int>, ec: seq<int>, lo: int, hi: int, stk: seq<Stretch>)
    requires Stacked(f, ec, lo, hi, stk)
    ensures TotalWork(stk) >= 0
  {
    WorkNonNegative(stk);
  }

  lemma StackedIndexes(f0: seq<int>, f: seq<int>, ec: seq<int>, lo: int, hi: int, stk: seq<Stretch>)
    requires Stacked(f0, ec, lo, hi, stk) && Rearranged(f0, f, lo, hi)
    ensures Indexes(f, ec, lo, hi)
  {
    IndexesRearranged(f0, f, ec, lo, hi);
  }

  lemma AllSameSorted(f: seq<int>, ec: seq<int>, lo: int, hi: int, med: int)
    requires Indexes(f, ec, lo, hi) && forall i :: lo <= i <= hi ==> ec[f[i]] == med
    ensures SortedBy(f, ec, lo, hi)
  {
  }

  lemma DropSorted(f0: seq<int>, f: seq<int>, ec: seq<int>, lo: int, hi: int, rest: seq<Stretch>, top: Stretch)
    requires Stacked(f0, ec, lo, hi, rest + [top])
    requires Rearranged(f0, f, top.lo, top.hi) && Indexes(f, ec, top.lo, top.hi)
    requires SortedBy(f, ec, top.lo, top.hi)
    ensures Stacked(f, ec, lo, hi, rest) && Rearranged(f0, f, lo, hi)
    ensures 0 <= TotalWork(rest) < TotalWork(rest + [top])
  {
    hide Rearranged, SortedBy;
    StackedTop(f0, ec, lo, hi, rest, top);
    RearrangedWider(f0, f, top.lo, top.hi, lo, hi);
    StackedIndexes(f0, f, ec, lo, hi, rest + [top]);
    StackedSorted(f0, f, ec, lo, hi, rest, top);
    WorkPush(rest, top, top);
    StackedWork(f, ec, lo, hi, rest);
  }

  /** fallbackQSort3 sorts its stretch by class; its stack of 100 never overflows. */
  method FallbackQSort3(fmap: array<int>, eclass: array<int>, loSt: nat, hiSt: nat)
    requires fmap != eclass && loSt <= hiSt < 0x7fffffff && Indexes(fmap[..], eclass[..], loSt, hiSt)
    modifies fmap
    ensures Rearranged(old(fmap[..]), fmap[..], loSt, hiSt)
    ensures Indexes(fmap[..], eclass[..], loSt, hiSt) && SortedBy(fmap[..], eclass[..], loSt, hiSt)
  {
    hide Rearranged, Stacked, Indexes, SortedBy;
    ghost var f0, ec := fmap[..], eclass[..];
    RearrangedSelf(f0, loSt, hiSt);
    StackedStart(f0, ec, loSt, hiSt);
    var stackLo, stackHi := new int[100], new int[100];
    var r, sp := 0, 0;
    Push(stackLo, stackHi, sp, loSt, hiSt, []);
    ghost var stk := [Stretch(loSt, hiSt)];
    sp := 1;
    while sp > 0
      invariant sp <= 98 && OnStack(stackLo, stackHi, sp, stk)
      invariant eclass[..] == ec && Stacked(fmap[..], ec, loSt, hiSt, stk)
      invariant Rearranged(f0, fmap[..], loSt, hiSt)
      decreases TotalWork(stk)
    {
      ghost var f := fmap[..];
      sp, r, stk := SortTop(fmap, eclass, loSt, hiSt, stackLo, stackHi, sp, r, stk);
      RearrangedTransitive(f0, f, fmap[..], loSt, hiSt);
    }
    assert stk == [];
    StackedEnd(fmap[..], ec, loSt, hiSt);
  }
}
