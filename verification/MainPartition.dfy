/** The three-way partition of mainQSort3 (blocksort.c), by the byte d places into each
    rotation. */
module MainPartition {
  import opened PrefixOrder
  import opened MainOrder
  import opened FallbackQSort
  import opened MainSimpleSort

  /** mmed3. */
  function Med3(a: int, b: int, c: int): (m: int)
    ensures m == a || m == b || m == c
    ensures (a <= m || b <= m) && (a <= m || c <= m) && (b <= m || c <= m)
    ensures (a >= m || b >= m) && (a >= m || c >= m) && (b >= m || c >= m)
  {
    var a', b' := if a > b then b else a, if a > b then a else b;
    if b' > c then if a' > c then a' else c else b'
  }

  method ScanUp(ptr: array<int>, block: array<int>, d: nat, lo: nat, hi: nat, med: int,
                ltLo: int, unLo: int, unHi: int, gtHi: int) returns (ltLo': int, unLo': int)
    requires ptr != block && d <= block.Length && Indexes(ptr[..], block[d..], lo, hi)
    requires Parting(ptr[..], block[d..], lo, hi, med, ltLo, unLo, unHi, gtHi)
    modifies ptr
    ensures Rearranged(old(ptr[..]), ptr[..], lo, hi) && Indexes(ptr[..], block[d..], lo, hi)
    ensures Parting(ptr[..], block[d..], lo, hi, med, ltLo', unLo', unHi, gtHi)
    ensures unLo' >= unLo && (unLo' <= unHi ==> block[d..][ptr[unLo']] > med)
  {
    hide Rearranged;
    ghost var f0, ec := ptr[..], block[d..];
    RearrangedSelf(f0, lo, hi);
    ltLo', unLo' := ltLo, unLo;
    while true
      invariant block[d..] == ec && Indexes(ptr[..], ec, lo, hi)
      invariant Rearranged(f0, ptr[..], lo, hi)
      invariant unLo' >= unLo && Parting(ptr[..], ec, lo, hi, med, ltLo', unLo', unHi, gtHi)
      decreases unHi + 1 - unLo'
    {
      if unLo' > unHi { break; }
      assert block[ptr[unLo'] + d] == ec[ptr[unLo']];
      var n := block[ptr[unLo'] + d] - med;
      if n == 0 {
        ghost var f := ptr[..];
        SwapRearranges(f, unLo', ltLo', lo, hi);
        Swap(ptr, unLo', ltLo');
        RearrangedTransitive(f0, f, ptr[..], lo, hi);
        ltLo', unLo' := ltLo' + 1, unLo' + 1;
        continue;
      }
      if n > 0 { break; }
      unLo' := unLo' + 1;
    }
  }

  method ScanDown(ptr: array<int>, block: array<int>, d: nat, lo: nat, hi: nat, med: int,
                  ltLo: int, unLo: int, unHi: int, gtHi: int) returns (unHi': int, gtHi': int)
    requires ptr != block && d <= block.Length && Indexes(ptr[..], block[d..], lo, hi)
    requires Parting(ptr[..], block[d..], lo, hi, med, ltLo, unLo, unHi, gtHi)
    requires unLo <= unHi ==> block[d..][ptr[unLo]] > med
    modifies ptr
    ensures Rearranged(old(ptr[..]), ptr[..], lo, hi) && Indexes(ptr[..], block[d..], lo, hi)
    ensures Parting(ptr[..], block[d..], lo, hi, med, ltLo, unLo, unHi', gtHi')
    ensures unHi' <= unHi && (unLo <= unHi' ==> unLo < unHi' && block[d..][ptr[unLo]] > med && block[d..][ptr[unHi']] < med)
  {
    hide Rearranged;
    ghost var f0, ec := ptr[..], block[d..];
    RearrangedSelf(f0, lo, hi);
    unHi', gtHi' := unHi, gtHi;
    while true
      invariant block[d..] == ec && Indexes(ptr[..], ec, lo, hi)
      invariant Rearranged(f0, ptr[..], lo, hi)
      invariant unHi' <= unHi && Parting(ptr[..], ec, lo, hi, med, ltLo, unLo, unHi', gtHi')
      invariant unLo <= unHi' ==> ec[ptr[unLo]] > med
      decreases unHi' + 1 - unLo
    {
      if unLo > unHi' { break; }
      assert block[ptr[unHi'] + d] == ec[ptr[unHi']];
      var n := block[ptr[unHi'] + d] - med;
      if n == 0 {
        ghost var f := ptr[..];
        SwapRearranges(f, unHi', gtHi', lo, hi);
        Swap(ptr, unHi', gtHi');
        RearrangedTransitive(f0, f, ptr[..], lo, hi);
        unHi', gtHi' := unHi' - 1, gtHi' - 1;
        continue;
      }
      if n < 0 { break; }
      unHi' := unHi' - 1;
    }
  }

  method PartitionLoop(ptr: array<int>, block: array<int>, d: nat, lo: nat, hi: nat, med: int)
    returns (ltLo: int, unLo: int, unHi: int, gtHi: int)
    requires ptr != block && d <= block.Length && lo <= hi && Indexes(ptr[..], block[d..], lo, hi)
    modifies ptr
    ensures Rearranged(old(ptr[..]), ptr[..], lo, hi) && Indexes(ptr[..], block[d..], lo, hi)
    ensures unLo == unHi + 1
    ensures Parting(ptr[..], block[d..], lo, hi, med, ltLo, unLo, unHi, gtHi)
  {
    hide Rearranged;
    ghost var f0, ec := ptr[..], block[d..];
    RearrangedSelf(f0, lo, hi);
    ltLo, unLo, unHi, gtHi := lo, lo, hi, hi;
    while true
      invariant block[d..] == ec && Indexes(ptr[..], ec, lo, hi)
      invariant Rearranged(f0, ptr[..], lo, hi)
      invariant Parting(ptr[..], ec, lo, hi, med, ltLo, unLo, unHi, gtHi)
      decreases unHi + 1 - unLo
    {
      ghost var f1 := ptr[..];
      ltLo, unLo := ScanUp(ptr, block, d, lo, hi, med, ltLo, unLo, unHi, gtHi);
      ghost var f2 := ptr[..];
      unHi, gtHi := ScanDown(ptr, block, d, lo, hi, med, ltLo, unLo, unHi, gtHi);
      RearrangedTransitive(f0, f1, f2, lo, hi);
      RearrangedTransitive(f0, f2, ptr[..], lo, hi);
      if unLo > unHi { break; }
      ghost var f := ptr[..];
      SwapRearranges(f, unLo, unHi, lo, hi);
      Swap(ptr, unLo, unHi);
      RearrangedTransitive(f0, f, ptr[..], lo, hi);
      unLo, unHi := unLo + 1, unHi - 1;
    }
  }

  /** The entries equal to med are brought to the middle. */
  method Gather(ptr: array<int>, ghost ec: seq<int>, lo: nat, hi: nat, ghost med: int,
                ltLo: int, unLo: int, unHi: int, gtHi: int) returns (n: int, m: int)
    requires Indexes(ptr[..], ec, lo, hi)
    requires unLo == unHi + 1 && Parting(ptr[..], ec, lo, hi, med, ltLo, unLo, unHi, gtHi)
    modifies ptr
    ensures Rearranged(old(ptr[..]), ptr[..], lo, hi) && Indexes(ptr[..], ec, lo, hi)
    ensures n == lo + unLo - ltLo - 1 && m == hi - (gtHi - unHi) + 1
    ensures forall i :: lo <= i <= n ==> ec[ptr[i]] < med
    ensures forall i :: n < i < m ==> ec[ptr[i]] == med
    ensures forall i :: m <= i <= hi ==> ec[ptr[i]] > med
  {
    hide Rearranged, VSwapped;
    ghost var f0 := ptr[..];
    n := if ltLo - lo < unLo - ltLo then ltLo - lo else unLo - ltLo;
    VSwap(ptr, lo, unLo - n, n);
    ghost var f1 := ptr[..];
    RearrangedWider(f0, f1, lo, unLo - 1, lo, hi);
    IndexesRearranged(f0, f1, ec, lo, hi);
    LeftGathered(f0, f1, ec, lo, hi, med, ltLo, unLo, n);
    m := if hi - gtHi < gtHi - unHi then hi - gtHi else gtHi - unHi;
    VSwap(ptr, unLo, hi - m + 1, m);
    ghost var f2 := ptr[..];
    RearrangedWider(f1, f2, unLo, hi, lo, hi);
    RearrangedTransitive(f0, f1, f2, lo, hi);
    IndexesRearranged(f1, f2, ec, lo, hi);
    RightGathered(f1, f2, ec, lo, hi, med, unLo, gtHi, m);
    n := lo + unLo - ltLo - 1;
    m := hi - (gtHi - unHi) + 1;
  }

  /** One partition around a byte that occurs in the stretch. */
  method Partition(ptr: array<int>, block: array<int>, d: nat, lo: nat, hi: nat, med: int) returns (same: bool, n: int, m: int)
    requires ptr != block && d <= block.Length && lo <= hi && Indexes(ptr[..], block[d..], lo, hi)
    requires exists i :: lo <= i <= hi && block[d..][ptr[i]] == med
    modifies ptr
    ensures Rearranged(old(ptr[..]), ptr[..], lo, hi) && Indexes(ptr[..], block[d..], lo, hi)
    ensures same ==> forall i :: lo <= i <= hi ==> block[d..][ptr[i]] == med
    ensures !same ==> n + 1 < m && Split3(ptr[..], block[d..], lo, hi, med, n, m)
  {
    hide Rearranged;
    ghost var f0, ec := ptr[..], block[d..];
    var ltLo, unLo, unHi, gtHi := PartitionLoop(ptr, block, d, lo, hi, med);
    if gtHi < ltLo { return true, lo, hi; }
    ghost var f1 := ptr[..];
    n, m := Gather(ptr, ec, lo, hi, med, ltLo, unLo, unHi, gtHi);
    RearrangedTransitive(f0, f1, ptr[..], lo, hi);
    same := false;
    MedSurvives(f0, ptr[..], ec, lo, hi, med);
  }

  // ---------------------------------------------------------------- what it means for the order

  /** The bytes d places on, as the partition sees them. */
  ghost predicate Keyed(ec: seq<int>, b: seq<int>, d: nat) {
    |b| > 0 && |ec| >= |b| && forall s :: 0 <= s < |b| ==> ec[s] == Sym(b, s, d)
  }

  lemma KeysOf(blk: seq<int>, b: seq<int>, d: nat)
    requires Extended(blk, b) && d <= OVERSHOOT
    ensures d <= |blk| && Keyed(blk[d..], b, d)
  {
    forall s | 0 <= s < |b| ensures blk[d..][s] == Sym(b, s, d) {
      ExtendedAt(blk, b, s + d);
    }
  }

  lemma BundleIndexes(p: seq<int>, b: seq<int>, ec: seq<int>, lo: int, hi: int, d: nat)
    requires Bundle(p, b, lo, hi, d) && Keyed(ec, b, d)
    ensures Indexes(p, ec, lo, hi)
  {
  }

  /** A smaller byte after a common beginning. */
  lemma LowerKey(p: seq<int>, b: seq<int>, ec: seq<int>, lo: int, hi: int, d: nat, i: int, j: int)
    requires Bundle(p, b, lo, hi, d) && Keyed(ec, b, d) && lo <= i <= hi && lo <= j <= hi
    ensures 0 <= p[i] < |ec| && 0 <= p[j] < |ec| && (ec[p[i]] < ec[p[j]] ==> Le(b, p[i], p[j]))
  {
    hide Sym, Le;
    if ec[p[i]] < ec[p[j]] {
      assert EqFor(b, p[i], p[j], d);
      LeByByte(b, p[i], p[j], d);
    }
  }

  /** The same byte after a common beginning makes it longer. */
  lemma SameKeys(p: seq<int>, b: seq<int>, ec: seq<int>, lo: int, hi: int, d: nat, lo': int, hi': int, med: int)
    requires Bundle(p, b, lo, hi, d) && Keyed(ec, b, d) && lo <= lo' && hi' <= hi
    requires forall i :: lo' <= i <= hi' ==> 0 <= p[i] < |ec| && ec[p[i]] == med
    ensures Bundle(p, b, lo', hi', d + 1)
  {
    hide Sym;
    forall i, j | lo' <= i <= hi' && lo' <= j <= hi' ensures EqFor(b, p[i], p[j], d + 1) {
      assert EqFor(b, p[i], p[j], d) && ec[p[i]] == ec[p[j]];
    }
  }

  lemma PartBundle(p: seq<int>, b: seq<int>, lo: int, hi: int, d: nat, lo': int, hi': int)
    requires Bundle(p, b, lo, hi, d) && lo <= lo' && hi' <= hi
    ensures Bundle(p, b, lo', hi', d)
  {
  }
}
