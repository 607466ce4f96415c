/** mainSort (blocksort.c): the big buckets one after the other, the least full first.  For each
    of them its small buckets are sorted, those of other big buckets are filled from it, and its
    order is kept in the quadrants. */
module MainSort {
  import Counting
  import opened InverseTransform
  import opened Rotations
  import opened PrefixOrder
  import opened MainOrder
  import opened MainCompare
  import opened MainSimpleSort
  import opened MainQSort
  import opened MainRadix
  import opened MainBuckets
  import opened MainForward
  import opened MainScan
  import opened MainSweep
  import opened MainQuadrants
  import opened MainRunning
  import F = FallbackQSort

  const RADIX := 2

  /** Small buckets with their flag set are in order; those that begin or end in a finished byte
      have theirs set. */
  ghost predicate Progress(p: seq<int>, b: seq<int>, fl: seq<bool>, done: seq<bool>) {
    && Shaped(p, b) && |fl| == SMALL_BUCKETS && |done| == 256
    && (forall c: nat :: c < SMALL_BUCKETS && fl[c] ==> Ordered(Small(p, b, c), b))
    && forall c: nat :: c < SMALL_BUCKETS && (done[c / 256] || done[c % 256]) ==> fl[c]
  }

  // ---------------------------------------------------------------- flags

  predicate IsMarked(x: int) { (x / SETMASK) % 2 == 1 }

  /** The flag is set, if it is not yet. */
  function Marked(x: int): int { if IsMarked(x) then x else x + SETMASK }

  lemma FlagOf(ft: seq<int>, b: seq<int>, fl: seq<bool>, c: nat)
    requires Flagged(ft, b, fl) && IsBlock(b) && c < SMALL_BUCKETS
    ensures |ft| == SMALL_BUCKETS + 1 && |fl| == SMALL_BUCKETS && (IsMarked(ft[c]) <==> fl[c])
    ensures Flagged(ft[c := Marked(ft[c])], b, fl[c := true])
  {
    hide Start;
    BlockSize(b);
    StartsGrow(b, c, c);
  }

  // ---------------------------------------------------------------- step 1

  /** The rotations of a small bucket share two bytes. */
  lemma SmallBundle(p: seq<int>, b: seq<int>, c: nat)
    requires IsBlock(b) && Shaped(p, b) && c < SMALL_BUCKETS
    ensures Bundle(p, b, Start(b, c), Start(b, c + 1) - 1, RADIX)
  {
    hide Start, IsBlock, Sym, Keys, Shaped;
    ShapedSize(p, b);
    StartsGrow(b, c, c + 1);
    BlockSize(b);
    var lo, hi := Start(b, c), Start(b, c + 1) - 1;
    SmallDistinct(p, b, c);
    forall i | lo <= i <= hi ensures HasKey(b, p[i], c) { KeyBounds(p, b, i, c, c + 1); }
    forall i, j | lo <= i <= hi && lo <= j <= hi ensures EqFor(b, p[i], p[j], RADIX) {
      assert HasKey(b, p[i], c) && HasKey(b, p[j], c);
      SameTwo(b, p[i], p[j]);
    }
  }

  lemma SmallDistinct(p: seq<int>, b: seq<int>, c: nat)
    requires Shaped(p, b) && c < SMALL_BUCKETS && Start(b, c) <= Start(b, c + 1) <= |b|
    ensures |p| == |b| && forall i, j :: Start(b, c) <= i < j < Start(b, c + 1) ==> p[i] != p[j]
  {
    hide Start;
    var s, lo := Small(p, b, c), Start(b, c);
    assert Listing(s, b, c);
    forall i, j | lo <= i < j < Start(b, c + 1) ensures p[i] != p[j] { assert s[i - lo] == p[i] && s[j - lo] == p[j]; }
  }

  lemma SameTwo(b: seq<int>, s: nat, t: nat)
    requires IsBlock(b) && s < |b| && t < |b| && Keys(b)[s] == Keys(b)[t]
    ensures EqFor(b, s, t, 2)
  {
    hide IsBlock, Sym, Keys;
    TwoBytes(b, s);
    TwoBytes(b, t);
  }

  /** Sorting one small bucket leaves the others alone, and loses nothing. */
  lemma SortedSmall(p: seq<int>, q: seq<int>, b: seq<int>, c: nat)
    requires IsBlock(b) && Shaped(p, b) && c < SMALL_BUCKETS && F.Rearranged(p, q, Start(b, c), Start(b, c + 1) - 1)
    ensures |q| == |b| && Shaped(q, b) && forall d: nat :: d < SMALL_BUCKETS && d != c ==> Small(q, b, d) == Small(p, b, d)
  {
    hide Start, IsBlock, Keys, Listing;
    forall d: nat | d < SMALL_BUCKETS && d != c ensures Small(q, b, d) == Small(p, b, d) {
      StartsGrow(b, d, d + 1);
      if d < c { StartsGrow(b, d + 1, c); } else { StartsGrow(b, c + 1, d); }
    }
    SmallRearranged(p, q, b, c);
    forall d: nat | d < SMALL_BUCKETS ensures Listing(Small(q, b, d), b, d) {
      assert Listing(Small(p, b, d), b, d);
    }
  }

  lemma SmallRearranged(p: seq<int>, q: seq<int>, b: seq<int>, c: nat)
    requires IsBlock(b) && Shaped(p, b) && c < SMALL_BUCKETS && F.Rearranged(p, q, Start(b, c), Start(b, c + 1) - 1)
    ensures |q| == |b| && Listing(Small(q, b, c), b, c)
  {
    hide Start, IsBlock, Keys;
    StartsGrow(b, c, c + 1);
    var s, s' := Small(p, b, c), Small(q, b, c);
    assert Listing(s, b, c);
    F.SegmentMultiset(p, q, Start(b, c), Start(b, c + 1) - 1);
    assert multiset(s) == multiset(s');
    forall i | 0 <= i < |s'| ensures HasKey(b, s'[i], c) {
      assert s'[i] in multiset(s');
      assert s'[i] in s;
    }
    DistinctRearranged(s, s');
  }

  lemma SmallInOrder(p: seq<int>, b: seq<int>, c: nat)
    requires |p| == |b| && Start(b, c) <= Start(b, c + 1) <= |b| && InOrder(p, b, Start(b, c), Start(b, c + 1) - 1)
    ensures Ordered(Small(p, b, c), b)
  {
    hide Start, Le;
  }

  lemma FewOrdered(s: seq<int>, b: seq<int>)
    requires |s| <= 1
    ensures Ordered(s, b)
  {
  }

  /** One small bucket is in order now; nothing else has changed. */
  lemma ProgressSmall(p: seq<int>, q: seq<int>, b: seq<int>, fl: seq<bool>, done: seq<bool>, c: nat)
    requires Progress(p, b, fl, done) && c < SMALL_BUCKETS && Shaped(q, b) && Ordered(Small(q, b, c), b)
    requires forall d: nat :: d < SMALL_BUCKETS && d != c ==> Small(q, b, d) == Small(p, b, d)
    ensures Progress(q, b, fl[c := true], done)
  {
    hide Start, Small, Listing, Ordered;
    forall d: nat | d < SMALL_BUCKETS && fl[c := true][d] ensures Ordered(Small(q, b, d), b) {
      if d != c { assert Ordered(Small(p, b, d), b); }
    }
  }

  /** One small bucket is sorted, unless it is known to be in order. */
  method SortSmall(ptr: array<int>, block: array<int>, quadrant: array<int>, ftab: array<int>, nblock: nat, sb: nat, budget: int,
                   ghost b: seq<int>, ghost fl: seq<bool>, ghost done: seq<bool>, ghost e: nat)
      returns (stopped: bool, budget': int)
    requires IsBlock(b) && nblock == |b| && Extended(block[..], b) && Quads(quadrant[..], b) && sb < SMALL_BUCKETS
    requires ptr != block && ptr != quadrant && ptr != ftab && ftab != block && ftab != quadrant
    requires Flagged(ftab[..], b, fl) && Progress(ptr[..], b, fl, done) && Cheap(b, e)
    modifies ptr, ftab
    ensures 0 <= budget - budget' <= Fee(PerEntry(e, ptr.Length), 14 * (Start(b, sb + 1) - Start(b, sb)))
    ensures |fl| == SMALL_BUCKETS && (stopped ==> budget' < 0)
    ensures !stopped ==> Flagged(ftab[..], b, fl[sb := true]) && Progress(ptr[..], b, fl[sb := true], done)
  {
    hide Start, Small, IsBlock, Extended, Quads, Flagged, Progress, Shaped, Bundle, InOrder, Ordered, F.Rearranged, Unmasked, IsMarked, Marked,
         Cheap, Fee, PerEntry;
    ghost var p, ft := ptr[..], ftab[..];
    stopped, budget' := false, budget;
    ProgressShaped(p, b, fl, done);
    BlockSize(b);
    FlagOf(ft, b, fl, sb);
    StartOf(ft, b, fl, sb);
    StartOf(ft, b, fl, sb + 1);
    StartsGrow(b, sb, sb + 1);
    FeeLaws(PerEntry(e, ptr.Length), 14 * (Start(b, sb + 1) - Start(b, sb)), 0);
    if !IsMarked(ftab[sb]) {
      var lo: nat := Unmasked(ftab[sb]);
      var hi := Unmasked(ftab[sb + 1]) - 1;
      if hi > lo {
        SmallBundle(p, b, sb);
        budget' := MainQSort3(ptr, block, quadrant, nblock, lo, hi, RADIX, budget, b, e);
        SortedSmall(p, ptr[..], b, sb);
        if budget' < 0 { return true, budget'; }
        SmallInOrder(ptr[..], b, sb);
      } else {
        FewOrdered(Small(p, b, sb), b);
      }
    } else {
      ProgressOrdered(p, b, fl, done, sb);
    }
    ProgressSmall(p, ptr[..], b, fl, done, sb);
    ftab[sb] := Marked(ftab[sb]);
    assert ftab[..] == ft[sb := Marked(ft[sb])];
  }

  lemma ProgressShaped(p: seq<int>, b: seq<int>, fl: seq<bool>, done: seq<bool>)
    requires Progress(p, b, fl, done)
    ensures Shaped(p, b) && |p| == |b| && |fl| == SMALL_BUCKETS && |done| == 256
  {
    hide Start, Small, Listing, Ordered;
  }

  lemma ProgressOrdered(p: seq<int>, b: seq<int>, fl: seq<bool>, done: seq<bool>, c: nat)
    requires Progress(p, b, fl, done) && c < SMALL_BUCKETS && fl[c]
    ensures |p| == |b| && Ordered(Small(p, b, c), b)
  {
  }

  /** Small buckets of ss below ss followed by j have their flags set, except for ss itself. */
  ghost predicate RowFlagged(fl: seq<bool>, ss: nat, j: nat) {
    |fl| == SMALL_BUCKETS && ss < 256 && j <= 256 && forall c: nat :: 256 * ss <= c < 256 * ss + j && c != 256 * ss + ss ==> fl[c]
  }

  lemma RowNext(fl: seq<bool>, ss: nat, j: nat)
    requires RowFlagged(fl, ss, j) && j < 256
    ensures 256 * ss + j < SMALL_BUCKETS && RowFlagged(fl[256 * ss + j := true], ss, j + 1)
    ensures j == ss ==> RowFlagged(fl, ss, j + 1)
  {
  }

  lemma RowOrdered(p: seq<int>, b: seq<int>, fl: seq<bool>, done: seq<bool>, ss: nat)
    requires Progress(p, b, fl, done) && RowFlagged(fl, ss, 256)
    ensures StepOne(p, b, ss)
  {
    hide Start, Small, Listing, Ordered;
  }

  /** Step 1: the small buckets of ss, except for ss followed by ss. */
  method SortRow(ptr: array<int>, block: array<int>, quadrant: array<int>, ftab: array<int>, nblock: nat, ss: nat, budget: int,
                 ghost b: seq<int>, ghost fl: seq<bool>, ghost done: seq<bool>, ghost e: nat)
      returns (stopped: bool, budget': int, ghost fl': seq<bool>)
    requires IsBlock(b) && nblock == |b| && Extended(block[..], b) && Quads(quadrant[..], b) && ss < 256
    requires ptr != block && ptr != quadrant && ptr != ftab && ftab != block && ftab != quadrant
    requires Flagged(ftab[..], b, fl) && Progress(ptr[..], b, fl, done) && Cheap(b, e)
    modifies ptr, ftab
    ensures 0 <= budget - budget' <= Fee(PerEntry(e, ptr.Length), 14 * BigSize(b, ss)) && (stopped ==> budget' < 0)
    ensures !stopped ==> Flagged(ftab[..], b, fl') && Progress(ptr[..], b, fl', done) && RowFlagged(fl', ss, 256)
  {
    hide Start, IsBlock, Extended, Quads, Flagged, Progress, RowFlagged, Cheap, Fee, PerEntry;
    fl', stopped, budget' := fl, false, budget;
    ghost var u, first := PerEntry(e, ptr.Length), Start(b, 256 * ss);
    FeeLaws(u, 0, 0);
    NoRow(ptr[..], b, fl, done, ss);
    for j := 0 to 256
      invariant block[..] == old(block[..]) && quadrant[..] == old(quadrant[..])
      invariant 0 <= budget - budget' <= Fee(u, 14 * (Start(b, 256 * ss + j) - first))
      invariant Flagged(ftab[..], b, fl') && Progress(ptr[..], b, fl', done) && RowFlagged(fl', ss, j)
    {
      RowNext(fl', ss, j);
      RowCost(b, u, ss, j);
      if j != ss {
        var sb := 256 * ss + j;
        stopped, budget' := SortSmall(ptr, block, quadrant, ftab, nblock, sb, budget', b, fl', done, e);
        if stopped { return; }
        fl' := fl'[sb := true];
      }
    }
  }

  /** The size of the big bucket of ss. */
  ghost function BigSize(b: seq<int>, ss: nat): int { Start(b, 256 * ss + 256) - Start(b, 256 * ss) }

  /** What the next small bucket may cost, and that it is not more than what all of them may. */
  lemma RowCost(b: seq<int>, u: nat, ss: nat, j: nat)
    requires j < 256
    ensures var first, m := Start(b, 256 * ss), Start(b, 256 * ss + (j + 1)) - Start(b, 256 * ss + j);
            && Fee(u, 14 * (Start(b, 256 * ss + (j + 1)) - first)) == Fee(u, 14 * (Start(b, 256 * ss + j) - first)) + Fee(u, 14 * m)
            && Fee(u, 14 * m) >= 0 && Fee(u, 14 * (Start(b, 256 * ss + (j + 1)) - first)) <= Fee(u, 14 * BigSize(b, ss))
  {
    hide Start, Fee;
    var first, m := Start(b, 256 * ss), Start(b, 256 * ss + (j + 1)) - Start(b, 256 * ss + j);
    StartsGrow(b, 256 * ss + j, 256 * ss + (j + 1));
    StartsGrow(b, 256 * ss + (j + 1), 256 * ss + 256);
    FeeLaws(u, 14 * (Start(b, 256 * ss + j) - first), 14 * m);
    FeeLaws(u, 14 * m, 0);
    FeeGrows(u, 14 * (Start(b, 256 * ss + (j + 1)) - first), 14 * BigSize(b, ss));
  }

  lemma NoRow(p: seq<int>, b: seq<int>, fl: seq<bool>, done: seq<bool>, ss: nat)
    requires Progress(p, b, fl, done) && ss < 256
    ensures RowFlagged(fl, ss, 0)
  {
    hide Start, Small, Listing, Ordered;
  }

  // ---------------------------------------------------------------- step 2

  /** The flags, with those set that end in ss and begin with something below j. */
  ghost function WithColumn(fl: seq<bool>, ss: nat, j: nat): (fl': seq<bool>)
    ensures |fl'| == |fl|
  {
    seq(|fl|, c requires 0 <= c < |fl| => fl[c] || (c % 256 == ss && c / 256 < j))
  }

  lemma ColumnNext(fl: seq<bool>, ss: nat, j: nat)
    requires |fl| == SMALL_BUCKETS && ss < 256 && j < 256
    ensures KeyOf(j, ss) < SMALL_BUCKETS && WithColumn(fl, ss, j)[KeyOf(j, ss) := true] == WithColumn(fl, ss, j + 1)
  {
    var x, y := WithColumn(fl, ss, j)[KeyOf(j, ss) := true], WithColumn(fl, ss, j + 1);
    forall c | 0 <= c < SMALL_BUCKETS ensures x[c] == y[c] {
      if c % 256 == ss && c / 256 == j { assert c == KeyOf(j, ss); }
    }
  }

  lemma ColumnNone(fl: seq<bool>, ss: nat)
    ensures WithColumn(fl, ss, 0) == fl
  {
  }

  lemma SweptSmall(p: seq<int>, p0: seq<int>, b: seq<int>, done: seq<bool>, ss: nat, c: nat)
    requires Swept(p, p0, b, ss, done) && c < SMALL_BUCKETS
    ensures |p| == |p0| == |b| && |done| == 256
    ensures if c % 256 == ss && !done[c / 256] then Ordered(Small(p, b, c), b) else Small(p, b, c) == Small(p0, b, c)
  {
    hide Start, Small, Listing, Ordered, Shaped;
    if c % 256 == ss { assert c == KeyOf(c / 256, ss); }
  }

  lemma SweptShaped(p: seq<int>, p0: seq<int>, b: seq<int>, done: seq<bool>, ss: nat)
    requires Swept(p, p0, b, ss, done)
    ensures Shaped(p, b)
  {
    hide Shaped, Untouched, Ordered;
  }

  lemma ProgressSwept(p: seq<int>, p0: seq<int>, b: seq<int>, fl: seq<bool>, done: seq<bool>, ss: nat)
    requires Progress(p0, b, fl, done) && Swept(p, p0, b, ss, done) && ss < 256 && RowFlagged(fl, ss, 256) && !done[ss]
    ensures Progress(p, b, WithColumn(fl, ss, 256), done) && BigInOrder(p, b, ss)
  {
    hide Start, Small, Ordered, Swept, Shaped;
    SweptShaped(p, p0, b, done, ss);
    SweptSmall(p, p0, b, done, ss, 0);
    var fl' := WithColumn(fl, ss, 256);
    forall c: nat | c < SMALL_BUCKETS && fl'[c] ensures Ordered(Small(p, b, c), b) {
      SweptSmall(p, p0, b, done, ss, c);
    }
    forall c: nat | 256 * ss <= c < 256 * (ss + 1) ensures Ordered(Small(p, b, c), b) {
      assert c / 256 == ss && c % 256 == c - 256 * ss;
      assert fl'[c];
    }
  }

  /** Step 2, and the flags it sets. */
  method SweepColumn(ptr: array<int>, block: array<int>, ftab: array<int>, bigDone: array<bool>, nblock: nat, ss: nat,
                     ghost b: seq<int>, ghost fl: seq<bool>)
    requires IsBlock(b) && nblock == |b| && Extended(block[..], b) && ptr != block && ptr != ftab && block != ftab
    requires Flagged(ftab[..], b, fl) && Progress(ptr[..], b, fl, bigDone[..]) && RowFlagged(fl, ss, 256)
    requires ss < 256 == bigDone.Length && !bigDone[ss]
    modifies ptr, ftab
    ensures Flagged(ftab[..], b, WithColumn(fl, ss, 256)) && Progress(ptr[..], b, WithColumn(fl, ss, 256), bigDone[..])
    ensures BigInOrder(ptr[..], b, ss)
  {
    hide Start, IsBlock, Extended, Flagged, Progress, RowFlagged, Swept, StepOne, Shaped, WithColumn, BigInOrder, Marked, KeyOf;
    ghost var p0 := ptr[..];
    RowOrdered(p0, b, fl, bigDone[..], ss);
    ProgressShaped(p0, b, fl, bigDone[..]);
    BlockWithin(block[..], b);
    assert block[..nblock] == block[..][..nblock];
    Sweep(ptr, block, ftab, bigDone, nblock, ss, b, fl);
    ProgressSwept(ptr[..], p0, b, fl, bigDone[..], ss);
    ColumnNone(fl, ss);
    ghost var p := ptr[..];
    for j := 0 to 256
      modifies ftab
      invariant Flagged(ftab[..], b, WithColumn(fl, ss, j)) && ptr[..] == p && bigDone[..] == old(bigDone[..])
    {
      ghost var ft := ftab[..];
      ColumnNext(fl, ss, j);
      FlagOf(ft, b, WithColumn(fl, ss, j), KeyOf(j, ss));
      ftab[KeyOf(j, ss)] := Marked(ftab[KeyOf(j, ss)]);
      assert ftab[..] == ft[KeyOf(j, ss) := Marked(ft[KeyOf(j, ss)])];
    }
  }

  lemma BlockWithin(blk: seq<int>, b: seq<int>)
    requires Extended(blk, b)
    ensures |b| <= |blk| && blk[..|b|] == b
  {
  }

  // ---------------------------------------------------------------- one big bucket

  lemma ProgressDone(p: seq<int>, b: seq<int>, fl: seq<bool>, done: seq<bool>, ss: nat)
    requires Progress(p, b, WithColumn(fl, ss, 256), done) && RowFlagged(fl, ss, 256)
    ensures ss < |done| && Progress(p, b, WithColumn(fl, ss, 256), done[ss := true])
  {
    hide Start, Small, Listing, Ordered, Shaped;
    var fl', done' := WithColumn(fl, ss, 256), done[ss := true];
    forall c: nat | c < SMALL_BUCKETS && (done'[c / 256] || done'[c % 256]) ensures fl'[c] {
      if c / 256 == ss && c % 256 != ss { assert fl[c]; }
    }
  }

  /** The i-th of the big buckets, all three steps. */
  method CompleteBig(ptr: array<int>, block: array<int>, quadrant: array<int>, ftab: array<int>, bigDone: array<bool>, nblock: nat,
                     ss: nat, last: bool, budget: int, ghost b: seq<int>, ghost fl: seq<bool>, ghost e: nat)
      returns (stopped: bool, budget': int, ghost fl': seq<bool>)
    requires IsBlock(b) && nblock == |b| && Extended(block[..], b) && Quads(quadrant[..], b)
    requires ptr != block && ptr != quadrant && ptr != ftab && ftab != block && ftab != quadrant && block != quadrant
    requires Flagged(ftab[..], b, fl) && Progress(ptr[..], b, fl, bigDone[..]) && ss < 256 == bigDone.Length && !bigDone[ss]
    requires Cheap(b, e)
    modifies ptr, ftab, quadrant, bigDone
    ensures 0 <= budget - budget' <= Fee(PerEntry(e, ptr.Length), 14 * BigSize(b, ss)) && (stopped ==> budget' < 0)
    ensures Quads(quadrant[..], b)
    ensures !stopped ==> Flagged(ftab[..], b, fl') && Progress(ptr[..], b, fl', bigDone[..])
    ensures !stopped ==> bigDone[..] == old(bigDone[..])[ss := true]
  {
    hide Start, IsBlock, Extended, Quads, Flagged, Progress, RowFlagged, Shaped, WithColumn, BigInOrder, Cheap, Fee, PerEntry;
    ghost var done := bigDone[..];
    stopped, budget', fl' := SortRow(ptr, block, quadrant, ftab, nblock, ss, budget, b, fl, done, e);
    if stopped { return; }
    ghost var flags := fl';
    SweepColumn(ptr, block, ftab, bigDone, nblock, ss, b, fl');
    fl' := WithColumn(fl', ss, 256);
    ProgressDone(ptr[..], b, flags, done, ss);
    ProgressShaped(ptr[..], b, fl', done);
    bigDone[ss] := true;
    assert bigDone[..] == done[ss := true];
    if !last {
      UpdateQuadrants(ptr, quadrant, ftab, nblock, ss, b, fl');
    }
  }

  // ---------------------------------------------------------------- all of them

  /** The beginning of the block once more behind it, and no quadrants yet. */
  method Overshoot(block: array<int>, quadrant: array<int>, nblock: nat, ghost b: seq<int>)
    requires IsBlock(b) && nblock == |b| && nblock + OVERSHOOT <= block.Length && block[..nblock] == b && block != quadrant
    requires nblock + OVERSHOOT <= quadrant.Length
    requires forall k :: 0 <= k < nblock ==> quadrant[k] == 0
    modifies block, quadrant
    ensures Extended(block[..], b) && Quads(quadrant[..], b)
  {
    for i := 0 to OVERSHOOT
      invariant block[..nblock] == b
      invariant forall k :: 0 <= k < i ==> block[nblock + k] == b[k]
      invariant forall k :: 0 <= k < nblock + i ==> quadrant[k] == 0
    {
      assert block[i] == b[i];
      block[nblock + i] := block[i];
      quadrant[nblock + i] := 0;
    }
    Copied(block[..], b);
    Cleared(quadrant[..], b);
  }

  lemma Copied(blk: seq<int>, b: seq<int>)
    requires OVERSHOOT < |b| && |b| + OVERSHOOT <= |blk| && blk[..|b|] == b
    requires forall k :: 0 <= k < OVERSHOOT ==> blk[|b| + k] == b[k]
    ensures Extended(blk, b)
  {
    forall i | 0 <= i < OVERSHOOT ensures SameBeyond(blk, |b|, i) { assert blk[..|b|][i] == b[i]; }
  }

  lemma Cleared(q: seq<int>, b: seq<int>)
    requires OVERSHOOT < |b| && |b| + OVERSHOOT <= |q| && forall k :: 0 <= k < |b| + OVERSHOOT ==> q[k] == 0
    ensures Quads(q, b)
  {
    hide Le;
    forall i | 0 <= i < OVERSHOOT ensures SameBeyond(q, |b|, i) {}
  }

  ghost function NoFlags(n: nat): (f: seq<bool>)
    ensures |f| == n && forall c :: 0 <= c < n ==> !f[c]
  {
    seq(n, c => false)
  }

  lemma PlacedProgress(p: seq<int>, ft: seq<int>, b: seq<int>)
    requires IsBlock(b) && Cursors(ft, Keys(b), 0) && PlacedFrom(p, Keys(b), 0)
    ensures Flagged(ft, b, NoFlags(SMALL_BUCKETS)) && Progress(p, b, NoFlags(SMALL_BUCKETS), NoFlags(256))
  {
    hide Rank, Keys, IsBlock, Ordered, Shaped, Counting.CountLt;
    PlacedBucketed(p, b);
    BucketedShaped(p, b);
    NoneYet(Keys(b));
  }

  /** The radix sort on two bytes. */
  method RadixSort(ptr: array<int>, block: array<int>, quadrant: array<int>, ftab: array<int>, nblock: nat, ghost b: seq<int>)
    requires IsBlock(b) && nblock == |b| && nblock + OVERSHOOT <= block.Length && block[..nblock] == b
    requires nblock + OVERSHOOT <= quadrant.Length && ptr.Length == nblock && ftab.Length == SMALL_BUCKETS + 1
    requires ptr != block && ptr != quadrant && ptr != ftab && block != quadrant && block != ftab && quadrant != ftab
    modifies ptr, block, quadrant, ftab
    ensures Extended(block[..], b) && Quads(quadrant[..], b)
    ensures Flagged(ftab[..], b, NoFlags(SMALL_BUCKETS)) && Progress(ptr[..], b, NoFlags(SMALL_BUCKETS), NoFlags(256))
  {
    hide Cursors, PlacedFrom, PairsFrom, IsBlock, Extended, Quads, Flagged, Progress, NoFlags, Keys;
    CountPairs(block, quadrant, ftab, nblock, b);
    Overshoot(block, quadrant, nblock, b);
    BlockWithin(block[..], b);
    assert block[..nblock] == block[..][..nblock];
    forall s | 0 <= s < |Keys(b)| ensures Keys(b)[s] >= 0 { KeyRange(b, s); }
    SumPairs(ftab, Keys(b));
    PlacePairs(ptr, block, ftab, nblock, b);
    PlacedProgress(ptr[..], ftab[..], b);
  }

  /** Done are those that came before place i in the running order. */
  ghost predicate DoneBefore(done: seq<bool>, order: seq<int>, i: nat) {
    |done| == 256 && Bytes(order) && forall k :: 0 <= k < 256 ==> (done[order[k]] <==> k < i)
  }

  lemma DoneNext(done: seq<bool>, order: seq<int>, i: nat)
    requires DoneBefore(done, order, i) && i < 256 && IsPermutation(order, 256)
    ensures 0 <= order[i] < 256 && !done[order[i]] && DoneBefore(done[order[i] := true], order, i + 1)
  {
    forall k | 0 <= k < 256 ensures done[order[i] := true][order[k]] <==> k < i + 1 {
      if k < i { assert order[k] != order[i]; }
      if i < k { assert order[i] != order[k]; }
    }
  }

  lemma AllDone(p: seq<int>, b: seq<int>, fl: seq<bool>, done: seq<bool>, order: seq<int>)
    requires IsBlock(b) && Progress(p, b, fl, done) && DoneBefore(done, order, 256) && IsPermutation(order, 256)
    ensures SortedRotations(b, p)
  {
    hide Start, Small, Ordered, Shaped, IsBlock, SortedRotations;
    ShapedSize(p, b);
    forall c: nat | c < SMALL_BUCKETS ensures Ordered(Small(p, b, c), b) {
      PermutationOnto(order, 256, c / 256);
      var k :| 0 <= k < 256 && order[k] == c / 256;
      assert done[c / 256] && fl[c];
    }
    AllOrdered(p, b);
  }

  /** The size of the big buckets below c that are done. */
  ghost function DoneSize(b: seq<int>, done: seq<bool>, c: nat): int
    requires c <= |done|
  {
    if c == 0 then 0 else DoneSize(b, done, c - 1) + if done[c - 1] then BigSize(b, c - 1) else 0
  }

  lemma {:induction false} DoneSizeMore(b: seq<int>, done: seq<bool>, c: nat, ss: nat)
    requires c <= |done| && ss < |done| && !done[ss]
    ensures DoneSize(b, done[ss := true], c) == DoneSize(b, done, c) + if ss < c then BigSize(b, ss) else 0
  {
    hide BigSize;
    if c > 0 { DoneSizeMore(b, done, c - 1, ss); }
  }

  lemma {:induction false} DoneSizeBounds(b: seq<int>, done: seq<bool>, c: nat)
    requires c <= |done|
    ensures 0 <= DoneSize(b, done, c) <= Start(b, 256 * c) - Start(b, 0) <= |b|
  {
    hide Start;
    StartsGrow(b, 0, 256 * c);
    if c > 0 {
      DoneSizeBounds(b, done, c - 1);
      StartsGrow(b, 256 * (c - 1), 256 * c);
    }
  }

  lemma {:induction false} NoneDoneSize(b: seq<int>, done: seq<bool>, c: nat)
    requires c <= |done| && forall i :: 0 <= i < |done| ==> !done[i]
    ensures DoneSize(b, done, c) == 0
  {
    if c > 0 { NoneDoneSize(b, done, c - 1); }
  }

  /** One big bucket more, and still no more than all of them may cost. */
  lemma DoneCost(b: seq<int>, u: nat, done: seq<bool>, ss: nat)
    requires |done| == 256 && ss < 256 && !done[ss]
    ensures var n := DoneSize(b, done[ss := true], 256);
            && Fee(u, 14 * n) == Fee(u, 14 * DoneSize(b, done, 256)) + Fee(u, 14 * BigSize(b, ss))
            && Fee(u, 14 * n) <= Fee(u, 14 * |b|)
  {
    hide Fee, DoneSize, BigSize;
    DoneSizeMore(b, done, 256, ss);
    DoneSizeBounds(b, done[ss := true], 256);
    FeeLaws(u, 14 * DoneSize(b, done, 256), 14 * BigSize(b, ss));
    FeeGrows(u, 14 * DoneSize(b, done[ss := true], 256), 14 * |b|);
  }

  /** What a comparison can take at most. */
  ghost function Dearest(b: seq<int>, e: nat): nat { if Cheap(b, e) && e <= |b| / 8 + 2 then e else |b| / 8 + 2 }

  /** mainSort: unless the budget runs out, ptr lists all rotations in order.  There are at most
      fourteen times as many comparisons as pairs of rotations; where none of them takes more
      than e from the budget, a budget for all of them does not run out.  The assertion is the
      program's own, number 1006. */
  method MainSort(ptr: array<int>, block: array<int>, quadrant: array<int>, ftab: array<int>, nblock: nat, budget: int, ghost e: nat)
      returns (budget': int)
    requires nblock + OVERSHOOT <= block.Length && IsBlock(block[..nblock])
    requires nblock + OVERSHOOT <= quadrant.Length && ptr.Length == nblock && ftab.Length == SMALL_BUCKETS + 1
    requires ptr != block && ptr != quadrant && ptr != ftab && block != quadrant && block != ftab && quadrant != ftab
    modifies ptr, block, quadrant, ftab
    ensures budget' <= budget && block[..nblock] == old(block[..nblock])
    ensures budget' >= 0 ==> SortedRotations(block[..nblock], ptr[..])
    ensures Cheap(block[..nblock], e) ==> budget - budget' <= 14 * nblock * (e * nblock)
    ensures budget - budget' <= 14 * nblock * ((nblock / 8 + 2) * nblock)
  {
    hide IsBlock, Extended, Quads, Flagged, Progress, SortedRotations, DoneBefore, NoFlags, Rising, Bytes, Cheap, Fee, PerEntry,
         DoneSize, Dearest;
    ghost var b := block[..nblock];
    ghost var most := Dearest(b, e);
    ghost var u := PerEntry(most, ptr.Length);
    DearestCheap(b, e);
    RadixSort(ptr, block, quadrant, ftab, nblock, b);
    ghost var fl, blk := NoFlags(SMALL_BUCKETS), block[..];
    BlockWithin(blk, b);
    assert block[..nblock] == blk[..nblock];
    var order := RunningOrder(ftab);
    var bigDone := new bool[256](_ => false);
    assert bigDone[..] == NoFlags(256);
    NoneDone(bigDone[..], order[..]);
    NoneDoneSize(b, bigDone[..], 256);
    FeeLaws(u, 14 * nblock, 0);
    ghost var running := order[..];
    budget' := budget;
    for i := 0 to 256
      modifies ptr, quadrant, ftab, bigDone
      invariant order[..] == running && block[..] == blk
      invariant bigDone.Length == 256 && 0 <= budget - budget' <= Fee(u, 14 * DoneSize(b, bigDone[..], 256)) <= Fee(u, 14 * nblock)
      invariant DoneBefore(bigDone[..], order[..], i) && Quads(quadrant[..], b)
      invariant Flagged(ftab[..], b, fl) && Progress(ptr[..], b, fl, bigDone[..])
    {
      DoneNext(bigDone[..], order[..], i);
      ProgressShaped(ptr[..], b, fl, bigDone[..]);
      var ss := order[i];
      assert !bigDone[ss];
      var stopped;
      DoneCost(b, u, bigDone[..], ss);
      stopped, budget', fl := CompleteBig(ptr, block, quadrant, ftab, bigDone, nblock, ss, i == 255, budget', b, fl, most);
      if stopped {
        WholeCost(b, e, most);
        return;
      }
    }
    WholeCost(b, e, most);
    AllDone(ptr[..], b, fl, bigDone[..], order[..]);
  }

  lemma DearestCheap(b: seq<int>, e: nat)
    requires IsBlock(b)
    ensures Cheap(b, Dearest(b, e)) && |b| > 0
  {
    CheapAlways(b);
  }

  lemma WholeCost(b: seq<int>, e: nat, most: nat)
    requires |b| > 0 && most == Dearest(b, e)
    ensures Cheap(b, e) ==> Fee(PerEntry(most, |b|), 14 * |b|) <= 14 * |b| * (e * |b|)
    ensures Fee(PerEntry(most, |b|), 14 * |b|) <= 14 * |b| * ((|b| / 8 + 2) * |b|)
  {
    hide Cheap;
    var n := |b|;
    CostGrows(most, n / 8 + 2, n);
    if Cheap(b, e) { CostGrows(most, e, n); }
  }

  lemma CostGrows(x: nat, y: nat, n: nat)
    requires x <= y
    ensures Fee(PerEntry(x, n), 14 * n) <= 14 * n * (y * n)
  {
    F.MulMonotone(x, y, n);
    F.MulMonotone(x * n, y * n, 14 * n);
  }

  lemma NoneDone(done: seq<bool>, order: seq<int>)
    requires |done| == 256 && (forall c :: 0 <= c < 256 ==> !done[c]) && Bytes(order)
    ensures DoneBefore(done, order, 0)
  {
  }
}
