/** fallbackSort (blocksort.c): exponential radix sort of all rotations of a block.  The
    header bits mark where the entries of fmap stop being equal on the first h bytes, and
    every round doubles h. */
module FallbackSort {
  import opened Counting
  import opened Rotations
  import opened PrefixOrder
  import opened FallbackQSort

  // ---------------------------------------------------------------- buckets

  /** The header bit at or before i. */
  ghost function Start(bh: seq<bool>, i: nat): (s: nat)
    requires i < |bh|
    ensures s <= i && (s == 0 || bh[s]) && forall m :: s < m <= i ==> !bh[m]
  {
    if i == 0 || bh[i] then i else Start(bh, i - 1)
  }

  lemma StartIs(bh: seq<bool>, i: nat, s: nat)
    requires s <= i < |bh| && (s == 0 || bh[s])
    requires forall m :: s < m <= i ==> !bh[m]
    ensures Start(bh, i) == s
  {
  }

  lemma StartMonotone(bh: seq<bool>, i: nat, j: nat)
    requires i <= j < |bh|
    ensures Start(bh, i) <= Start(bh, j)
    ensures Start(bh, i) == Start(bh, j) <==> forall m :: i < m <= j ==> !bh[m]
  {
    if forall m :: i < m <= j ==> !bh[m] { StartIs(bh, j, Start(bh, i)); }
  }

  ghost function Starts(bh: seq<bool>, n: nat): (st: seq<int>)
    requires n <= |bh|
    ensures |st| == n && forall i :: 0 <= i < n ==> st[i] == Start(bh, i)
  {
    seq(n, i requires 0 <= i < n => Start(bh, i))
  }

  /** Entries with the same label are equal for h bytes; a smaller label is a smaller string. */
  ghost predicate Ranked(b: seq<int>, f: seq<int>, st: seq<int>, h: nat) {
    && |st| == |b| && IsPermutation(f, |b|)
    && (forall i, j :: 0 <= i < |b| && 0 <= j < |b| && st[i] == st[j] ==> EqFor(b, f[i], f[j], h))
    && (forall i, j :: 0 <= i < |b| && 0 <= j < |b| && st[i] < st[j] ==> LtFor(b, f[i], f[j], h))
  }

  /** When a whole turn has been compared, or all labels differ, the rotations are sorted. */
  lemma RankedSorted(b: seq<int>, f: seq<int>, bh: seq<bool>, h: nat)
    requires |b| <= |bh| && Ranked(b, f, Starts(bh, |b|), h)
    requires h >= |b| || forall i :: 0 <= i < |b| ==> bh[i]
    ensures SortedRotations(b, f)
  {
    hide EqFor, LtFor, LexLe, Rot;
    var st := Starts(bh, |b|);
    forall i, j | 0 <= i < j < |b| ensures LexLe(Rot(b, f[i]), Rot(b, f[j])) {
      StartMonotone(bh, i, j);
      if st[i] < st[j] {
        StrictTurn(b, f[i], f[j], h);
      } else {
        WholeTurn(b, f[i], f[j], h);
      }
    }
  }

  // ---------------------------------------------------------------- the initial radix pass

  /** Where the initial pass puts index i: its bucket is filled from the top down. */
  ghost function DownRank(b: seq<int>, i: nat): int
    requires i < |b|
  {
    CountLt(b, |b|, b[i] + 1) - 1 - CountEq(b, i, b[i])
  }

  lemma DownRankInBucket(b: seq<int>, i: nat)
    requires i < |b|
    ensures CountLt(b, |b|, b[i]) <= DownRank(b, i) < CountLt(b, |b|, b[i] + 1) <= |b|
  {
    CountEqGrows(b, i, |b|, b[i]);
    CountsStep(b, |b|, b[i]);
  }

  lemma DownRankDistinct(b: seq<int>, i: nat, j: nat)
    requires i < j < |b|
    ensures DownRank(b, i) != DownRank(b, j)
  {
    DownRankInBucket(b, i);
    DownRankInBucket(b, j);
    if b[i] < b[j] {
      CountLtMonotone(b, |b|, b[i] + 1, b[j]);
    } else if b[j] < b[i] {
      CountLtMonotone(b, |b|, b[j] + 1, b[i]);
    } else {
      CountEqGrows(b, i, j, b[i]);
    }
  }

  ghost function DownRanks(b: seq<int>): (r: seq<int>)
    ensures |r| == |b| && forall i :: 0 <= i < |b| ==> r[i] == DownRank(b, i)
  {
    seq(|b|, i requires 0 <= i < |b| => DownRank(b, i))
  }

  lemma DownRanksPermute(b: seq<int>)
    ensures IsPermutation(DownRanks(b), |b|)
  {
    var r := DownRanks(b);
    forall i | 0 <= i < |b| ensures 0 <= r[i] < |b| { DownRankInBucket(b, i); }
    forall i, j | 0 <= i < j < |b| ensures r[i] != r[j] { DownRankDistinct(b, i, j); }
  }

  /** f[r[i]] == i for a permutation r makes f its inverse, and a permutation. */
  lemma InversePermutes(r: seq<int>, f: seq<int>, n: nat)
    requires IsPermutation(r, n) && |f| == n
    requires forall i :: 0 <= i < n ==> f[r[i]] == i
    ensures IsPermutation(f, n)
    ensures forall p :: 0 <= p < n ==> r[f[p]] == p
  {
    forall p | 0 <= p < n ensures 0 <= f[p] < n && r[f[p]] == p {
      PermutationOnto(r, n, p);
      var i :| 0 <= i < n && r[i] == p;
    }
  }

  /** fmap after the initial pass: a permutation whose entry p begins with the byte whose
      bucket p lies in. */
  ghost predicate Bucketed(b: seq<int>, f: seq<int>) {
    && IsPermutation(f, |b|)
    && forall p :: 0 <= p < |b| ==> CountLt(b, |b|, b[f[p]]) <= p < CountLt(b, |b|, b[f[p]] + 1)
  }

  lemma PlacedBucketed(b: seq<int>, f: seq<int>)
    requires IsPermutation(DownRanks(b), |b|)
    requires |f| == |b| && forall i :: 0 <= i < |b| ==> f[DownRanks(b)[i]] == i
    ensures Bucketed(b, f)
  {
    hide CountLt, CountEq;
    var r := DownRanks(b);
    InversePermutes(r, f, |b|);
    forall p | 0 <= p < |b| ensures CountLt(b, |b|, b[f[p]]) <= p < CountLt(b, |b|, b[f[p]] + 1) {
      DownRankInBucket(b, f[p]);
      assert r[f[p]] == p;
    }
  }

  /** The header bits after the initial pass: one at the first place of every byte. */
  ghost predicate ByteHeaders(b: seq<int>, bh: seq<bool>) {
    && |b| <= |bh|
    && (forall c :: 0 <= c < 256 && CountLt(b, |b|, c) < |b| ==> bh[CountLt(b, |b|, c)])
    && (forall i :: 0 <= i < |b| && bh[i] ==> exists c :: 0 <= c < 256 && CountLt(b, |b|, c) == i)
  }

  lemma BucketStart(b: seq<int>, f: seq<int>, bh: seq<bool>, p: nat)
    requires IsColumn(b) && Bucketed(b, f) && ByteHeaders(b, bh) && p < |b|
    ensures Start(bh, p) == CountLt(b, |b|, b[f[p]])
  {
    hide CountLt;
    var c := b[f[p]];
    var s := CountLt(b, |b|, c);
    forall m | s < m <= p ensures !bh[m] {
      if bh[m] {
        var d :| 0 <= d < 256 && CountLt(b, |b|, d) == m;
        if d <= c { CountLtMonotone(b, |b|, d, c); } else { CountLtMonotone(b, |b|, c + 1, d); }
      }
    }
    StartIs(bh, p, s);
  }

  /** After the initial pass the entries are ranked by their first byte. */
  lemma InitialRanked(b: seq<int>, f: seq<int>, bh: seq<bool>)
    requires IsColumn(b) && Bucketed(b, f) && ByteHeaders(b, bh)
    ensures Ranked(b, f, Starts(bh, |b|), 1)
  {
    hide CountLt, Start;
    var st := Starts(bh, |b|);
    forall i, j | 0 <= i < |b| && 0 <= j < |b|
      ensures st[i] == st[j] ==> EqFor(b, f[i], f[j], 1)
      ensures st[i] < st[j] ==> LtFor(b, f[i], f[j], 1)
    {
      BucketStart(b, f, bh, i);
      BucketStart(b, f, bh, j);
      var c, d := b[f[i]], b[f[j]];
      assert Sym(b, f[i], 0) == c && Sym(b, f[j], 0) == d;
      if c < d { CountLtMonotone(b, |b|, c + 1, d); }
      if d < c { CountLtMonotone(b, |b|, d + 1, c); }
    }
  }

  method CountBytes(eclass8: array<int>, nblock: nat, ftab: array<int>, ftabCopy: array<int>, ghost b: seq<int>)
    requires ftab.Length == 257 && ftabCopy.Length == 256
    requires ftab != eclass8 && ftabCopy != eclass8 && ftab != ftabCopy
    requires nblock <= eclass8.Length && eclass8[..nblock] == b && IsColumn(b)
    modifies ftab, ftabCopy
    ensures forall c :: 0 <= c < 256 ==> ftabCopy[c] == CountEq(b, nblock, c)
    ensures forall c :: 0 <= c < 256 ==> ftab[c] == CountLt(b, nblock, c + 1)
    ensures eclass8[..nblock] == b
  {
    hide CountLt;
    for i := 0 to 257
      invariant forall c :: 0 <= c < i ==> ftab[c] == 0
    { ftab[i] := 0; }
    for i := 0 to nblock
      invariant eclass8[..nblock] == b && forall c :: 0 <= c < 257 ==> ftab[c] == CountEq(b, i, c)
    {
      ftab[eclass8[i]] := ftab[eclass8[i]] + 1;
    }
    for i := 0 to 256
      invariant eclass8[..nblock] == b && forall c :: 0 <= c < 257 ==> ftab[c] == CountEq(b, nblock, c)
      invariant forall c :: 0 <= c < i ==> ftabCopy[c] == ftab[c]
    { ftabCopy[i] := ftab[i]; }
    CountLtEnds(b, nblock);
    CountsStep(b, nblock, 0);
    for i := 1 to 257
      invariant eclass8[..nblock] == b && forall c :: 0 <= c < i ==> ftab[c] == CountLt(b, nblock, c + 1)
      invariant forall c :: i <= c < 257 ==> ftab[c] == CountEq(b, nblock, c)
      invariant forall c :: 0 <= c < 256 ==> ftabCopy[c] == CountEq(b, nblock, c)
    {
      CountsStep(b, nblock, i);
      ftab[i] := ftab[i] + ftab[i - 1];
    }
  }

  /** The bucket cursors after i entries have been placed. */
  ghost predicate DownCursors(ft: seq<int>, b: seq<int>, i: nat)
    requires i <= |b|
  {
    |ft| == 257 && forall c :: 0 <= c < 256 ==> ft[c] == CountLt(b, |b|, c + 1) - CountEq(b, i, c)
  }

  method PlaceAll(eclass8: array<int>, fmap: array<int>, ftab: array<int>, nblock: nat, ghost b: seq<int>)
    requires fmap != eclass8 && fmap != ftab && ftab != eclass8
    requires nblock <= eclass8.Length && eclass8[..nblock] == b && IsColumn(b)
    requires nblock == fmap.Length && ftab.Length == 257 && DownCursors(ftab[..], b, 0)
    modifies fmap, ftab
    ensures Bucketed(b, fmap[..]) && DownCursors(ftab[..], b, nblock)
  {
    hide CountLt, CountEq, DownRank, DownCursors, IsColumn;
    ghost var r := DownRanks(b);
    DownRanksPermute(b);
    for i := 0 to nblock
      invariant eclass8[..nblock] == b && DownCursors(ftab[..], b, i)
      invariant forall k :: 0 <= k < i ==> fmap[r[k]] == k
    {
      var j := eclass8[i];
      DownCursorStep(ftab[..], b, i);
      var k := ftab[j] - 1;
      ghost var ft := ftab[..];
      ftab[j] := k;
      assert ftab[..] == ft[j := k];
      fmap[k] := i;
    }
    PlacedBucketed(b, fmap[..]);
  }

  lemma DownCursorStep(ft: seq<int>, b: seq<int>, i: nat)
    requires i < |b| && IsColumn(b) && DownCursors(ft, b, i)
    ensures 0 <= b[i] < 256 && ft[b[i]] - 1 == DownRank(b, i) && 0 <= DownRank(b, i) < |b|
    ensures DownCursors(ft[b[i] := ft[b[i]] - 1], b, i + 1)
  {
    DownRankInBucket(b, i);
  }

  // ---------------------------------------------------------------- header bits

  /** The sentinel bits past the end: set, clear, set, clear, ... */
  ghost predicate Sentinels(bh: seq<bool>, n: nat) {
    && |bh| % 32 == 0 && n + 64 <= |bh|
    && (forall i :: n <= i < n + 64 ==> (bh[i] <==> (i - n) % 2 == 0))
  }

  /** bhtab holds one entry for every bit of the source's bit table. */
  method InitHeaders(bhtab: array<bool>, ftab: array<int>, nblock: nat, ghost b: seq<int>)
    requires |b| == nblock && IsColumn(b) && bhtab.Length % 32 == 0 && nblock + 96 <= bhtab.Length
    requires ftab.Length == 257 && forall c :: 0 <= c < 256 ==> ftab[c] == CountLt(b, nblock, c)
    modifies bhtab
    ensures ByteHeaders(b, bhtab[..]) && Sentinels(bhtab[..], nblock)
  {
    hide CountLt;
    forall c | 0 <= c < 256 ensures 0 <= ftab[c] <= nblock { CountsStep(b, nblock, c); }
    var nBhtab := 2 + nblock / 32;
    for i := 0 to 32 * nBhtab
      invariant forall k :: 0 <= k < i ==> !bhtab[k]
    { bhtab[i] := false; }
    for i := 0 to 256
      invariant forall c :: 0 <= c < i ==> bhtab[ftab[c]]
      invariant forall k :: 0 <= k < nblock && bhtab[k] ==> exists c :: 0 <= c < i && ftab[c] == k
    {
      bhtab[ftab[i]] := true;
    }
    for i := 0 to 32
      invariant forall c :: 0 <= c < 256 ==> ftab[c] <= nblock && (ftab[c] < nblock ==> bhtab[ftab[c]])
      invariant forall k :: 0 <= k < nblock && bhtab[k] ==> exists c :: 0 <= c < 256 && ftab[c] == k
      invariant forall k :: nblock <= k < nblock + 2 * i ==> (bhtab[k] <==> (k - nblock) % 2 == 0)
    {
      bhtab[nblock + 2 * i] := true;
      bhtab[nblock + 2 * i + 1] := false;
    }
  }

  predicate WordIs(bhtab: array<bool>, k: nat, bit: bool)
    requires k + 32 <= bhtab.Length
    reads bhtab
  {
    forall m :: k <= m < k + 32 ==> bhtab[m] == bit
  }

  /** The first place from k0 on whose header bit differs from bit, whole words being skipped
      at a time; stop is a place known to differ. */
  method SkipBits(bhtab: array<bool>, k0: nat, bit: bool, ghost stop: nat) returns (k: nat)
    requires bhtab.Length % 32 == 0 && k0 <= stop < bhtab.Length && bhtab[stop] != bit
    ensures k0 <= k <= stop && bhtab[k] != bit && forall m :: k0 <= m < k ==> bhtab[m] == bit
  {
    k := k0;
    while bhtab[k] == bit && k % 32 != 0
      invariant k0 <= k <= stop && forall m :: k0 <= m < k ==> bhtab[m] == bit
      decreases stop - k
    { k := k + 1; }
    if bhtab[k] == bit {
      while WordIs(bhtab, k, bit)
        invariant k0 <= k <= stop && k % 32 == 0 && forall m :: k0 <= m < k ==> bhtab[m] == bit
        decreases stop - k
      { k := k + 32; }
      while bhtab[k] == bit
        invariant k0 <= k <= stop && forall m :: k0 <= m < k ==> bhtab[m] == bit
        decreases stop - k
      { k := k + 1; }
    }
  }

  /** The scan for a bucket of two or more; the sentinels stop it. */
  method NextBucket(bhtab: array<bool>, nblock: nat, k0: nat) returns (l: nat, r: int)
    requires Sentinels(bhtab[..], nblock) && k0 <= nblock && bhtab[k0]
    ensures k0 <= l <= nblock && forall m :: k0 <= m <= l ==> bhtab[m]
    ensures l < nblock ==> l < r < nblock && bhtab[r + 1] && forall m :: l < m <= r ==> !bhtab[m]
  {
    assert bhtab[..][nblock] && !bhtab[..][nblock + 1];
    var k := SkipBits(bhtab, k0, true, nblock + 1);
    l := k - 1;
    r := -1;
    if l >= nblock { return; }
    k := SkipBits(bhtab, k, false, nblock);
    r := k - 1;
  }

  // ---------------------------------------------------------------- one round

  /** The rotation h places back. */
  function Back(n: nat, x: nat, h: nat): (k: nat)
    requires x < n && h <= n
    ensures k < n && Shift(n, k, h) == x
  {
    if x < h then x + n - h else x - h
  }

  /** eclass[s] ranks the rotation h places after s. */
  ghost predicate Classes(ec: seq<int>, f: seq<int>, st: seq<int>, h: nat, i: nat) {
    && IsPermutation(f, |f|) && |ec| == |f| == |st| && h <= |f| && i <= |f|
    && forall k :: 0 <= k < i ==> ec[Back(|f|, f[k], h)] == st[k]
  }

  lemma ClassesStep(ec: seq<int>, f: seq<int>, st: seq<int>, h: nat, i: nat)
    requires Classes(ec, f, st, h, i) && i < |f|
    ensures Classes(ec[Back(|f|, f[i], h) := st[i]], f, st, h, i + 1)
  {
    var n := |f|;
    forall k | 0 <= k < i ensures Back(n, f[k], h) != Back(n, f[i], h) {
      assert Shift(n, Back(n, f[k], h), h) == f[k];
      assert Shift(n, Back(n, f[i], h), h) == f[i];
    }
  }

  method AssignClasses(fmap: array<int>, eclass: array<int>, bhtab: array<bool>, nblock: nat, h: nat)
    requires fmap != eclass && fmap.Length == eclass.Length == nblock <= bhtab.Length && 1 <= h <= nblock
    requires IsPermutation(fmap[..], nblock)
    modifies eclass
    ensures Classes(eclass[..], fmap[..], Starts(bhtab[..], nblock), h, nblock)
  {
    hide IsPermutation, Classes;
    ghost var f, st := fmap[..], Starts(bhtab[..], nblock);
    var j := 0;
    ClassesNone(eclass[..], f, st, h);
    for i := 0 to nblock
      invariant fmap[..] == f && Classes(eclass[..], f, st, h, i)
      invariant i > 0 ==> j == Start(bhtab[..], i - 1)
      invariant i == 0 ==> j == 0
    {
      if bhtab[i] { j := i; }
      Entry(f, i);
      var k := fmap[i] - h;
      if k < 0 { k := k + nblock; }
      ClassesStep(eclass[..], f, st, h, i);
      ghost var ec := eclass[..];
      eclass[k] := j;
      assert eclass[..] == ec[k := j];
    }
  }

  lemma Entry(f: seq<int>, i: nat)
    requires IsPermutation(f, |f|) && i < |f|
    ensures 0 <= f[i] < |f|
  {
  }

  lemma ClassesNone(ec: seq<int>, f: seq<int>, st: seq<int>, h: nat)
    requires IsPermutation(f, |f|) && |ec| == |f| == |st| && h <= |f|
    ensures Classes(ec, f, st, h, 0)
  {
  }

  /** Classes compare the rotations they rank. */
  lemma ClassCompares(b: seq<int>, ec: seq<int>, f: seq<int>, st: seq<int>, h: nat, s: nat, t: nat)
    requires |b| == |f| && Classes(ec, f, st, h, |f|) && Ranked(b, f, st, h)
    requires s < |b| && t < |b|
    ensures ec[s] == ec[t] ==> EqFor(b, Shift(|b|, s, h), Shift(|b|, t, h), h)
    ensures ec[s] < ec[t] ==> LtFor(b, Shift(|b|, s, h), Shift(|b|, t, h), h)
  {
    hide EqFor, LtFor;
    var i := RankedPlace(f, s, h);
    var j := RankedPlace(f, t, h);
  }

  lemma RankedPlace(f: seq<int>, s: nat, h: nat) returns (i: nat)
    requires IsPermutation(f, |f|) && s < |f| && h <= |f|
    ensures i < |f| && f[i] == Shift(|f|, s, h) && Back(|f|, f[i], h) == s
  {
    var x := Shift(|f|, s, h);
    PermutationOnto(f, |f|, x);
    i :| 0 <= i < |f| && f[i] == x;
  }

  /** Headers inside l..r stand exactly where the class changes; others are untouched. */
  ghost predicate HeadersAt(bh: seq<bool>, bh': seq<bool>, f: seq<int>, ec: seq<int>, l: nat, r: nat)
    requires Indexes(f, ec, l, r)
  {
    && |bh'| == |bh| && l <= r < |bh| && bh'[l]
    && (forall m :: 0 <= m < |bh| && !(l <= m <= r) ==> bh'[m] == bh[m])
    && (forall m :: l < m <= r ==> (bh'[m] <==> ec[f[m]] != ec[f[m - 1]]))
  }

  /** Along the bucket, a header goes wherever the class of an entry differs from that before it. */
  method ScanHeaders(fmap: array<int>, eclass: array<int>, bhtab: array<bool>, l: nat, r: nat)
    requires Indexes(fmap[..], eclass[..], l, r) && l <= r < bhtab.Length
    requires forall i :: 0 <= i < eclass.Length ==> eclass[i] >= 0
    requires bhtab[l] && forall m :: l < m <= r ==> !bhtab[m]
    modifies bhtab
    ensures HeadersAt(old(bhtab[..]), bhtab[..], fmap[..], eclass[..], l, r)
  {
    var cc := -1;
    ghost var bh := bhtab[..];
    for i := l to r + 1
      invariant bhtab[l] && forall m :: 0 <= m < |bh| && !(l <= m < i) ==> bhtab[m] == bh[m]
      invariant i > l ==> cc == eclass[fmap[i - 1]]
      invariant i == l ==> cc == -1
      invariant forall m :: l < m < i ==> (bhtab[m] <==> eclass[fmap[m]] != eclass[fmap[m - 1]])
    {
      var cc1 := eclass[fmap[i]];
      if cc != cc1 { bhtab[i] := true; cc := cc1; }
    }
  }

  lemma {:induction false} SameClassRun(bh: seq<bool>, bh': seq<bool>, f: seq<int>, ec: seq<int>, l: nat, r: nat,
                                        i: nat, j: nat)
    requires Indexes(f, ec, l, r) && HeadersAt(bh, bh', f, ec, l, r)
    requires l <= i <= j <= r && forall m :: i < m <= j ==> !bh'[m]
    ensures ec[f[i]] == ec[f[j]]
    decreases j
  {
    if i < j { SameClassRun(bh, bh', f, ec, l, r, i, j - 1); }
  }

  lemma HeadersCompare(bh: seq<bool>, bh': seq<bool>, f: seq<int>, ec: seq<int>, l: nat, r: nat, i: nat, j: nat)
    requires Indexes(f, ec, l, r) && HeadersAt(bh, bh', f, ec, l, r) && SortedBy(f, ec, l, r)
    requires l <= i < j <= r
    ensures Start(bh', i) == Start(bh', j) ==> ec[f[i]] == ec[f[j]]
    ensures Start(bh', i) < Start(bh', j) ==> ec[f[i]] < ec[f[j]]
    ensures Start(bh', i) <= Start(bh', j)
  {
    hide Start;
    StartMonotone(bh', i, j);
    if Start(bh', i) == Start(bh', j) {
      SameClassRun(bh, bh', f, ec, l, r, i, j);
    } else {
      var m :| i < m <= j && bh'[m];
      assert ec[f[i]] <= ec[f[m - 1]] < ec[f[m]] <= ec[f[j]];
    }
  }

  lemma PermutationKept(f: seq<int>, f': seq<int>, n: nat)
    requires IsPermutation(f, n) && multiset(f) == multiset(f')
    ensures IsPermutation(f', n)
  {
    assert |f'| == |multiset(f')| == |multiset(f)| == n;
    forall i | 0 <= i < n ensures 0 <= f'[i] < n {
      assert f'[i] in multiset(f);
    }
    forall i, j | 0 <= i < j < n ensures f'[i] != f'[j] {
      if f'[i] == f'[j] { TwiceInMultiset(f', i, j); PermutationCounts(f, n, f'[i]); }
    }
  }

  lemma TwiceInMultiset(f: seq<int>, i: int, j: int)
    requires 0 <= i < j < |f| && f[i] == f[j]
    ensures multiset(f)[f[i]] >= 2
  {
    assert f == f[..i] + [f[i]] + f[i + 1..j] + [f[j]] + f[j + 1..];
  }

  /** Rearranging entries that share a label keeps the ranking. */
  lemma RankedRearranged(b: seq<int>, f: seq<int>, f': seq<int>, st: seq<int>, h: nat, l: nat, r: nat)
    requires Ranked(b, f, st, h) && Rearranged(f, f', l, r) && l <= r < |b|
    requires forall i :: l <= i <= r ==> st[i] == l
    ensures Ranked(b, f', st, h)
  {
    hide EqFor, LtFor;
    PermutationKept(f, f', |b|);
    forall i, j | 0 <= i < |b| && 0 <= j < |b|
      ensures st[i] == st[j] ==> EqFor(b, f'[i], f'[j], h)
      ensures st[i] < st[j] ==> LtFor(b, f'[i], f'[j], h)
    {
      var i', j' := i, j;
      if l <= i <= r { i' := CameFrom(f, f', l, r, i); }
      if l <= j <= r { j' := CameFrom(f, f', l, r, j); }
    }
  }

  /** Positions i and j, in one bucket before the round, are told apart by 2h bytes. */
  ghost predicate Resolved(b: seq<int>, f: seq<int>, bh: seq<bool>, i: nat, j: nat, h: nat)
    requires i < j < |bh| && j < |f| && |b| > 0 && f[i] >= 0 && f[j] >= 0
  {
    && (Start(bh, i) == Start(bh, j) ==> EqFor(b, f[i], f[j], 2 * h))
    && (Start(bh, i) != Start(bh, j) ==> LtFor(b, f[i], f[j], 2 * h))
  }

  /** The round so far: bh0, f0 are the headers and entries it began with, ec its classes,
      and the buckets up to place r have been refined. */
  ghost predicate Round(b: seq<int>, bh0: seq<bool>, f0: seq<int>, ec: seq<int>, f: seq<int>, bh: seq<bool>,
                        r: int, h: nat)
  {
    && 0 < |b| <= |bh0| == |bh| && -1 <= r < |b| && h <= |b|
    && Ranked(b, f0, Starts(bh0, |b|), h) && Classes(ec, f0, Starts(bh0, |b|), h, |f0|)
    && Ranked(b, f, Starts(bh0, |b|), h)
    && (forall i :: 0 <= i < |bh| && bh0[i] ==> bh[i])
    && (forall i :: r < i < |bh| ==> bh[i] == bh0[i])
    && (r + 1 < |b| ==> bh0[r + 1])
    && (forall i, j :: 0 <= i < j <= r && Start(bh0, i) == Start(bh0, j) ==> Resolved(b, f, bh, i, j, h))
  }

  /** Two entries of the bucket just sorted. */
  lemma NewPairResolved(b: seq<int>, bh0: seq<bool>, f0: seq<int>, ec: seq<int>, f: seq<int>, bh: seq<bool>,
                        bh': seq<bool>, l: nat, r: nat, h: nat, i: nat, j: nat)
    requires 0 < |b| <= |bh0| && l <= i < j <= r < |b| && h <= |b|
    requires Ranked(b, f0, Starts(bh0, |b|), h) && Classes(ec, f0, Starts(bh0, |b|), h, |f0|)
    requires Ranked(b, f, Starts(bh0, |b|), h) && Start(bh0, i) == Start(bh0, j)
    requires Indexes(f, ec, l, r) && SortedBy(f, ec, l, r) && HeadersAt(bh, bh', f, ec, l, r)
    ensures 0 <= f[i] && 0 <= f[j] && Resolved(b, f, bh', i, j, h)
  {
    hide EqFor, LtFor, Start, SortedBy, HeadersAt, Classes;
    var s, t := f[i], f[j];
    HeadersCompare(bh, bh', f, ec, l, r, i, j);
    ClassCompares(b, ec, f0, Starts(bh0, |b|), h, s, t);
    assert Starts(bh0, |b|)[i] == Starts(bh0, |b|)[j];
    assert EqFor(b, s, t, h);
    if ec[s] == ec[t] {
      EqDouble(b, s, t, h);
    } else {
      LtDouble(b, s, t, h);
    }
  }

  lemma OldPairResolved(b: seq<int>, f: seq<int>, f': seq<int>, bh: seq<bool>, bh': seq<bool>, i: nat, j: nat, h: nat)
    requires i < j < |bh| == |bh'| && j < |f| == |f'| && |b| > 0 && f[i] >= 0 && f[j] >= 0
    requires Resolved(b, f, bh, i, j, h)
    requires f'[i] == f[i] && f'[j] == f[j] && forall m :: 0 <= m <= j ==> bh'[m] == bh[m]
    ensures Resolved(b, f', bh', i, j, h)
  {
    hide EqFor, LtFor;
    StartIs(bh', i, Start(bh, i));
    StartIs(bh', j, Start(bh, j));
  }

  lemma BucketStarts(b: seq<int>, bh0: seq<bool>, bh: seq<bool>, r0: int, l: nat, r: nat)
    requires -1 <= r0 < l <= r < |bh0| == |bh| && |b| <= |bh|
    requires forall i :: r0 < i < |bh| ==> bh[i] == bh0[i]
    requires forall m :: r0 < m <= l ==> bh[m]
    requires forall m :: l < m <= r ==> !bh[m]
    ensures forall i :: l <= i <= r ==> Start(bh0, i) == l
    ensures forall i :: r0 < i <= l ==> Start(bh0, i) == i
  {
    forall i | l <= i <= r ensures Start(bh0, i) == l { StartIs(bh0, i, l); }
  }

  lemma BucketRefined(b: seq<int>, bh0: seq<bool>, f0: seq<int>, ec: seq<int>, f: seq<int>, bh: seq<bool>, r0: int,
                      f': seq<int>, bh': seq<bool>, l: nat, r: nat, h: nat)
    requires Round(b, bh0, f0, ec, f, bh, r0, h) && r0 < l < r < |b|
    requires forall m :: r0 < m <= l ==> bh[m]
    requires (forall m :: l < m <= r ==> !bh[m]) && (r + 1 < |bh| ==> bh[r + 1])
    requires Rearranged(f, f', l, r)
    requires Indexes(f', ec, l, r) && SortedBy(f', ec, l, r) && HeadersAt(bh, bh', f', ec, l, r)
    ensures Round(b, bh0, f0, ec, f', bh', r, h)
  {
    hide EqFor, LtFor, Start, SortedBy, Classes, Resolved;
    BucketStarts(b, bh0, bh, r0, l, r);
    RankedRearranged(b, f, f', Starts(bh0, |b|), h, l, r);
    forall i, j | 0 <= i < j <= r && Start(bh0, i) == Start(bh0, j) ensures Resolved(b, f', bh', i, j, h) {
      if l <= i {
        NewPairResolved(b, bh0, f0, ec, f', bh, bh', l, r, h, i, j);
      } else {
        OldPairResolved(b, f, f', bh, bh', i, j, h);
      }
    }
  }

  lemma EqRefl(b: seq<int>, s: nat, h: nat)
    requires |b| > 0
    ensures EqFor(b, s, s, h)
  {
  }

  lemma EqSym(b: seq<int>, s: nat, t: nat, h: nat)
    requires |b| > 0 && EqFor(b, s, t, h)
    ensures EqFor(b, t, s, h)
  {
  }

  lemma PairDone(b: seq<int>, bh0: seq<bool>, f0: seq<int>, ec: seq<int>, f: seq<int>, bh: seq<bool>, r: int, h: nat,
                 i: nat, j: nat)
    requires Round(b, bh0, f0, ec, f, bh, r, h) && i < j < |b|
    requires forall m :: r < m < |b| ==> bh[m]
    ensures 0 <= f[i] && 0 <= f[j] && Resolved(b, f, bh, i, j, h)
  {
    hide EqFor, LtFor, Start, Classes;
    StartMonotone(bh0, i, j);
    StartMonotone(bh, i, j);
    var st0 := Starts(bh0, |b|);
    assert j > r ==> bh0[j];
    if st0[i] != st0[j] {
      assert st0[i] < st0[j];
      LtLonger(b, f[i], f[j], h, 2 * h);
    }
  }

  /** All buckets refined: the entries are ranked by twice as many bytes. */
  lemma RoundDone(b: seq<int>, bh0: seq<bool>, f0: seq<int>, ec: seq<int>, f: seq<int>, bh: seq<bool>, r: int, h: nat)
    requires Round(b, bh0, f0, ec, f, bh, r, h)
    requires forall m :: r < m < |b| ==> bh[m]
    ensures Ranked(b, f, Starts(bh, |b|), 2 * h)
  {
    hide EqFor, LtFor, Start, Classes;
    var st := Starts(bh, |b|);
    forall i, j | 0 <= i < |b| && 0 <= j < |b|
      ensures st[i] == st[j] ==> EqFor(b, f[i], f[j], 2 * h)
      ensures st[i] < st[j] ==> LtFor(b, f[i], f[j], 2 * h)
    {
      if i < j {
        PairDone(b, bh0, f0, ec, f, bh, r, h, i, j);
      } else if j < i {
        PairDone(b, bh0, f0, ec, f, bh, r, h, j, i);
        StartMonotone(bh, j, i);
        if st[i] == st[j] { EqSym(b, f[j], f[i], 2 * h); }
      } else {
        EqRefl(b, f[i], 2 * h);
      }
    }
  }

  method RefineBucket(fmap: array<int>, eclass: array<int>, bhtab: array<bool>, l: nat, r: nat, ghost b: seq<int>,
                      ghost bh0: seq<bool>, ghost f0: seq<int>, ghost r0: int, ghost h: nat)
    requires fmap != eclass && l < r < |b| < 0x7fffffff && r + 1 < bhtab.Length && fmap.Length == |b|
    requires forall i :: 0 <= i < eclass.Length ==> eclass[i] >= 0
    requires -1 <= r0 < l && Round(b, bh0, f0, eclass[..], fmap[..], bhtab[..], r0, h)
    requires forall m :: r0 < m <= l ==> bhtab[m]
    requires (forall m :: l < m <= r ==> !bhtab[m]) && bhtab[r + 1]
    modifies fmap, bhtab
    ensures Round(b, bh0, f0, eclass[..], fmap[..], bhtab[..], r, h)
    ensures forall m :: r < m < bhtab.Length ==> bhtab[m] == old(bhtab[m])
  {
    hide Round, Rearranged, SortedBy;
    ghost var f, bh, ec := fmap[..], bhtab[..], eclass[..];
    RoundIndexes(b, bh0, f0, ec, f, bh, r0, h, l, r);
    FallbackQSort3(fmap, eclass, l, r);
    ScanHeaders(fmap, eclass, bhtab, l, r);
    BucketRefined(b, bh0, f0, ec, f, bh, r0, fmap[..], bhtab[..], l, r, h);
  }

  lemma RoundIndexes(b: seq<int>, bh0: seq<bool>, f0: seq<int>, ec: seq<int>, f: seq<int>, bh: seq<bool>, r0: int,
                     h: nat, l: nat, r: nat)
    requires Round(b, bh0, f0, ec, f, bh, r0, h) && l <= r < |b|
    ensures Indexes(f, ec, l, r)
  {
  }

  /** One round: refine every bucket of two or more, and count the entries in them. */
  method RefineAll(fmap: array<int>, eclass: array<int>, bhtab: array<bool>, nblock: nat, ghost b: seq<int>, ghost h: nat)
    returns (nNotDone: nat)
    requires fmap != eclass && 0 < nblock == |b| < 0x7fffffff && fmap.Length == eclass.Length == nblock
    requires forall i :: 0 <= i < eclass.Length ==> eclass[i] >= 0
    requires Sentinels(bhtab[..], nblock) && bhtab[0] && 1 <= h <= nblock
    requires Ranked(b, fmap[..], Starts(bhtab[..], nblock), h)
    requires Classes(eclass[..], fmap[..], Starts(bhtab[..], nblock), h, nblock)
    modifies fmap, bhtab
    ensures Sentinels(bhtab[..], nblock) && bhtab[0]
    ensures Ranked(b, fmap[..], Starts(bhtab[..], nblock), 2 * h)
    ensures nNotDone == 0 ==> forall i :: 0 <= i < nblock ==> bhtab[i]
  {
    hide Round, Ranked, Classes;
    ghost var f0, bh0, ec := fmap[..], bhtab[..], eclass[..];
    nNotDone := 0;
    var r := -1;
    RoundStart(b, bh0, f0, ec, h);
    while true
      invariant -1 <= r < nblock && eclass[..] == ec
      invariant Round(b, bh0, f0, ec, fmap[..], bhtab[..], r, h)
      invariant forall m :: r < m < bhtab.Length ==> bhtab[m] == bh0[m]
      invariant Sentinels(bhtab[..], nblock) && bhtab[r + 1]
      invariant nNotDone == 0 ==> r == -1
      invariant bhtab[0]
      decreases nblock - r
    {
      var l, r' := NextBucket(bhtab, nblock, r + 1);
      if l >= nblock { break; }
      ghost var r0 := r;
      r := r';
      if r >= nblock { break; }
      if r > l {
        nNotDone := nNotDone + (r - l + 1);
        SentinelsKept(bhtab[..], nblock);
        RefineBucket(fmap, eclass, bhtab, l, r, b, bh0, f0, r0, h);
        RoundZero(b, bh0, f0, ec, fmap[..], bhtab[..], r, h);
      }
    }
    RoundDone(b, bh0, f0, ec, fmap[..], bhtab[..], r, h);
  }

  lemma SentinelsKept(bh: seq<bool>, n: nat)
    requires Sentinels(bh, n)
    ensures forall bh': seq<bool> {:trigger Sentinels(bh', n)} ::
              |bh'| == |bh| && (forall m :: n <= m < |bh| ==> bh'[m] == bh[m]) ==> Sentinels(bh', n)
  {
  }

  lemma RoundStart(b: seq<int>, bh0: seq<bool>, f0: seq<int>, ec: seq<int>, h: nat)
    requires 0 < |b| <= |bh0| && h <= |b| && bh0[0]
    requires Ranked(b, f0, Starts(bh0, |b|), h) && Classes(ec, f0, Starts(bh0, |b|), h, |b|)
    ensures Round(b, bh0, f0, ec, f0, bh0, -1, h)
  {
    hide EqFor, LtFor, Start;
  }

  lemma RoundZero(b: seq<int>, bh0: seq<bool>, f0: seq<int>, ec: seq<int>, f: seq<int>, bh: seq<bool>, r: int, h: nat)
    requires Round(b, bh0, f0, ec, f, bh, r, h) && bh0[0]
    ensures bh[0]
  {
  }

  // ---------------------------------------------------------------- rebuilding the block

  lemma {:induction false} CountIsMultiplicity(s: seq<int>, i: nat, c: int)
    requires i <= |s|
    ensures CountEq(s, i, c) == multiset(s[..i])[c]
  {
    if i > 0 {
      CountIsMultiplicity(s, i - 1, c);
      assert s[..i] == s[..i - 1] + [s[i - 1]];
    }
  }

  /** The first byte of each rotation, in the order of f. */
  ghost function FirstColumn(b: seq<int>, f: seq<int>): (g: seq<int>)
    requires IsPermutation(f, |b|)
    ensures |g| == |b| && forall i :: 0 <= i < |b| ==> g[i] == b[f[i]]
  {
    seq(|b|, i requires 0 <= i < |b| => b[f[i]])
  }

  ghost function Iota(n: nat): (s: seq<int>)
    ensures |s| == n && forall i :: 0 <= i < n ==> s[i] == i
  {
    seq(n, i => i)
  }

  lemma FirstColumnMultiset(b: seq<int>, f: seq<int>)
    requires IsPermutation(f, |b|)
    ensures multiset(FirstColumn(b, f)) == multiset(b)
  {
    var byteAt := i => if 0 <= i < |b| then b[i] else 0;
    PermutationsAgree(f, Iota(|b|), |b|);
    MapMultiset(byteAt, f, Iota(|b|));
    assert Map(byteAt, f) == FirstColumn(b, f);
    assert Map(byteAt, Iota(|b|)) == b;
  }

  lemma FirstColumnCounts(b: seq<int>, f: seq<int>, c: int)
    requires IsPermutation(f, |b|)
    ensures CountEq(FirstColumn(b, f), |b|, c) == CountEq(b, |b|, c)
  {
    hide CountEq, IsPermutation;
    var g := FirstColumn(b, f);
    FirstColumnMultiset(b, f);
    CountIsMultiplicity(g, |b|, c);
    CountIsMultiplicity(b, |b|, c);
    assert g[..|b|] == g && b[..|b|] == b;
  }

  ghost predicate Ascending(g: seq<int>) {
    forall i, j :: 0 <= i < j < |g| ==> g[i] <= g[j]
  }

  lemma FirstColumnAscends(b: seq<int>, f: seq<int>)
    requires SortedRotations(b, f)
    ensures Ascending(FirstColumn(b, f))
  {
    var g := FirstColumn(b, f);
    forall i, j | 0 <= i < j < |b| ensures g[i] <= g[j] {
      assert LexLe(Rot(b, f[i]), Rot(b, f[j]));
      assert Rot(b, f[i])[0] == g[i] && Rot(b, f[j])[0] == g[j];
    }
  }

  /** What is left to hand out of byte c when i entries have been given theirs. */
  ghost predicate LeftOver(ft: seq<int>, g: seq<int>, i: nat)
    requires i <= |g|
  {
    |ft| == 256 && forall c :: 0 <= c < 256 ==> ft[c] == CountEq(g, |g|, c) - CountEq(g, i, c)
  }

  lemma {:induction false} NoMoreOf(g: seq<int>, i: nat, k: nat, c: int)
    requires i <= k <= |g| && forall m :: i <= m < |g| ==> g[m] != c
    ensures CountEq(g, k, c) == CountEq(g, i, c)
    decreases k
  {
    if i < k { NoMoreOf(g, i, k - 1, c); }
  }

  lemma HandOut(ft: seq<int>, g: seq<int>, i: nat)
    requires i < |g| && IsColumn(g) && Ascending(g) && LeftOver(ft, g, i)
    ensures 0 <= g[i] < 256 && ft[g[i]] > 0 && forall c :: 0 <= c < g[i] ==> ft[c] == 0
    ensures LeftOver(ft[g[i] := ft[g[i]] - 1], g, i + 1)
  {
    CountEqGrows(g, i, |g|, g[i]);
    forall c | 0 <= c < g[i] ensures ft[c] == 0 { NoMoreOf(g, i, |g|, c); }
  }

  /** The block is rebuilt: eclass8 shares its memory with eclass and has been
      overwritten, so nothing is assumed of its contents. */
  method RebuildBlock(fmap: array<int>, ftabCopy: array<int>, eclass8: array<int>, nblock: nat, ghost b: seq<int>)
    requires fmap != ftabCopy && fmap != eclass8 && ftabCopy != eclass8
    requires nblock == |b| == fmap.Length <= eclass8.Length && ftabCopy.Length == 256
    requires IsColumn(b) && SortedRotations(b, fmap[..])
    requires forall c :: 0 <= c < 256 ==> ftabCopy[c] == CountEq(b, nblock, c)
    modifies ftabCopy, eclass8
    ensures eclass8[..nblock] == b
  {
    hide SortedRotations, CountEq, IsColumn, Ascending, LeftOver, IsPermutation;
    ghost var f := fmap[..];
    RebuildStart(b, f, ftabCopy[..]);
    ghost var g := FirstColumn(b, f);
    var j := 0;
    for i := 0 to nblock
      invariant fmap[..] == f && LeftOver(ftabCopy[..], g, i)
      invariant 0 <= j && (i < nblock ==> j <= g[i])
      invariant forall k :: 0 <= k < i ==> eclass8[f[k]] == b[f[k]]
    {
      HandOut(ftabCopy[..], g, i);
      while ftabCopy[j] == 0
        invariant 0 <= j <= g[i]
        decreases g[i] - j
      { j := j + 1; }
      assert j == g[i];
      ghost var ft := ftabCopy[..];
      ftabCopy[j] := ftabCopy[j] - 1;
      assert ftabCopy[..] == ft[j := ft[j] - 1];
      Entry(f, i);
      eclass8[fmap[i]] := j;
      NextNotBelow(g, i);
    }
    AllWritten(f, eclass8[..nblock], b);
  }

  lemma NextNotBelow(g: seq<int>, i: nat)
    requires Ascending(g) && i < |g|
    ensures i + 1 < |g| ==> g[i] <= g[i + 1]
  {
  }

  lemma RebuildStart(b: seq<int>, f: seq<int>, ft: seq<int>)
    requires IsColumn(b) && SortedRotations(b, f)
    requires |ft| == 256 && forall c :: 0 <= c < 256 ==> ft[c] == CountEq(b, |b|, c)
    ensures IsPermutation(f, |b|)
    ensures var g := FirstColumn(b, f); IsColumn(g) && Ascending(g) && LeftOver(ft, g, 0)
    ensures |b| > 0 ==> FirstColumn(b, f)[0] >= 0
    ensures forall k :: 0 <= k < |b| ==> 0 <= f[k] < |b|
  {
    FirstColumnAscends(b, f);
    forall c | 0 <= c < 256 ensures ft[c] == CountEq(FirstColumn(b, f), |b|, c) { FirstColumnCounts(b, f, c); }
  }

  lemma AllWritten(f: seq<int>, w: seq<int>, b: seq<int>)
    requires IsPermutation(f, |b|) && |w| == |b|
    requires forall k :: 0 <= k < |b| ==> 0 <= f[k] < |b| && w[f[k]] == b[f[k]]
    ensures w == b
  {
    forall p | 0 <= p < |b| ensures w[p] == b[p] {
      PermutationOnto(f, |b|, p);
      var k :| 0 <= k < |b| && f[k] == p;
    }
  }

  // ---------------------------------------------------------------- the whole sort

  lemma CursorsAtStart(ft: seq<int>, b: seq<int>)
    requires |ft| == 257 && forall c :: 0 <= c < 256 ==> ft[c] == CountLt(b, |b|, c + 1)
    ensures DownCursors(ft, b, 0)
  {
  }

  lemma CursorsAtEnd(ft: seq<int>, b: seq<int>)
    requires DownCursors(ft, b, |b|)
    ensures forall c :: 0 <= c < 256 ==> ft[c] == CountLt(b, |b|, c)
  {
    forall c | 0 <= c < 256 ensures ft[c] == CountLt(b, |b|, c) { CountsStep(b, |b|, c); }
  }

  /** The initial radix pass and its header bits. */
  method RadixPass(fmap: array<int>, eclass8: array<int>, bhtab: array<bool>, nblock: nat) returns (ftabCopy: array<int>)
    requires fmap != eclass8 && 0 < nblock == fmap.Length <= eclass8.Length
    requires bhtab.Length % 32 == 0 && nblock + 96 <= bhtab.Length && IsColumn(eclass8[..nblock])
    modifies fmap, bhtab
    ensures fresh(ftabCopy) && ftabCopy.Length == 256
    ensures forall c :: 0 <= c < 256 ==> ftabCopy[c] == CountEq(eclass8[..nblock], nblock, c)
    ensures Sentinels(bhtab[..], nblock) && bhtab[0]
    ensures Ranked(eclass8[..nblock], fmap[..], Starts(bhtab[..], nblock), 1)
    ensures eclass8[..nblock] == old(eclass8[..nblock])
  {
    hide CountLt, CountEq, IsColumn, DownCursors, Bucketed, Ranked, Sentinels;
    ghost var b := eclass8[..nblock];
    var ftab := new int[257];
    ftabCopy := new int[256];
    CountBytes(eclass8, nblock, ftab, ftabCopy, b);
    CursorsAtStart(ftab[..], b);
    PlaceAll(eclass8, fmap, ftab, nblock, b);
    CursorsAtEnd(ftab[..], b);
    InitHeaders(bhtab, ftab, nblock, b);
    CountLtEnds(b, nblock);
    InitialRanked(b, fmap[..], bhtab[..]);
  }

  /** fallbackSort: every rotation of the block, in order; and the block is there again at
      the end, though its memory was used for the class numbers meanwhile. */
  method FallbackSort(fmap: array<int>, eclass: array<int>, eclass8: array<int>, bhtab: array<bool>, nblock: nat)
    requires fmap != eclass && fmap != eclass8 && eclass != eclass8
    requires 0 < nblock < 0x7fffffff && fmap.Length == eclass.Length == nblock <= eclass8.Length
    requires bhtab.Length % 32 == 0 && nblock + 96 <= bhtab.Length && IsColumn(eclass8[..nblock])
    modifies fmap, eclass, eclass8, bhtab
    ensures SortedRotations(old(eclass8[..nblock]), fmap[..])
    ensures eclass8[..nblock] == old(eclass8[..nblock])
  {
    hide SortedRotations, IsColumn, Ranked, Sentinels, Classes, CountEq;
    ghost var b := eclass8[..nblock];
    var ftabCopy := RadixPass(fmap, eclass8, bhtab, nblock);
    var h := 1;
    while true
      invariant 1 <= h <= nblock && Sentinels(bhtab[..], nblock) && bhtab[0]
      invariant Ranked(b, fmap[..], Starts(bhtab[..], nblock), h)
      invariant forall c :: 0 <= c < 256 ==> ftabCopy[c] == CountEq(b, nblock, c)
      decreases nblock - h
    {
      RankedPermutes(b, fmap[..], Starts(bhtab[..], nblock), h);
      AssignClasses(fmap, eclass, bhtab, nblock, h);
      ClassesNonNegative(eclass[..], fmap[..], bhtab[..], nblock, h);
      var nNotDone := RefineAll(fmap, eclass, bhtab, nblock, b, h);
      h := h * 2;
      if h > nblock || nNotDone == 0 {
        RankedSorted(b, fmap[..], bhtab[..], h);
        break;
      }
    }
    RebuildBlock(fmap, ftabCopy, eclass8, nblock, b);
  }

  lemma RankedPermutes(b: seq<int>, f: seq<int>, st: seq<int>, h: nat)
    requires Ranked(b, f, st, h)
    ensures IsPermutation(f, |b|)
  {
  }

  lemma ClassesNonNegative(ec: seq<int>, f: seq<int>, bh: seq<bool>, n: nat, h: nat)
    requires n <= |bh| && |f| == n && Classes(ec, f, Starts(bh, n), h, n)
    ensures forall s :: 0 <= s < |ec| ==> ec[s] >= 0
  {
    forall s | 0 <= s < |ec| ensures ec[s] >= 0 {
      var i := RankedPlace(f, s, h);
    }
  }
}
