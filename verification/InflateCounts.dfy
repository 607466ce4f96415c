/** Counting and sorting the code lengths (inftrees.c, the first part of inflate_table). */
module InflateCounts {
  import opened Bits
  import opened Counting
  import opened HuffmanCodes
  import opened InverseTransform
  import opened InflateCodes
  import opened InflateSettled

  // ---------------------------------------------------------------- counting and sorting

  ghost predicate Counted(count: seq<int>, u: seq<int>, k: nat)
    requires k <= |u|
  {
    |count| == MAXBITS + 1 && forall n :: 1 <= n <= MAXBITS ==> count[n] == CountEq(u, k, n)
  }

  lemma CountStep(u: seq<int>, k: nat, n: int)
    requires k < |u|
    ensures CountEq(u, k + 1, n) == CountEq(u, k, n) + if u[k] == n then 1 else 0
  {
  }

  lemma CountOne(count: seq<int>, u: seq<int>, k: nat, len: nat)
    requires k < |u| && Counted(count, u, k) && len <= MAXBITS && (len == 0 ==> u[k] == MAXBITS + 1) && (len > 0 ==> u[k] == len)
    ensures Counted(count[len := count[len] + 1], u, k + 1)
  {
    hide CountEq;
    var c := count[len := count[len] + 1];
    forall n | 1 <= n <= MAXBITS ensures c[n] == CountEq(u, k + 1, n) {
      CountStep(u, k, n);
    }
  }

  lemma NoneCounted(count: seq<int>, u: seq<int>)
    requires |count| == MAXBITS + 1 && forall n :: 0 <= n <= MAXBITS ==> count[n] == 0
    ensures Counted(count, u, 0)
  {
  }

  /** How many symbols have each length. */
  method CountLengths(lens: array<nat>) returns (count: array<int>)
    requires CodeLengths(lens[..])
    ensures fresh(count) && Counted(count[..], Used(lens[..]), lens.Length)
  {
    hide Counted;
    ghost var u := Used(lens[..]);
    count := new int[MAXBITS + 1];
    for len := 0 to MAXBITS + 1
      invariant forall n :: 0 <= n < len ==> count[n] == 0
    {
      count[len] := 0;
    }
    NoneCounted(count[..], u);
    for sym := 0 to lens.Length
      invariant Counted(count[..], u, sym)
    {
      ghost var c := count[..];
      CountOne(c, u, sym, lens[sym]);
      count[lens[sym]] := count[lens[sym]] + 1;
      assert count[..] == c[lens[sym] := c[lens[sym]] + 1];
    }
  }

  /** A length that does not occur. */
  lemma NoSuchLength(u: seq<int>, n: int)
    ensures CountEq(u, |u|, n) == 0 <==> forall k :: 0 <= k < |u| ==> u[k] != n
  {
    hide CountEq;
    if exists k :: 0 <= k < |u| && u[k] == n {
      var k :| 0 <= k < |u| && u[k] == n;
      CountEqGrows(u, k, |u|, n);
    } else {
      NoneEqual(u, |u|, n);
    }
  }

  lemma {:induction false} NoneEqual(u: seq<int>, i: nat, n: int)
    requires i <= |u| && forall k :: 0 <= k < i ==> u[k] != n
    ensures CountEq(u, i, n) == 0
  {
    if i > 0 { NoneEqual(u, i - 1, n); }
  }

  /** The longest and the shortest length in use. */
  ghost predicate Bounds(u: seq<int>, min: nat, max: nat) {
    && (forall k :: 0 <= k < |u| ==> u[k] > MAXBITS || min <= u[k] <= max)
    && max <= MAXBITS && (max > 0 ==> 1 <= min <= max && (exists k :: 0 <= k < |u| && u[k] == max))
  }

  method LongestLength(count: array<int>, ghost u: seq<int>) returns (max: nat)
    requires Counted(count[..], u, |u|) && forall k :: 0 <= k < |u| ==> u[k] >= 1
    ensures max <= MAXBITS && (forall k :: 0 <= k < |u| ==> u[k] > MAXBITS || u[k] <= max)
    ensures max > 0 ==> exists k :: 0 <= k < |u| && u[k] == max
  {
    max := MAXBITS;
    while max >= 1
      invariant max <= MAXBITS && forall k :: 0 <= k < |u| ==> u[k] > MAXBITS || u[k] <= max
    {
      NoSuchLength(u, max);
      if count[max] != 0 { break; }
      max := max - 1;
    }
  }

  method ShortestLength(count: array<int>, ghost u: seq<int>, max: nat) returns (min: nat)
    requires Counted(count[..], u, |u|) && (forall k :: 0 <= k < |u| ==> u[k] >= 1) && 1 <= max <= MAXBITS
    requires forall k :: 0 <= k < |u| ==> u[k] > MAXBITS || u[k] <= max
    requires exists k :: 0 <= k < |u| && u[k] == max
    ensures Bounds(u, min, max) && exists k :: 0 <= k < |u| && u[k] == min
  {
    min := 1;
    while min < max
      invariant 1 <= min <= max && forall k :: 0 <= k < |u| ==> u[k] >= min
    {
      NoSuchLength(u, min);
      if count[min] != 0 { break; }
      min := min + 1;
    }
  }

  lemma EndAtZero(u: seq<int>)
    requires forall k :: 0 <= k < |u| ==> u[k] >= 1
    ensures End(u, 0) == 0
  {
    NoneEqual(u, |u|, 0);
  }

  /** Is the code over-subscribed?  Otherwise, how much of the code space is left? */
  method SpaceLeft(count: array<int>, ghost u: seq<int>) returns (left: int)
    requires Counted(count[..], u, |u|) && forall k :: 0 <= k < |u| ==> u[k] >= 1
    ensures left >= 0 <==> Fits(u, MAXBITS)
    ensures left >= 0 ==> left == Pow2(MAXBITS) - End(u, MAXBITS)
  {
    hide First, CountEq, Pow2;
    EndAtZero(u);
    left := 1;
    assert Pow2(0) == 1 by { PowZero(); }
    for len := 1 to MAXBITS + 1
      invariant left >= 0 && left == Pow2(len - 1) - End(u, len - 1)
      invariant forall n :: 0 <= n < len ==> First(u, n) + CountEq(u, |u|, n) <= Pow2(n)
    {
      FirstNext(u, len - 1);
      PowNext(len - 1);
      left := 2 * left;
      left := left - count[len];
      if left < 0 {
        assert First(u, len) + CountEq(u, |u|, len) > Pow2(len);
        return;
      }
    }
  }

  lemma PowZero()
    ensures Pow2(0) == 1
  {
  }

  lemma PowNext(k: nat)
    ensures Pow2(k + 1) == 2 * Pow2(k)
  {
  }

  // ---------------------------------------------------------------- sorting

  /** The first k symbols that have a code are at their ranks. */
  ghost predicate Sorted(work: seq<nat>, u: seq<int>, k: nat)
    requires k <= |u|
  {
    |work| == |u| && forall i :: 0 <= i < k && u[i] <= MAXBITS ==> Rank(u, i) < |u| && work[Rank(u, i)] == i
  }

  ghost predicate Offsets(offs: seq<int>, u: seq<int>, k: nat)
    requires k <= |u|
  {
    |offs| == MAXBITS + 1 && forall n :: 1 <= n <= MAXBITS ==> offs[n] == CountLt(u, |u|, n) + CountEq(u, k, n)
  }

  lemma SortOne(work: seq<nat>, offs: seq<int>, u: seq<int>, k: nat)
    requires k < |u| && Sorted(work, u, k) && Offsets(offs, u, k) && 1 <= u[k] <= MAXBITS
    ensures 0 <= offs[u[k]] < |work| && Sorted(work[offs[u[k]] := k], u, k + 1)
    ensures Offsets(offs[u[k] := offs[u[k]] + 1], u, k + 1)
  {
    hide CountEq, CountLt;
    RankBelowNextSymbol(u, k);
    var o := offs[u[k] := offs[u[k]] + 1];
    forall n | 1 <= n <= MAXBITS ensures o[n] == CountLt(u, |u|, n) + CountEq(u, k + 1, n) {
      CountStep(u, k, n);
    }
    assert offs[u[k]] == Rank(u, k);
    forall i | 0 <= i < k + 1 && u[i] <= MAXBITS ensures Rank(u, i) < |u| && work[Rank(u, k) := k][Rank(u, i)] == i {
      if i < k && Rank(u, i) == Rank(u, k) { RankDistinct(u, i, k); }
    }
  }

  lemma SortNone(work: seq<nat>, offs: seq<int>, u: seq<int>, k: nat)
    requires k < |u| && Sorted(work, u, k) && Offsets(offs, u, k) && u[k] > MAXBITS
    ensures Sorted(work, u, k + 1) && Offsets(offs, u, k + 1)
  {
    hide CountEq, CountLt, Rank;
    forall n | 1 <= n <= MAXBITS ensures offs[n] == CountLt(u, |u|, n) + CountEq(u, k + 1, n) {
      CountStep(u, k, n);
    }
  }

  lemma {:induction false} NoneLess(u: seq<int>, i: nat, n: int)
    requires i <= |u| && forall k :: 0 <= k < |u| ==> u[k] >= n
    ensures CountLt(u, i, n) == 0
  {
    if i > 0 { NoneLess(u, i - 1, n); }
  }

  method FindOffsets(count: array<int>, ghost u: seq<int>) returns (offs: array<int>)
    requires Counted(count[..], u, |u|) && forall k :: 0 <= k < |u| ==> u[k] >= 1
    ensures fresh(offs) && Offsets(offs[..], u, 0)
  {
    hide CountEq, CountLt;
    offs := new int[MAXBITS + 1];
    NoneLess(u, |u|, 1);
    offs[1] := 0;
    for len := 1 to MAXBITS
      invariant forall n :: 1 <= n <= len ==> offs[n] == CountLt(u, |u|, n)
      invariant Counted(count[..], u, |u|)
    {
      CountsStep(u, |u|, len);
      offs[len + 1] := offs[len] + count[len];
    }
    forall n | 1 <= n <= MAXBITS ensures CountEq(u, 0, n) == 0 { NoneEqual(u, 0, n); }
  }

  /** Symbols sorted by length, and by symbol within each length. */
  method SortSymbols(lens: array<nat>, count: array<int>) returns (work: array<nat>)
    requires CodeLengths(lens[..]) && Counted(count[..], Used(lens[..]), lens.Length)
    ensures fresh(work) && Sorted(work[..], Used(lens[..]), lens.Length)
  {
    hide Counted, Sorted, Offsets;
    ghost var u := Used(lens[..]);
    var offs := FindOffsets(count, u);
    work := new nat[lens.Length];
    NothingSorted(work[..], u);
    for sym := 0 to lens.Length
      invariant Sorted(work[..], u, sym) && Offsets(offs[..], u, sym)
    {
      ghost var w, o := work[..], offs[..];
      if lens[sym] != 0 {
        SortOne(w, o, u, sym);
        OffsetsLength(o, u, sym);
        work[offs[lens[sym]]] := sym;
        offs[lens[sym]] := offs[lens[sym]] + 1;
        assert work[..] == w[o[u[sym]] := sym] && offs[..] == o[u[sym] := o[u[sym]] + 1];
      } else {
        SortNone(w, o, u, sym);
      }
    }
  }

  lemma OffsetsLength(offs: seq<int>, u: seq<int>, k: nat)
    requires k <= |u| && Offsets(offs, u, k)
    ensures |offs| == MAXBITS + 1
  {
  }

  lemma NothingSorted(work: seq<nat>, u: seq<int>)
    requires |work| == |u|
    ensures Sorted(work, u, 0)
  {
  }
}
