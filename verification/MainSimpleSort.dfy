/** Sorting a short stretch of rotations that share a beginning (blocksort.c, mainSimpleSort):
    Shell sort with Knuth's increments. */
module MainSimpleSort {
  import opened Rotations
  import opened PrefixOrder
  import opened MainOrder
  import opened MainCompare
  import opened FallbackQSort

  const INCS: seq<nat> := [1, 4, 13, 40, 121, 364, 1093, 3280, 9841, 29524, 88573, 265720, 797161, 2391484]

  // ---------------------------------------------------------------- the budget

  /** m times u. */
  ghost function Fee(u: nat, m: int): int { u * m }

  lemma FeeLaws(u: nat, a: int, b: int)
    ensures Fee(u, a + b) == Fee(u, a) + Fee(u, b) && Fee(u, 0) == 0 && Fee(u, 1) == u
    ensures a >= 0 ==> Fee(u, a) >= 0
  {
  }

  lemma FeeGrows(u: nat, a: int, b: int)
    requires a <= b
    ensures Fee(u, a) <= Fee(u, b)
  {
    FeeLaws(u, a, b - a);
    FeeLaws(u, b - a, 0);
  }

  /** What it may cost to insert an entry among others of an array of len entries, where a
      comparison takes at most e. */
  ghost function PerEntry(e: nat, len: nat): (u: nat)
    ensures u == Fee(e, len)
  {
    FeeLaws(e, len, 0);
    Fee(e, len)
  }

  // ---------------------------------------------------------------- stretches

  /** The entries at lo..hi are different rotations that agree on their first d bytes. */
  ghost predicate Bundle(p: seq<int>, b: seq<int>, lo: int, hi: int, d: nat) {
    && 0 <= lo && hi < |p| && |b| > 0
    && (forall i :: lo <= i <= hi ==> 0 <= p[i] < |b|)
    && (forall i, j :: lo <= i < j <= hi ==> p[i] != p[j])
    && forall i, j :: lo <= i <= hi && lo <= j <= hi ==> EqFor(b, p[i], p[j], d)
  }

  ghost predicate InOrder(p: seq<int>, b: seq<int>, lo: int, hi: int)
    requires 0 <= lo && hi < |p|
  {
    forall i, j :: lo <= i < j <= hi ==> Le(b, p[i], p[j])
  }

  lemma BundleRearranged(p: seq<int>, q: seq<int>, b: seq<int>, lo: int, hi: int, d: nat)
    requires Bundle(p, b, lo, hi, d) && Rearranged(p, q, lo, hi)
    ensures Bundle(q, b, lo, hi, d)
  {
    hide EqFor, Rearranged;
    SameSize(p, q, lo, hi);
    DistinctStretch(p, q, lo, hi);
    forall i | lo <= i <= hi ensures 0 <= q[i] < |b| {
      var k := CameFrom(p, q, lo, hi, i);
    }
    forall i, j | lo <= i <= hi && lo <= j <= hi ensures EqFor(b, q[i], q[j], d) {
      var k := CameFrom(p, q, lo, hi, i);
      var l := CameFrom(p, q, lo, hi, j);
      assert EqFor(b, p[k], p[l], d);
    }
  }

  lemma DistinctStretch(p: seq<int>, q: seq<int>, lo: int, hi: int)
    requires Rearranged(p, q, lo, hi) && |p| == |q| && 0 <= lo && hi < |p| && forall i, j :: lo <= i < j <= hi ==> p[i] != p[j]
    ensures forall i, j :: lo <= i < j <= hi ==> q[i] != q[j]
  {
    hide Rearranged;
    if lo <= hi {
      var s, t := p[lo..hi + 1], q[lo..hi + 1];
      SegmentMultiset(p, q, lo, hi);
      DistinctRearranged(s, t);
      forall i, j | lo <= i < j <= hi ensures q[i] != q[j] { assert q[i] == t[i - lo] && q[j] == t[j - lo]; }
    }
  }

  lemma SameSize(p: seq<int>, q: seq<int>, lo: int, hi: int)
    requires Rearranged(p, q, lo, hi)
    ensures |p| == |q|
  {
  }

  /** v is being inserted; the hole is at j, and what lies between it and place i is no less. */
  ghost predicate Sifting(p: seq<int>, b: seq<int>, lo: int, i: int, j: int, v: int) {
    && 0 <= lo <= j <= i < |p|
    && (forall k, l :: lo <= k < l <= i && k != j && l != j ==> Le(b, p[k], p[l]))
    && (forall k :: j < k <= i ==> Le(b, v, p[k]))
  }

  lemma SiftStart(p: seq<int>, b: seq<int>, lo: int, i: int)
    requires 0 <= lo < i < |p| && InOrder(p, b, lo, i - 1)
    ensures Sifting(p, b, lo, i, i, p[i])
  {
  }

  lemma SiftStep(p: seq<int>, b: seq<int>, lo: int, i: int, j: int, v: int)
    requires Sifting(p, b, lo, i, j, v) && lo < j && Le(b, v, p[j - 1])
    ensures Sifting(p[j := p[j - 1]], b, lo, i, j - 1, v)
  {
    hide Le;
    var q := p[j := p[j - 1]];
    forall k, l | lo <= k < l <= i && k != j - 1 && l != j - 1 ensures Le(b, q[k], q[l]) {
      var k', l' := if k == j then j - 1 else k, if l == j then j - 1 else l;
      assert Le(b, p[k'], p[l']);
    }
  }

  lemma SiftEnd(p: seq<int>, b: seq<int>, lo: int, i: int, j: int, v: int)
    requires Sifting(p, b, lo, i, j, v) && (j == lo || Le(b, p[j - 1], v))
    ensures InOrder(p[j := v], b, lo, i)
  {
    hide Le;
    var q := p[j := v];
    forall k, l | lo <= k < l <= i ensures Le(b, q[k], q[l]) {
      if l == j && k < j - 1 {
        assert Le(b, p[k], p[j - 1]);
        LeTrans(b, p[k], p[j - 1], v);
      }
    }
  }

  /** The comparison of two entries that share their first d bytes. */
  method Greater(x: nat, y: nat, d: nat, block: array<int>, quadrant: array<int>, nblock: nat, budget: int, ghost b: seq<int>,
                 ghost e: nat)
      returns (gt: bool, budget': int)
    requires Extended(block[..], b) && Quads(quadrant[..], b) && nblock == |b| && d <= 15 && Cheap(b, e)
    requires x < nblock && y < nblock && x != y && EqFor(b, x, y, d)
    ensures if gt then Le(b, y, x) else Le(b, x, y)
    ensures 0 <= budget - budget' <= e
  {
    hide Extended, Quads, Le, EqFor, Cheap;
    ExtendedSize(block[..], b);
    gt, budget' := MainGtU(x + d, y + d, block, quadrant, nblock, budget, b);
    Charged(b, x, y, d, e, budget - budget');
    EqTurned(b, x, y, d);
    if gt { LeByShift(b, y, x, d); } else { LeByShift(b, x, y, d); }
  }

  lemma Charged(b: seq<int>, x: nat, y: nat, d: nat, e: nat, c: nat)
    requires |b| > OVERSHOOT && x < |b| && y < |b| && x != y && d <= 15 && EqFor(b, x, y, d) && Cheap(b, e) && 8 * c <= |b| + 16
    requires c > 0 ==> EqFor(b, Wrapped(|b|, x + d), Wrapped(|b|, y + d), 12 + 8 * c)
    ensures c <= e
  {
    hide Sym, Alike, EqFor;
    if c > e {
      EqLonger(b, x, y, d, 12 + 8 * c);
      LongAlike(b, x, y, d + (12 + 8 * c), e);
    }
  }

  lemma LongAlike(b: seq<int>, s: nat, t: nat, h: nat, e: nat)
    requires |b| > 0 && EqFor(b, s, t, h) && h >= 8 * e + 20
    ensures Alike(b, s, t, e)
  {
    hide Sym;
  }

  /** The entry at i goes to its place among those at i - h, i - 2h, and so on. */
  method InsertOne(ptr: array<int>, block: array<int>, quadrant: array<int>, nblock: nat, lo: nat, hi: nat, i: nat, h: nat, d: nat,
                   budget: int, ghost b: seq<int>, ghost e: nat)
      returns (budget': int)
    requires Extended(block[..], b) && Quads(quadrant[..], b) && nblock == |b| && d <= 15 && ptr != block && ptr != quadrant
    requires Bundle(ptr[..], b, lo, hi, d) && lo + h <= i <= hi && h >= 1 && Cheap(b, e)
    requires h == 1 ==> InOrder(ptr[..], b, lo, i - 1)
    modifies ptr
    ensures Rearranged(old(ptr[..]), ptr[..], lo, hi) && 0 <= budget - budget' <= PerEntry(e, ptr.Length)
    ensures h == 1 ==> InOrder(ptr[..], b, lo, i)
  {
    hide Extended, Quads, Le, EqFor, Rearranged, InOrder, Bundle, Cheap, Fee, PerEntry;
    ghost var p0 := ptr[..];
    BundleSize(p0, b, lo, hi, d);
    var v := ptr[i];
    var j := i;
    budget' := budget;
    assert p0[i := v] == p0;
    RearrangedSelf(p0, lo, hi);
    if h == 1 { SiftStart(p0, b, lo, i); }
    ghost var c: nat := 0;
    FeeLaws(e, 0, 0);
    while true
      invariant c <= i - j && 0 <= budget - budget' <= Fee(e, c)
      invariant lo + h <= j <= i && block[..] == old(block[..]) && quadrant[..] == old(quadrant[..])
      invariant HoleState(p0, ptr[..], lo, hi, j, v)
      invariant h == 1 ==> Sifting(ptr[..], b, lo, i, j, v)
      decreases j
    {
      ghost var p := ptr[..];
      HoleEntries(p0, p, b, lo, hi, j, v, j - h, d);
      var gt;
      gt, budget' := Greater(ptr[j - h], v, d, block, quadrant, nblock, budget', b, e);
      FeeLaws(e, c, 1);
      c := c + 1;
      if !gt {
        if h == 1 { SiftEnd(p, b, lo, i, j, v); }
        break;
      }
      MoveHole(p0, p, lo, hi, j, j - h, v);
      if h == 1 { SiftStep(p, b, lo, i, j, v); }
      ptr[j] := ptr[j - h];
      assert ptr[..] == p[j := p[j - h]];
      j := j - h;
      if j <= lo + h - 1 {
        if h == 1 { SiftEnd(ptr[..], b, lo, i, j, v); }
        break;
      }
    }
    ghost var p := ptr[..];
    ptr[j] := v;
    assert ptr[..] == p[j := v];
    FeeGrows(e, c, ptr.Length);
  }

  lemma BundleSize(p: seq<int>, b: seq<int>, lo: int, hi: int, d: nat)
    requires Bundle(p, b, lo, hi, d)
    ensures 0 <= lo && hi < |p|
  {
  }

  /** The entries still share their beginning while there is a hole. */
  lemma HoleEntries(p0: seq<int>, p: seq<int>, b: seq<int>, lo: int, hi: int, j: int, v: int, k: int, d: nat)
    requires Bundle(p0, b, lo, hi, d) && HoleState(p0, p, lo, hi, j, v) && lo <= k <= hi && k != j
    ensures k < |p| && 0 <= p[k] < |b| && 0 <= v < |b| && p[k] != v && EqFor(b, p[k], v, d)
  {
    hide EqFor;
    BundleRearranged(p0, p[j := v], b, lo, hi, d);
    var q := p[j := v];
    assert EqFor(b, q[k], q[j], d);
    assert q[k] != q[j];
  }

  /** mainSimpleSort: unless the budget runs out, the stretch is in order.  There are at most
      fourteen passes. */
  method SimpleSort(ptr: array<int>, block: array<int>, quadrant: array<int>, nblock: nat, lo: nat, hi: int, d: nat, budget: int,
                        ghost b: seq<int>, ghost e: nat)
      returns (budget': int)
    requires Extended(block[..], b) && Quads(quadrant[..], b) && nblock == |b| <= 900000 && d <= 15 && ptr != block && ptr != quadrant
    requires Bundle(ptr[..], b, lo, hi, d) && -1 <= hi - lo < 900000 && Cheap(b, e)
    modifies ptr
    ensures Rearranged(old(ptr[..]), ptr[..], lo, hi) && Bundle(ptr[..], b, lo, hi, d)
    ensures 0 <= budget - budget' <= Fee(PerEntry(e, ptr.Length), 14 * (hi - lo + 1))
    ensures hi < ptr.Length && (budget' >= 0 ==> InOrder(ptr[..], b, lo, hi))
  {
    hide Extended, Quads, Le, EqFor, Rearranged, InOrder, Bundle, Cheap, Fee, PerEntry;
    ghost var p0, u, m := ptr[..], PerEntry(e, ptr.Length), hi - lo + 1;
    BundleSize(p0, b, lo, hi, d);
    RearrangedSelf(p0, lo, hi);
    FeeLaws(u, 14 * m, 0);
    budget' := budget;
    var bigN := hi - lo + 1;
    if bigN < 2 {
      FewInOrder(p0, b, lo, hi);
      return;
    }
    var hp := 0;
    while INCS[hp] < bigN
      invariant 0 <= hp < 14
      invariant hp > 0 ==> INCS[hp - 1] < bigN
      decreases 14 - hp
    {
      hp := hp + 1;
    }
    hp := hp - 1;
    NoPasses(u, 13 - hp, m);
    while hp >= 0
      invariant -1 <= hp < 14 && 0 <= budget - budget' <= Fee(u, (13 - hp) * m)
      invariant block[..] == old(block[..]) && quadrant[..] == old(quadrant[..])
      invariant Rearranged(p0, ptr[..], lo, hi) && Bundle(ptr[..], b, lo, hi, d)
      invariant hp < 0 ==> InOrder(ptr[..], b, lo, hi)
    {
      var stopped;
      stopped, budget' := OnePass(ptr, block, quadrant, nblock, lo, hi, INCS[hp], d, budget', b, p0, e);
      PassesAdd(u, 13 - hp, m);
      if stopped { return; }
      hp := hp - 1;
    }
  }

  lemma NoPasses(u: nat, k: nat, m: nat)
    ensures Fee(u, k * m) >= 0
  {
    FeeLaws(u, k * m, 0);
  }

  lemma PassesAdd(u: nat, k: nat, m: nat)
    requires k <= 13
    ensures Fee(u, (k + 1) * m) == Fee(u, k * m) + Fee(u, m) && Fee(u, (k + 1) * m) <= Fee(u, 14 * m)
  {
    hide Fee;
    assert (k + 1) * m == k * m + m;
    assert (k + 1) * m <= 14 * m;
    FeeLaws(u, k * m, m);
    FeeGrows(u, (k + 1) * m, 14 * m);
  }

  lemma FewInOrder(p: seq<int>, b: seq<int>, lo: int, hi: int)
    requires 0 <= lo && hi < |p| && hi <= lo
    ensures InOrder(p, b, lo, hi)
  {
  }

  /** All insertions with one increment; the budget is looked at after every third. */
  method OnePass(ptr: array<int>, block: array<int>, quadrant: array<int>, nblock: nat, lo: nat, hi: nat, h: nat, d: nat, budget: int,
                 ghost b: seq<int>, ghost p0: seq<int>, ghost e: nat)
      returns (stopped: bool, budget': int)
    requires Extended(block[..], b) && Quads(quadrant[..], b) && nblock == |b| && d <= 15 && ptr != block && ptr != quadrant
    requires Bundle(ptr[..], b, lo, hi, d) && Rearranged(p0, ptr[..], lo, hi) && h >= 1 && lo <= hi < ptr.Length
    requires Cheap(b, e)
    modifies ptr
    ensures Rearranged(p0, ptr[..], lo, hi) && Bundle(ptr[..], b, lo, hi, d)
    ensures 0 <= budget - budget' <= Fee(PerEntry(e, ptr.Length), hi - lo + 1)
    ensures stopped ==> budget' < 0
    ensures !stopped && h == 1 ==> InOrder(ptr[..], b, lo, hi)
  {
    hide Extended, Quads, Le, EqFor, Rearranged, InOrder, Bundle, Cheap, Fee, PerEntry;
    ghost var u := PerEntry(e, ptr.Length);
    FeeLaws(u, hi - lo + 1, 0);
    var i := lo + h;
    budget' := budget;
    stopped := false;
    if h == 1 { FewInOrder(ptr[..], b, lo, lo); }
    while true
      invariant lo + h <= i && !stopped && (i > lo + h ==> i <= hi + 1) && 0 <= budget - budget' <= Fee(u, i - lo - h)
      invariant block[..] == old(block[..]) && quadrant[..] == old(quadrant[..])
      invariant Rearranged(p0, ptr[..], lo, hi) && Bundle(ptr[..], b, lo, hi, d)
      invariant h == 1 ==> i <= hi + 1 && InOrder(ptr[..], b, lo, i - 1)
      decreases hi + 1 - i
    {
      if i > hi { break; }
      i, budget' := InsertNext(ptr, block, quadrant, nblock, lo, hi, i, h, d, budget', b, p0, e, budget);
      if i > hi { break; }
      i, budget' := InsertNext(ptr, block, quadrant, nblock, lo, hi, i, h, d, budget', b, p0, e, budget);
      if i > hi { break; }
      i, budget' := InsertNext(ptr, block, quadrant, nblock, lo, hi, i, h, d, budget', b, p0, e, budget);
      if budget' < 0 {
        FeeGrows(u, i - lo - h, hi - lo + 1);
        return true, budget';
      }
    }
    if i > lo + h { FeeGrows(u, i - lo - h, hi - lo + 1); }
  }

  method InsertNext(ptr: array<int>, block: array<int>, quadrant: array<int>, nblock: nat, lo: nat, hi: nat, i: nat, h: nat, d: nat,
                    budget: int, ghost b: seq<int>, ghost p0: seq<int>, ghost e: nat, ghost budget0: int)
      returns (i': nat, budget': int)
    requires Extended(block[..], b) && Quads(quadrant[..], b) && nblock == |b| && d <= 15 && ptr != block && ptr != quadrant
    requires Bundle(ptr[..], b, lo, hi, d) && Rearranged(p0, ptr[..], lo, hi) && lo + h <= i <= hi && h >= 1 && hi < ptr.Length
    requires h == 1 ==> InOrder(ptr[..], b, lo, i - 1)
    requires Cheap(b, e) && 0 <= budget0 - budget <= Fee(PerEntry(e, ptr.Length), i - lo - h)
    modifies ptr
    ensures Rearranged(p0, ptr[..], lo, hi) && Bundle(ptr[..], b, lo, hi, d) && i' == i + 1
    ensures 0 <= budget0 - budget' <= Fee(PerEntry(e, ptr.Length), i' - lo - h)
    ensures h == 1 ==> InOrder(ptr[..], b, lo, i' - 1)
  {
    hide Extended, Quads, Le, EqFor, Rearranged, InOrder, Bundle, Cheap, Fee, PerEntry;
    ghost var p := ptr[..];
    budget' := InsertOne(ptr, block, quadrant, nblock, lo, hi, i, h, d, budget, b, e);
    FeeLaws(PerEntry(e, ptr.Length), i - lo - h, 1);
    RearrangedTransitive(p0, p, ptr[..], lo, hi);
    BundleRearranged(p, ptr[..], b, lo, hi, d);
    i' := i + 1;
  }
}
