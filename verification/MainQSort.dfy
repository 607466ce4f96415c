/** mainQSort3 (blocksort.c): a quicksort for strings with an explicit stack, going one byte
    deeper wherever the bytes are equal. */
module MainQSort {
  import opened PrefixOrder
  import opened MainOrder
  import opened MainCompare
  import opened MainSimpleSort
  import opened MainPartition
  import F = FallbackQSort

  const SMALL_THRESH := 20
  const DEPTH_THRESH := 14
  const STACK_SIZE := 100

  /** A stretch of ptr whose rotations agree on d bytes. */
  datatype Stretch = Stretch(lo: int, hi: int, d: nat) {
    function Count(): int { hi - lo + 1 }
  }

  ghost predicate Together(stk: seq<Stretch>, i: int, j: int) {
    exists s :: 0 <= s < |stk| && stk[s].lo <= i && j <= stk[s].hi
  }

  /** Every stretch shares its beginning. */
  ghost predicate Bundles(p: seq<int>, b: seq<int>, stk: seq<Stretch>) {
    forall s :: 0 <= s < |stk| ==> stk[s].d <= 15 && Bundle(p, b, stk[s].lo, stk[s].hi, stk[s].d)
  }

  /** Stretches lie within lo..hi and are disjoint. */
  ghost predicate Disjoint(stk: seq<Stretch>, lo: int, hi: int) {
    && (forall s :: 0 <= s < |stk| ==> lo <= stk[s].lo <= stk[s].hi + 1 <= hi + 1)
    && (forall s, t :: 0 <= s < t < |stk| ==> stk[s].hi < stk[t].lo || stk[t].hi < stk[s].lo)
  }

  /** What is not in one stretch together is in order. */
  ghost predicate ElseInOrder(p: seq<int>, b: seq<int>, stk: seq<Stretch>, lo: int, hi: int)
    requires 0 <= lo && hi < |p|
  {
    forall i, j :: lo <= i < j <= hi ==> Together(stk, i, j) || Le(b, p[i], p[j])
  }

  ghost predicate Pending(p: seq<int>, b: seq<int>, lo: int, hi: int, stk: seq<Stretch>) {
    && 0 <= lo && hi < |p| && Bundles(p, b, stk) && Disjoint(stk, lo, hi) && ElseInOrder(p, b, stk, lo, hi)
  }

  /** The top stretch has been rearranged into parts. */
  ghost predicate Refines(p: seq<int>, b: seq<int>, top: Stretch, parts: seq<Stretch>) {
    && 0 <= top.lo && top.hi < |p|
    && Bundles(p, b, parts) && Disjoint(parts, top.lo, top.hi) && ElseInOrder(p, b, parts, top.lo, top.hi)
  }

  lemma OrderKept(p0: seq<int>, p: seq<int>, b: seq<int>, lo: int, hi: int, rest: seq<Stretch>, top: Stretch, i: int, j: int)
    requires Pending(p0, b, lo, hi, rest + [top]) && F.Rearranged(p0, p, top.lo, top.hi) && |p| == |p0|
    requires lo <= i < j <= hi && !(top.lo <= i && j <= top.hi)
    ensures Together(rest, i, j) || Le(b, p[i], p[j])
  {
    hide Bundles, Le;
    var stk := rest + [top];
    assert stk[|rest|] == top;
    var i', j' := i, j;
    if top.lo <= i <= top.hi { i' := F.CameFrom(p0, p, top.lo, top.hi, i); }
    if top.lo <= j <= top.hi { j' := F.CameFrom(p0, p, top.lo, top.hi, j); }
    assert p[i] == p0[i'] && p[j] == p0[j'] && i' < j';
    if Together(stk, i', j') {
      var s :| 0 <= s < |stk| && stk[s].lo <= i' && j' <= stk[s].hi;
      assert s < |rest|;
      assert rest[s] == stk[s];
      assert i' == i && j' == j;
    }
  }

  lemma TogetherIn(rest: seq<Stretch>, parts: seq<Stretch>, i: int, j: int)
    requires Together(rest, i, j) || Together(parts, i, j)
    ensures Together(rest + parts, i, j)
  {
    var stk := rest + parts;
    if Together(rest, i, j) {
      var s :| 0 <= s < |rest| && rest[s].lo <= i && j <= rest[s].hi;
      assert stk[s] == rest[s];
    } else {
      var s :| 0 <= s < |parts| && parts[s].lo <= i && j <= parts[s].hi;
      assert stk[|rest| + s] == parts[s];
    }
  }

  /** A stretch apart from the one rearranged. */
  lemma BundleElsewhere(p0: seq<int>, p: seq<int>, b: seq<int>, s: Stretch, top: Stretch)
    requires Bundle(p0, b, s.lo, s.hi, s.d) && F.Rearranged(p0, p, top.lo, top.hi) && (s.hi < top.lo || top.hi < s.lo)
    ensures Bundle(p, b, s.lo, s.hi, s.d)
  {
    hide EqFor;
    assert forall i :: s.lo <= i <= s.hi ==> p[i] == p0[i];
  }

  lemma BundlesKept(p0: seq<int>, p: seq<int>, b: seq<int>, lo: int, hi: int, rest: seq<Stretch>, top: Stretch, parts: seq<Stretch>)
    requires Pending(p0, b, lo, hi, rest + [top]) && F.Rearranged(p0, p, top.lo, top.hi) && Bundles(p, b, parts)
    ensures Bundles(p, b, rest + parts)
  {
    hide F.Rearranged, Bundle, ElseInOrder;
    var stk, was := rest + parts, rest + [top];
    assert was[|rest|] == top;
    forall s | 0 <= s < |stk| ensures stk[s].d <= 15 && Bundle(p, b, stk[s].lo, stk[s].hi, stk[s].d) {
      if s < |rest| {
        assert was[s] == stk[s];
        BundleElsewhere(p0, p, b, stk[s], top);
      } else {
        assert stk[s] == parts[s - |rest|];
      }
    }
  }

  lemma ReplaceTop(p0: seq<int>, p: seq<int>, b: seq<int>, lo: int, hi: int, rest: seq<Stretch>, top: Stretch, parts: seq<Stretch>)
    requires Pending(p0, b, lo, hi, rest + [top]) && F.Rearranged(p0, p, top.lo, top.hi) && Refines(p, b, top, parts)
    ensures Pending(p, b, lo, hi, rest + parts)
  {
    hide F.Rearranged, Bundles, Le;
    SameSize(p0, p, top.lo, top.hi);
    BundlesKept(p0, p, b, lo, hi, rest, top, parts);
    var stk := rest + parts;
    var was := rest + [top];
    assert was[|rest|] == top;
    assert forall s :: 0 <= s < |rest| ==> was[s] == rest[s] && stk[s] == rest[s];
    assert forall s :: |rest| <= s < |stk| ==> stk[s] == parts[s - |rest|];
    forall i, j | lo <= i < j <= hi ensures Together(stk, i, j) || Le(b, p[i], p[j]) {
      if !(top.lo <= i && j <= top.hi) { OrderKept(p0, p, b, lo, hi, rest, top, i, j); }
      if Together(rest, i, j) || Together(parts, i, j) { TogetherIn(rest, parts, i, j); }
    }
  }

  // ---------------------------------------------------------------- how far the stack can grow

  /** What a place on the stack weighs; three places are taken for each one given up. */
  function Weight(s: nat): (w: nat)
    ensures w >= 2
  {
    if s == 0 then 2 else if s == 1 then 3 else 3 * Weight(s - 2)
  }

  lemma {:induction false} WeightNext(s: nat)
    ensures Weight(s) <= Weight(s + 1) <= 2 * Weight(s) && Weight(s + 2) == 3 * Weight(s)
  {
    if s >= 2 { WeightNext(s - 2); }
  }

  lemma {:induction false} WeightGrows(s: nat, t: nat)
    requires s <= t
    ensures Weight(s) <= Weight(t)
    decreases t
  {
    if s < t {
      WeightGrows(s, t - 1);
      WeightNext(t - 1);
    }
  }

  lemma WeightTwenty()
    ensures Weight(20) == 118098
  {
    assert Weight(4) == 18 && Weight(6) == 54;
    WeightNext(6);
    WeightNext(8);
    WeightNext(10);
    WeightNext(12);
    WeightNext(14);
    WeightNext(16);
    WeightNext(18);
  }

  /** Each stretch is small enough for its place. */
  ghost predicate Light(stk: seq<Stretch>, n: nat) {
    forall s :: 0 <= s < |stk| ==> Weigh(stk[s], s) <= 2 * n
  }

  function Weigh(x: Stretch, s: nat): int { (x.hi - x.lo) * Weight(s) }

  /** A stretch long enough to be split lies low on the stack. */
  lemma StackIsShallow(rest: seq<Stretch>, top: Stretch, n: nat)
    requires Light(rest + [top], n) && n <= 900000 && top.hi - top.lo >= 20
    ensures |rest| < 20
  {
    assert (rest + [top])[|rest|] == top;
    if |rest| >= 20 {
      WeightTwenty();
      WeightGrows(20, |rest|);
      F.MulMonotone(20, top.hi - top.lo, Weight(|rest|));
      assert false;
    }
  }

  lemma PartWeighs(x: Stretch, top: Stretch, s: nat, k: nat)
    requires k <= 2 && (x.hi - x.lo) * (k + 1) <= top.hi - top.lo && top.hi >= top.lo
    ensures Weigh(x, s + k) <= Weigh(top, s)
  {
    var a, t := x.hi - x.lo, top.hi - top.lo;
    WeightNext(s);
    if a <= 0 {
      F.MulMonotone(a, 0, Weight(s + k));
      F.MulMonotone(0, t, Weight(s));
    } else {
      Swapped(a, Weight(s + k), (k + 1) * Weight(s));
      Grouped(a, k + 1, Weight(s));
      F.MulMonotone(a * (k + 1), t, Weight(s));
    }
  }

  lemma Swapped(a: nat, p: nat, q: nat)
    requires p <= q
    ensures a * p <= a * q
  {
  }

  lemma Grouped(a: nat, b: nat, c: nat)
    ensures a * (b * c) == (a * b) * c
  {
  }

  lemma LightPush(rest: seq<Stretch>, top: Stretch, x: Stretch, y: Stretch, z: Stretch, n: nat)
    requires Light(rest + [top], n) && top.hi >= top.lo
    requires x.hi - x.lo <= top.hi - top.lo && 2 * (y.hi - y.lo) <= top.hi - top.lo && 3 * (z.hi - z.lo) <= top.hi - top.lo
    ensures Light(rest + [x, y, z], n)
  {
    hide Weigh;
    var was, stk := rest + [top], rest + [x, y, z];
    assert was[|rest|] == top;
    PartWeighs(x, top, |rest|, 0);
    PartWeighs(y, top, |rest|, 1);
    PartWeighs(z, top, |rest|, 2);
    forall s | 0 <= s < |stk| ensures Weigh(stk[s], s) <= 2 * n {
      if s < |rest| { assert was[s] == stk[s]; }
    }
  }

  lemma LightSame(rest: seq<Stretch>, top: Stretch, x: Stretch, n: nat)
    requires Light(rest + [top], n) && x.hi == top.hi && x.lo == top.lo
    ensures Light(rest + [x], n) && Light(rest, n)
  {
    var was, stk := rest + [top], rest + [x];
    assert was[|rest|] == top;
    assert forall s :: 0 <= s < |rest| ==> was[s] == rest[s] && stk[s] == rest[s];
  }

  // ---------------------------------------------------------------- termination

  function Work(x: Stretch): int { 3 * x.Count() * (17 - x.d) + 1 }

  function TotalWork(stk: seq<Stretch>): int {
    if |stk| == 0 then 0 else TotalWork(stk[..|stk| - 1]) + Work(stk[|stk| - 1])
  }

  lemma {:induction false} WorkNonNegative(stk: seq<Stretch>)
    requires forall s :: 0 <= s < |stk| ==> stk[s].Count() >= 0 && stk[s].d <= 15
    ensures TotalWork(stk) >= 0
  {
    if |stk| > 0 { WorkNonNegative(stk[..|stk| - 1]); }
  }

  lemma WorkPush(rest: seq<Stretch>, x: Stretch, y: Stretch, z: Stretch)
    ensures TotalWork(rest + [x]) == TotalWork(rest) + Work(x)
    ensures TotalWork(rest + [x, y, z]) == TotalWork(rest) + Work(x) + Work(y) + Work(z)
  {
    hide Work;
    assert (rest + [x])[..|rest|] == rest;
    assert (rest + [x, y])[..|rest| + 1] == rest + [x];
    assert (rest + [x, y, z])[..|rest| + 2] == rest + [x, y];
  }

  /** How many entries are still to be sorted. */
  function Entries(stk: seq<Stretch>): int {
    if |stk| == 0 then 0 else Entries(stk[..|stk| - 1]) + stk[|stk| - 1].Count()
  }

  lemma EntriesPush(rest: seq<Stretch>, x: Stretch, y: Stretch, z: Stretch)
    ensures Entries(rest + [x]) == Entries(rest) + x.Count()
    ensures Entries(rest + [x, y, z]) == Entries(rest) + x.Count() + y.Count() + z.Count()
  {
    assert (rest + [x])[..|rest|] == rest;
    assert (rest + [x, y])[..|rest| + 1] == rest + [x];
    assert (rest + [x, y, z])[..|rest| + 2] == rest + [x, y];
  }

  lemma {:induction false} EntriesNonNegative(stk: seq<Stretch>)
    requires forall s :: 0 <= s < |stk| ==> stk[s].Count() >= 0
    ensures Entries(stk) >= 0
  {
    if |stk| > 0 { EntriesNonNegative(stk[..|stk| - 1]); }
  }

  lemma SplitWorks(top: Stretch, n: int, m: int)
    requires top.lo - 1 <= n < m - 1 && m <= top.hi + 1 && top.d <= 15
    ensures Work(Stretch(top.lo, n, top.d)) + Work(Stretch(m, top.hi, top.d)) + Work(Stretch(n + 1, m - 1, top.d + 1)) < Work(top)
  {
    var e := 17 - top.d;
    var s0, s1, s2 := n - top.lo + 1, top.hi - m + 1, m - n - 1;
    ThreeProducts(s0, s1, s2, e);
    assert top.Count() == s0 + s1 + s2;
  }

  lemma ThreeProducts(a: int, b: int, c: int, e: int)
    requires c >= 1
    ensures 3 * a * e + 1 + (3 * b * e + 1) + (3 * c * (e - 1) + 1) < 3 * (a + b + c) * e + 1
  {
    assert 3 * (a + b + c) * e == 3 * a * e + 3 * b * e + 3 * c * e;
    assert 3 * c * (e - 1) == 3 * c * e - 3 * c;
  }

  // ---------------------------------------------------------------- splitting a stretch

  lemma Split(p: seq<int>, b: seq<int>, ec: seq<int>, top: Stretch, med: int, n: int, m: int)
    requires Bundle(p, b, top.lo, top.hi, top.d) && Keyed(ec, b, top.d) && top.d <= 14
    requires F.Indexes(p, ec, top.lo, top.hi) && F.Split3(p, ec, top.lo, top.hi, med, n, m)
    ensures Refines(p, b, top, [Stretch(top.lo, n, top.d), Stretch(m, top.hi, top.d), Stretch(n + 1, m - 1, top.d + 1)])
  {
    hide Le, Bundle, Keyed;
    var x, y, z := Stretch(top.lo, n, top.d), Stretch(m, top.hi, top.d), Stretch(n + 1, m - 1, top.d + 1);
    var parts := [x, y, z];
    PartBundle(p, b, top.lo, top.hi, top.d, x.lo, x.hi);
    PartBundle(p, b, top.lo, top.hi, top.d, y.lo, y.hi);
    SameKeys(p, b, ec, top.lo, top.hi, top.d, z.lo, z.hi, med);
    assert parts[0] == x && parts[1] == y && parts[2] == z;
    forall i, j | top.lo <= i < j <= top.hi ensures Together(parts, i, j) || Le(b, p[i], p[j]) {
      if (parts[0].lo <= i && j <= parts[0].hi) || (parts[1].lo <= i && j <= parts[1].hi) || (parts[2].lo <= i && j <= parts[2].hi) {
        assert Together(parts, i, j);
      } else {
        LowerKey(p, b, ec, top.lo, top.hi, top.d, i, j);
      }
    }
  }

  /** The order of the parts does not matter. */
  lemma SwapParts(p: seq<int>, b: seq<int>, top: Stretch, parts: seq<Stretch>, k: nat)
    requires Refines(p, b, top, parts) && k + 1 < |parts|
    ensures Refines(p, b, top, parts[k := parts[k + 1]][k + 1 := parts[k]])
  {
    hide Le, Bundle;
    var parts' := parts[k := parts[k + 1]][k + 1 := parts[k]];
    forall i, j | top.lo <= i < j <= top.hi ensures Together(parts', i, j) || Le(b, p[i], p[j]) {
      if Together(parts, i, j) {
        var s :| 0 <= s < |parts| && parts[s].lo <= i && j <= parts[s].hi;
        var s' := if s == k then k + 1 else if s == k + 1 then k else s;
        assert parts'[s'] == parts[s];
      }
    }
  }

  /** The largest part goes to the bottom, the smallest to the top. */
  method BySize(x0: Stretch, y0: Stretch, z0: Stretch, ghost p: seq<int>, ghost b: seq<int>, ghost top: Stretch)
      returns (x: Stretch, y: Stretch, z: Stretch)
    requires Refines(p, b, top, [x0, y0, z0])
    ensures Refines(p, b, top, [x, y, z])
    ensures x.hi - x.lo >= y.hi - y.lo >= z.hi - z.lo
    ensures Work(x) + Work(y) + Work(z) == Work(x0) + Work(y0) + Work(z0)
    ensures x.Count() + y.Count() + z.Count() == x0.Count() + y0.Count() + z0.Count()
    ensures x.hi - x.lo <= Largest(x0, y0, z0)
  {
    hide Refines, Work;
    x, y, z := x0, y0, z0;
    if x.hi - x.lo < y.hi - y.lo {
      SwapParts(p, b, top, [x, y, z], 0);
      assert [x, y, z][0 := y][1 := x] == [y, x, z];
      x, y := y, x;
    }
    if y.hi - y.lo < z.hi - z.lo {
      SwapParts(p, b, top, [x, y, z], 1);
      assert [x, y, z][1 := z][2 := y] == [x, z, y];
      y, z := z, y;
    }
    if x.hi - x.lo < y.hi - y.lo {
      SwapParts(p, b, top, [x, y, z], 0);
      assert [x, y, z][0 := y][1 := x] == [y, x, z];
      x, y := y, x;
    }
  }

  function Largest(x: Stretch, y: Stretch, z: Stretch): int {
    var m := if x.hi - x.lo > y.hi - y.lo then x.hi - x.lo else y.hi - y.lo;
    if m > z.hi - z.lo then m else z.hi - z.lo
  }

  // ---------------------------------------------------------------- the stack arrays

  ghost predicate OnStack(lo: array<int>, hi: array<int>, depth: array<int>, sp: nat, stk: seq<Stretch>)
    reads lo, hi, depth
  {
    && lo != hi && lo != depth && hi != depth && lo.Length == hi.Length == depth.Length == STACK_SIZE
    && |stk| == sp <= STACK_SIZE
    && forall s :: 0 <= s < sp ==> lo[s] == stk[s].lo && hi[s] == stk[s].hi && depth[s] == stk[s].d
  }

  method Push(lo: array<int>, hi: array<int>, depth: array<int>, sp: nat, x: Stretch, ghost stk: seq<Stretch>)
    requires OnStack(lo, hi, depth, sp, stk) && sp < STACK_SIZE
    modifies lo, hi, depth
    ensures OnStack(lo, hi, depth, sp + 1, stk + [x])
  {
    lo[sp], hi[sp], depth[sp] := x.lo, x.hi, x.d;
  }

  ghost predicate Running(p: seq<int>, b: seq<int>, lo: int, hi: int, stk: seq<Stretch>) {
    Pending(p, b, lo, hi, stk) && Light(stk, 900000)
  }

  lemma RunningTop(p: seq<int>, b: seq<int>, lo: int, hi: int, rest: seq<Stretch>, top: Stretch)
    requires Running(p, b, lo, hi, rest + [top])
    ensures lo <= top.lo <= top.hi + 1 <= hi + 1 && top.d <= 15 && Bundle(p, b, top.lo, top.hi, top.d)
    ensures top.hi - top.lo >= 20 ==> |rest| < 20
  {
    hide Bundle, ElseInOrder, Light;
    assert (rest + [top])[|rest|] == top;
    if top.hi - top.lo >= 20 { StackIsShallow(rest, top, 900000); }
  }

  lemma RunningWork(p: seq<int>, b: seq<int>, lo: int, hi: int, stk: seq<Stretch>)
    requires Running(p, b, lo, hi, stk)
    ensures TotalWork(stk) >= 0 && Entries(stk) >= 0
  {
    hide Bundle, ElseInOrder, Light;
    WorkNonNegative(stk);
    EntriesNonNegative(stk);
  }

  /** The top stretch is in order. */
  lemma TopSorted(p0: seq<int>, p: seq<int>, b: seq<int>, lo: int, hi: int, rest: seq<Stretch>, top: Stretch)
    requires Running(p0, b, lo, hi, rest + [top]) && F.Rearranged(p0, p, top.lo, top.hi) && 0 <= top.lo && top.hi < |p|
    requires InOrder(p, b, top.lo, top.hi)
    ensures Running(p, b, lo, hi, rest) && 0 <= TotalWork(rest) < TotalWork(rest + [top])
    ensures Entries(rest) == Entries(rest + [top]) - top.Count()
  {
    hide Bundle, F.Rearranged, Le, Pending, TotalWork, Light, Entries;
    EntriesPush(rest, top, top, top);
    ReplaceTop(p0, p, b, lo, hi, rest, top, []);
    assert rest + [] == rest;
    LightSame(rest, top, top, 900000);
    WorkPush(rest, top, top, top);
    RunningTop(p0, b, lo, hi, rest, top);
    RunningWork(p, b, lo, hi, rest);
    WorkPositive(top);
  }

  lemma WorkPositive(x: Stretch)
    requires x.Count() >= 0 && x.d <= 15
    ensures Work(x) >= 1
  {
  }

  /** All bytes of the top stretch were equal: one byte deeper. */
  lemma TopDeeper(p0: seq<int>, p: seq<int>, b: seq<int>, ec: seq<int>, lo: int, hi: int, rest: seq<Stretch>, top: Stretch, med: int)
    requires Running(p0, b, lo, hi, rest + [top]) && F.Rearranged(p0, p, top.lo, top.hi)
    requires Bundle(p, b, top.lo, top.hi, top.d) && Keyed(ec, b, top.d) && top.d <= 14 && top.lo <= top.hi
    requires forall i :: top.lo <= i <= top.hi ==> 0 <= p[i] < |ec| && ec[p[i]] == med
    ensures var stk := rest + [Stretch(top.lo, top.hi, top.d + 1)];
            Running(p, b, lo, hi, stk) && 0 <= TotalWork(stk) < TotalWork(rest + [top]) && Entries(stk) == Entries(rest + [top])
  {
    hide Bundle, F.Rearranged, Le, Pending, TotalWork, Light, Keyed, Entries;
    EntriesPush(rest, top, top, top);
    EntriesPush(rest, Stretch(top.lo, top.hi, top.d + 1), top, top);
    var x := Stretch(top.lo, top.hi, top.d + 1);
    BundleSize(p, b, top.lo, top.hi, top.d);
    SameKeys(p, b, ec, top.lo, top.hi, top.d, top.lo, top.hi, med);
    Whole(p, b, top, x);
    ReplaceTop(p0, p, b, lo, hi, rest, top, [x]);
    LightSame(rest, top, x, 900000);
    WorkPush(rest, top, top, top);
    WorkPush(rest, x, x, x);
    RunningWork(p, b, lo, hi, rest + [x]);
    DeeperWorks(top);
  }

  lemma DeeperWorks(top: Stretch)
    requires top.lo <= top.hi && top.d <= 15
    ensures Work(Stretch(top.lo, top.hi, top.d + 1)) < Work(top)
  {
    F.MulMonotone(1, top.Count(), 3);
    Distributes(3 * top.Count(), 17 - top.d);
  }

  lemma Distributes(a: int, e: int)
    ensures a * (e - 1) == a * e - a
  {
  }

  lemma Whole(p: seq<int>, b: seq<int>, top: Stretch, x: Stretch)
    requires 0 <= top.lo <= top.hi < |p| && x.lo == top.lo && x.hi == top.hi && x.d <= 15 && Bundle(p, b, x.lo, x.hi, x.d)
    ensures Refines(p, b, top, [x])
  {
    hide Bundle, Le;
    forall i, j | top.lo <= i < j <= top.hi ensures Together([x], i, j) {
      assert [x][0].lo <= i && j <= [x][0].hi;
    }
  }

  lemma PartsCount(p: seq<int>, b: seq<int>, top: Stretch, x: Stretch, y: Stretch, z: Stretch)
    requires Refines(p, b, top, [x, y, z])
    ensures x.Count() >= 0 && y.Count() >= 0 && z.Count() >= 0
  {
    hide Bundle, ElseInOrder;
    var parts := [x, y, z];
    assert parts[0] == x && parts[1] == y && parts[2] == z;
  }

  /** The top stretch has been split in three. */
  lemma TopSplit(p0: seq<int>, p: seq<int>, b: seq<int>, lo: int, hi: int, rest: seq<Stretch>, top: Stretch, x: Stretch, y: Stretch, z: Stretch)
    requires Running(p0, b, lo, hi, rest + [top]) && F.Rearranged(p0, p, top.lo, top.hi) && Refines(p, b, top, [x, y, z])
    requires top.hi - top.lo >= 20 && x.hi - x.lo >= y.hi - y.lo >= z.hi - z.lo && x.hi - x.lo <= top.hi - top.lo
    requires x.Count() + y.Count() + z.Count() == top.Count() && Work(x) + Work(y) + Work(z) < Work(top)
    ensures Running(p, b, lo, hi, rest + [x, y, z]) && 0 <= TotalWork(rest + [x, y, z]) < TotalWork(rest + [top])
    ensures Entries(rest + [x, y, z]) == Entries(rest + [top])
  {
    hide Bundle, F.Rearranged, Le, Pending, TotalWork, Light, Work, Refines, Entries;
    EntriesPush(rest, top, top, top);
    EntriesPush(rest, x, y, z);
    ReplaceTop(p0, p, b, lo, hi, rest, top, [x, y, z]);
    PartsCount(p, b, top, x, y, z);
    LightPush(rest, top, x, y, z, 900000);
    WorkPush(rest, top, top, top);
    WorkPush(rest, x, y, z);
    RunningWork(p, b, lo, hi, rest + [x, y, z]);
  }

  /** One turn of the loop: take the top stretch, sort it, split it or go deeper. */
  method SortTop(ptr: array<int>, block: array<int>, quadrant: array<int>, nblock: nat, ghost loSt: nat, ghost hiSt: nat,
                 stackLo: array<int>, stackHi: array<int>, stackD: array<int>, sp: nat, budget: int,
                 ghost b: seq<int>, ghost stk: seq<Stretch>, ghost e: nat)
      returns (stop: bool, sp': nat, budget': int, ghost stk': seq<Stretch>)
    requires Extended(block[..], b) && Quads(quadrant[..], b) && nblock == |b| <= 900000 && hiSt - loSt < 900000
    requires ptr != block && ptr != quadrant && {ptr, block, quadrant} !! {stackLo, stackHi, stackD}
    requires OnStack(stackLo, stackHi, stackD, sp, stk) && 0 < sp <= 22 && Running(ptr[..], b, loSt, hiSt, stk)
    requires Cheap(b, e)
    modifies ptr, stackLo, stackHi, stackD
    ensures F.Rearranged(old(ptr[..]), ptr[..], loSt, hiSt)
    ensures 0 <= budget - budget' <= Fee(PerEntry(e, ptr.Length), 14 * (Entries(stk) - if stop then 0 else Entries(stk')))
    ensures stop ==> budget' < 0
    ensures !stop ==> sp' <= 22 && OnStack(stackLo, stackHi, stackD, sp', stk') && Running(ptr[..], b, loSt, hiSt, stk')
                      && 0 <= TotalWork(stk') < TotalWork(stk)
  {
    hide Extended, Quads, F.Rearranged, Running, TotalWork, Bundle, InOrder, Refines, Cheap, Fee, PerEntry, Entries;
    FeeLaws(PerEntry(e, ptr.Length), 0, 0);
    assert sp < STACK_SIZE - 2;
    ghost var p0 := ptr[..];
    var lo, hi := stackLo[sp - 1], stackHi[sp - 1];
    var d: nat := StackDepth(stackLo, stackHi, stackD, sp, stk);
    ghost var rest, top := stk[..sp - 1], Stretch(lo, hi, d);
    assert stk == rest + [top];
    RunningTop(p0, b, loSt, hiSt, rest, top);
    stop, sp', budget', stk' := false, sp, budget, stk;
    if hi - lo < SMALL_THRESH || d > DEPTH_THRESH {
      budget' := SimpleSort(ptr, block, quadrant, nblock, lo, hi, d, budget, b, e);
      TopEntries(p0, b, loSt, hiSt, rest, top, PerEntry(e, ptr.Length));
      F.RearrangedWider(p0, ptr[..], lo, hi, loSt, hiSt);
      if budget' < 0 {
        stop := true;
        return;
      }
      TopSorted(p0, ptr[..], b, loSt, hiSt, rest, top);
      sp', stk' := sp - 1, rest;
      return;
    }
    sp', stk' := SplitTop(ptr, block, nblock, loSt, hiSt, stackLo, stackHi, stackD, sp, lo, hi, d, b, rest);
  }

  lemma TopEntries(p: seq<int>, b: seq<int>, lo: int, hi: int, rest: seq<Stretch>, top: Stretch, u: nat)
    requires Running(p, b, lo, hi, rest + [top])
    ensures Fee(u, 14 * top.Count()) <= Fee(u, 14 * Entries(rest + [top]))
  {
    hide Bundle, ElseInOrder, Light, Entries, Fee;
    var stk := rest + [top];
    assert forall s :: 0 <= s < |rest| ==> stk[s] == rest[s];
    EntriesNonNegative(rest);
    EntriesPush(rest, top, top, top);
    FeeGrows(u, 14 * top.Count(), 14 * Entries(stk));
  }

  method StackDepth(stackLo: array<int>, stackHi: array<int>, stackD: array<int>, sp: nat, ghost stk: seq<Stretch>) returns (d: nat)
    requires OnStack(stackLo, stackHi, stackD, sp, stk) && sp > 0
    ensures d == stk[sp - 1].d
  {
    d := stackD[sp - 1];
  }

  /** The top stretch is partitioned. */
  method SplitTop(ptr: array<int>, block: array<int>, nblock: nat, ghost loSt: nat, ghost hiSt: nat,
                  stackLo: array<int>, stackHi: array<int>, stackD: array<int>, sp: nat, lo: nat, hi: nat, d: nat,
                  ghost b: seq<int>, ghost rest: seq<Stretch>)
      returns (sp': nat, ghost stk': seq<Stretch>)
    requires Extended(block[..], b) && nblock == |b| <= 900000
    requires ptr != block && {ptr, block} !! {stackLo, stackHi, stackD} && 1 <= sp <= 20 && d <= DEPTH_THRESH
    requires OnStack(stackLo, stackHi, stackD, sp, rest + [Stretch(lo, hi, d)]) && hi - lo >= SMALL_THRESH && loSt <= lo && hi <= hiSt
    requires Running(ptr[..], b, loSt, hiSt, rest + [Stretch(lo, hi, d)]) && Bundle(ptr[..], b, lo, hi, d)
    modifies ptr, stackLo, stackHi, stackD
    ensures F.Rearranged(old(ptr[..]), ptr[..], loSt, hiSt)
    ensures sp' <= 22 && OnStack(stackLo, stackHi, stackD, sp', stk') && Running(ptr[..], b, loSt, hiSt, stk')
    ensures 0 <= TotalWork(stk') < TotalWork(rest + [Stretch(lo, hi, d)]) && Entries(stk') == Entries(rest + [Stretch(lo, hi, d)])
  {
    hide Extended, F.Rearranged, Running, TotalWork, Bundle, Refines, Keyed, F.Split3, Work, Entries;
    KeysOf(block[..], b, d);
    ghost var p0, top, ec := ptr[..], Stretch(lo, hi, d), block[d..];
    assert block[..][d..] == block[d..];
    BundleIndexes(p0, b, ec, lo, hi, d);
    var mid := (lo + hi) / 2;
    assert block[ptr[lo] + d] == ec[ptr[lo]] && block[ptr[hi] + d] == ec[ptr[hi]] && block[ptr[mid] + d] == ec[ptr[mid]];
    var med := Med3(block[ptr[lo] + d], block[ptr[hi] + d], block[ptr[mid] + d]);
    var same, n, m := Partition(ptr, block, d, lo, hi, med);
    F.RearrangedWider(p0, ptr[..], lo, hi, loSt, hiSt);
    BundleRearranged(p0, ptr[..], b, lo, hi, d);
    RestOnStack(stackLo, stackHi, stackD, sp, rest, top);
    if same {
      TopDeeper(p0, ptr[..], b, ec, loSt, hiSt, rest, top, med);
      Push(stackLo, stackHi, stackD, sp - 1, Stretch(lo, hi, d + 1), rest);
      return sp, rest + [Stretch(lo, hi, d + 1)];
    }
    var x, y, z := Stretch(lo, n, d), Stretch(m, hi, d), Stretch(n + 1, m - 1, d + 1);
    Split(ptr[..], b, ec, top, med, n, m);
    SplitPlaces(ptr[..], ec, lo, hi, med, n, m);
    SplitWorks(top, n, m);
    x, y, z := BySize(x, y, z, ptr[..], b, top);
    TopSplit(p0, ptr[..], b, loSt, hiSt, rest, top, x, y, z);
    Push(stackLo, stackHi, stackD, sp - 1, x, rest);
    Push(stackLo, stackHi, stackD, sp, y, rest + [x]);
    Push(stackLo, stackHi, stackD, sp + 1, z, rest + [x] + [y]);
    assert rest + [x] + [y] + [z] == rest + [x, y, z];
    return sp + 2, rest + [x, y, z];
  }

  lemma SplitPlaces(p: seq<int>, ec: seq<int>, lo: int, hi: int, med: int, n: int, m: int)
    requires F.Indexes(p, ec, lo, hi) && F.Split3(p, ec, lo, hi, med, n, m)
    ensures lo - 1 <= n < m <= hi + 1
  {
  }

  lemma RestOnStack(lo: array<int>, hi: array<int>, depth: array<int>, sp: nat, rest: seq<Stretch>, top: Stretch)
    requires sp > 0 && OnStack(lo, hi, depth, sp, rest + [top])
    ensures OnStack(lo, hi, depth, sp - 1, rest)
  {
    assert forall s :: 0 <= s < sp - 1 ==> (rest + [top])[s] == rest[s];
  }

  /** mainQSort3: unless the budget runs out, the stretch, whose rotations agree on dSt bytes, is
      put in order; its stack never overflows. */
  method MainQSort3(ptr: array<int>, block: array<int>, quadrant: array<int>, nblock: nat, loSt: nat, hiSt: nat, dSt: nat, budget: int,
                    ghost b: seq<int>, ghost e: nat)
      returns (budget': int)
    requires Extended(block[..], b) && Quads(quadrant[..], b) && nblock == |b| <= 900000 && loSt <= hiSt && hiSt - loSt < 900000
    requires ptr != block && ptr != quadrant && dSt <= 15 && Bundle(ptr[..], b, loSt, hiSt, dSt) && Cheap(b, e)
    modifies ptr
    ensures F.Rearranged(old(ptr[..]), ptr[..], loSt, hiSt) && hiSt < ptr.Length
    ensures 0 <= budget - budget' <= Fee(PerEntry(e, ptr.Length), 14 * (hiSt - loSt + 1))
    ensures budget' >= 0 ==> InOrder(ptr[..], b, loSt, hiSt)
  {
    hide Extended, Quads, F.Rearranged, Running, TotalWork, Bundle, InOrder, Cheap, Fee, PerEntry, Entries;
    ghost var p0, u, m := ptr[..], PerEntry(e, ptr.Length), hiSt - loSt + 1;
    FeeLaws(u, 0, 0);
    EntriesPush([], Stretch(loSt, hiSt, dSt), Stretch(loSt, hiSt, dSt), Stretch(loSt, hiSt, dSt));
    NoEntries();
    BundleSize(p0, b, loSt, hiSt, dSt);
    F.RearrangedSelf(p0, loSt, hiSt);
    RunningStart(p0, b, loSt, hiSt, dSt);
    var stackLo, stackHi, stackD := new int[STACK_SIZE], new int[STACK_SIZE], new int[STACK_SIZE];
    budget' := budget;
    var sp := 0;
    Push(stackLo, stackHi, stackD, sp, Stretch(loSt, hiSt, dSt), []);
    ghost var stk := [Stretch(loSt, hiSt, dSt)];
    assert [] + stk == stk;
    sp := 1;
    var stop := false;
    while sp > 0
      invariant sp <= 22 && OnStack(stackLo, stackHi, stackD, sp, stk)
      invariant 0 <= budget - budget' <= Fee(u, 14 * (m - Entries(stk)))
      invariant block[..] == old(block[..]) && quadrant[..] == old(quadrant[..])
      invariant Running(ptr[..], b, loSt, hiSt, stk) && F.Rearranged(p0, ptr[..], loSt, hiSt)
      decreases TotalWork(stk)
    {
      ghost var p := ptr[..];
      ghost var n := Entries(stk);
      stop, sp, budget', stk := SortTop(ptr, block, quadrant, nblock, loSt, hiSt, stackLo, stackHi, stackD, sp, budget', b, stk, e);
      FeeLaws(u, 14 * (m - n), 14 * (n - if stop then 0 else Entries(stk)));
      F.RearrangedTransitive(p0, p, ptr[..], loSt, hiSt);
      if stop { return; }
    }
    assert stk == [];
    RunningEnd(ptr[..], b, loSt, hiSt);
  }

  lemma NoEntries()
    ensures Entries([]) == 0
  {
  }

  lemma RunningStart(p: seq<int>, b: seq<int>, lo: nat, hi: nat, d: nat)
    requires Bundle(p, b, lo, hi, d) && d <= 15 && lo <= hi && hi - lo < 900000
    ensures Running(p, b, lo, hi, [Stretch(lo, hi, d)])
  {
    hide Bundle, Le;
    BundleSize(p, b, lo, hi, d);
    var stk := [Stretch(lo, hi, d)];
    forall i, j | lo <= i < j <= hi ensures Together(stk, i, j) {
      assert stk[0].lo <= i && j <= stk[0].hi;
    }
  }

  lemma RunningEnd(p: seq<int>, b: seq<int>, lo: int, hi: int)
    requires Running(p, b, lo, hi, [])
    ensures 0 <= lo && hi < |p| && InOrder(p, b, lo, hi)
  {
    hide Le;
    forall i, j | lo <= i < j <= hi ensures Le(b, p[i], p[j]) {
      assert !Together([], i, j);
    }
  }
}
