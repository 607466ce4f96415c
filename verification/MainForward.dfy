/** The forward scan of a big bucket (blocksort.c, mainSort, step 2). */
module MainForward {
  import opened Rotations
  import opened PrefixOrder
  import opened MainOrder
  import opened MainRadix
  import opened MainBuckets
  import opened MainRuns

  /** The small bucket of t followed by ss. */
  ghost function From(b: seq<int>, ss: nat, t: nat): nat { Start(b, 256 * t + ss) }

  ghost function To(b: seq<int>, ss: nat, t: nat): nat { Start(b, 256 * t + ss + 1) }

  /** The big bucket of ss. */
  ghost function BigFrom(b: seq<int>, ss: nat): nat { Start(b, 256 * ss) }

  ghost function BigTo(b: seq<int>, ss: nat): nat { Start(b, 256 * (ss + 1)) }

  lemma Places(b: seq<int>, ss: nat, t: nat)
    requires ss < 256
    ensures From(b, ss, t) <= To(b, ss, t) <= |b| && BigFrom(b, ss) <= From(b, ss, ss) <= To(b, ss, ss) <= BigTo(b, ss) <= |b|
    ensures t < ss ==> To(b, ss, t) <= BigFrom(b, ss)
    ensures t > ss ==> From(b, ss, t) >= BigTo(b, ss)
  {
    hide Start;
    StartsGrow(b, 256 * t + ss, 256 * t + ss + 1);
    StartsGrow(b, 256 * ss, 256 * ss + ss);
    StartsGrow(b, 256 * ss + ss, 256 * ss + ss + 1);
    StartsGrow(b, 256 * ss + ss + 1, 256 * (ss + 1));
    if t < ss { StartsGrow(b, 256 * t + ss + 1, 256 * ss); }
    if t > ss { StartsGrow(b, 256 * (ss + 1), 256 * t + ss); }
  }

  lemma Apart(b: seq<int>, ss: nat, t: nat, u: nat)
    requires ss < 256 && t != u
    ensures To(b, ss, t) <= From(b, ss, u) || To(b, ss, u) <= From(b, ss, t)
  {
    hide Start;
    if t < u { StartsGrow(b, 256 * t + ss + 1, 256 * u + ss); } else { StartsGrow(b, 256 * u + ss + 1, 256 * t + ss); }
  }

  /** Small buckets that end in another byte, or whose big bucket is done, are not touched. */
  ghost predicate Untouched(p: seq<int>, p0: seq<int>, b: seq<int>, ss: nat, done: seq<bool>) {
    && |p| == |p0| == |b| && |done| == 256
    && forall c: nat :: c < SMALL_BUCKETS && (c % 256 != ss || done[c / 256]) ==> Small(p, b, c) == Small(p0, b, c)
  }

  lemma OtherBucket(b: seq<int>, ss: nat, t: nat, c: nat)
    requires ss < 256 && c != 256 * t + ss
    ensures Start(b, c + 1) <= From(b, ss, t) || To(b, ss, t) <= Start(b, c)
  {
    hide Start;
    if c < 256 * t + ss { StartsGrow(b, c + 1, 256 * t + ss); } else { StartsGrow(b, 256 * t + ss + 1, c); }
  }

  lemma OtherKey(c: nat, t: nat, ss: nat)
    requires ss < 256 && (c % 256 != ss || c / 256 != t)
    ensures c != 256 * t + ss
  {
  }

  lemma UntouchedWrite(p: seq<int>, p0: seq<int>, b: seq<int>, ss: nat, done: seq<bool>, t: nat, q: nat, v: int)
    requires Untouched(p, p0, b, ss, done) && ss < 256 && t < 256 && !done[t] && From(b, ss, t) <= q < To(b, ss, t) <= |b|
    ensures Untouched(p[q := v], p0, b, ss, done)
  {
    hide Start;
    forall c: nat | c < SMALL_BUCKETS && (c % 256 != ss || done[c / 256]) ensures Small(p[q := v], b, c) == Small(p0, b, c) {
      OtherKey(c, t, ss);
      OtherBucket(b, ss, t, c);
      StartsGrow(b, c, c + 1);
      assert Small(p, b, c) == Small(p0, b, c);
      assert p[q := v][Start(b, c)..Start(b, c + 1)] == p[Start(b, c)..Start(b, c + 1)];
    }
  }

  lemma SliceWrite(p: seq<int>, q: nat, v: int, lo: nat, hi: nat)
    requires lo <= hi <= |p| && q < |p| && (q < lo || hi <= q)
    ensures p[q := v][lo..hi] == p[lo..hi]
  {
  }

  lemma SliceExtend(p: seq<int>, v: int, lo: nat, hi: nat)
    requires lo <= hi < |p|
    ensures p[hi := v][lo..hi + 1] == p[lo..hi] + [v]
  {
  }

  // ---------------------------------------------------------------- the state of the scan

  /** With l scanned, the left part of the small bucket of t and ss has been written up to x. */
  ghost predicate LeftPart(p: seq<int>, b: seq<int>, ss: nat, done: bool, x: int, l: seq<int>, t: nat)
    requires |p| == |b| && Rotations0(l, |b|)
  {
    From(b, ss, t) <= To(b, ss, t) <= |b|
    && if done then x == From(b, ss, t)
       else x == From(b, ss, t) + |Preds(b, l, t)| <= To(b, ss, t) && p[From(b, ss, t)..x] == Preds(b, l, t)
  }

  ghost predicate LeftParts(p: seq<int>, b: seq<int>, ss: nat, done: seq<bool>, cs: seq<int>, l: seq<int>)
    requires |p| == |b| && Rotations0(l, |b|)
  {
    |cs| == 256 == |done| && forall t: nat :: t < 256 ==> LeftPart(p, b, ss, done[t], cs[t], l, t)
  }

  ghost predicate AllDown(g: seq<int>, b: seq<int>, ss: int) { forall i :: 0 <= i < |g| ==> Down(b, ss, g[i]) }

  /** What the forward scan goes over: g, of which l has been scanned; f is the beginning of the
      big bucket, in order, up to ss followed by ss. */
  ghost predicate LeftRegion(b: seq<int>, ss: nat, f: seq<int>, g: seq<int>, l: seq<int>) {
    && Rotations0(l, |b|) && l <= g && g == f + Preds(b, l, ss)
    && Ordered(g, b) && Distinct(g) && AllDown(g, b, ss)
  }

  /** The beginning of the big bucket. */
  ghost predicate Beginning(b: seq<int>, ss: nat, f: seq<int>) {
    && Ordered(f, b) && Distinct(f) && AllDown(f, b, ss)
    && forall i :: 0 <= i < |f| ==> 0 <= f[i] < |b| && Keys(b)[f[i]] < 256 * ss + ss
  }

  lemma RegionRotations(b: seq<int>, ss: nat, f: seq<int>, g: seq<int>, l: seq<int>)
    requires LeftRegion(b, ss, f, g, l)
    ensures Rotations0(g, |b|) && forall i :: 0 <= i < |g| ==> b[g[i]] == ss
  {
    hide Ordered, Distinct;
    forall i | 0 <= i < |g| ensures 0 <= g[i] < |b| && b[g[i]] == ss {
      assert Down(b, ss, g[i]);
      var m: nat :| m >= 1 && Run(b, ss, g[i], m) && Sym(b, g[i], m) < ss;
      assert Sym(b, g[i], 0) == ss;
    }
  }

  lemma LeAll(g: seq<int>, k: int, b: seq<int>)
    requires Ordered(g, b) && forall i :: 0 <= i < |g| ==> Le(b, g[i], k)
    ensures Ordered(g + [k], b)
  {
    hide Le;
  }

  lemma NewAll(g: seq<int>, k: int)
    requires Distinct(g) && forall i :: 0 <= i < |g| ==> g[i] != k
    ensures Distinct(g + [k])
  {
  }

  /** The region after one more has been scanned. */
  lemma RegionStep(b: seq<int>, ss: nat, f: seq<int>, g: seq<int>, l: seq<int>)
    requires IsBlock(b) && ss < 256 && Beginning(b, ss, f) && LeftRegion(b, ss, f, g, l) && |l| < |g|
    ensures 0 <= g[|l|] < |b| && Rotations0(l + [g[|l|]], |b|)
    ensures var r := g[|l|]; var k := Pred(|b|, r);
            LeftRegion(b, ss, f, if b[k] == ss then g + [k] else g, l + [r])
  {
    hide Le, Down, IsBlock, Keys, Preds;
    var r := g[|l|];
    RegionRotations(b, ss, f, g, l);
    var k := Pred(|b|, r);
    PredsSnoc(b, l, r, ss);
    assert g[..|l| + 1] == g[..|l|] + [r];
    if b[k] == ss {
      forall i | 0 <= i < |g| ensures Le(b, g[i], k) && g[i] != k { LastGreatest(b, ss, f, g, l, i); }
      LeAll(g, k, b);
      NewAll(g, k);
      assert Down(b, ss, r);
      PredDown(b, ss, r);
    }
  }

  lemma LastGreatest(b: seq<int>, ss: nat, f: seq<int>, g: seq<int>, l: seq<int>, i: nat)
    requires IsBlock(b) && ss < 256 && Beginning(b, ss, f) && LeftRegion(b, ss, f, g, l) && |l| < |g| && i < |g|
    requires 0 <= g[|l|] < |b| && b[Pred(|b|, g[|l|])] == ss == b[g[|l|]]
    ensures Le(b, g[i], Pred(|b|, g[|l|])) && g[i] != Pred(|b|, g[|l|])
  {
    hide Le, Down, Distinct, AllDown, Preds;
    var k := Pred(|b|, g[|l|]);
    assert Succ(|b|, k) == g[|l|];
    assert Keys(b)[k] == 256 * ss + ss;
    if i < |f| {
      assert g[i] == f[i];
      KeysOrdered(b, g[i], k);
    } else {
      var j := PredsFrom(b, l, ss, i - |f|);
      assert l[j] == g[j];
      assert Le(b, g[j], g[|l|]);
      LePred(b, l[j], g[|l|]);
      DistinctAt(g, j, |l|);
      PredDistinct(|b|, l[j], g[|l|]);
    }
  }

  lemma DistinctAt(g: seq<int>, i: nat, j: nat)
    requires Distinct(g) && i < j < |g|
    ensures g[i] != g[j]
  {
  }

  // ---------------------------------------------------------------- one step of the scan

  ghost predicate Forward(p: seq<int>, p0: seq<int>, b: seq<int>, ss: nat, done: seq<bool>, cs: seq<int>, f: seq<int>, l: seq<int>) {
    && ss < 256 && |p| == |p0| == |b| && |done| == 256 && Untouched(p, p0, b, ss, done) && !done[ss] && |cs| == 256 && Rotations0(l, |b|)
    && LeftParts(p, b, ss, done, cs, l)
    && BigFrom(b, ss) <= cs[ss] <= |b| && LeftRegion(b, ss, f, p[BigFrom(b, ss)..cs[ss]], l)
  }

  /** There is room for one more. */
  lemma RoomLeft(b: seq<int>, ss: nat, l: seq<int>, t: nat)
    requires IsBlock(b) && Rotations0(l, |b|) && Distinct(l) && forall i :: 0 <= i < |l| ==> b[l[i]] == ss
    ensures |Preds(b, l, t)| <= To(b, ss, t) - From(b, ss, t)
  {
    hide IsBlock, Start, Preds, Keys;
    PredsDistinct(b, l, t);
    forall i | 0 <= i < |Preds(b, l, t)| ensures HasKey(b, Preds(b, l, t)[i], 256 * t + ss) { PredsKey(b, l, t, ss, i); }
    AtMostBucket(Preds(b, l, t), b, 256 * t + ss);
  }

  /** What is scanned does not concern other bytes. */
  lemma OtherPart(p: seq<int>, b: seq<int>, ss: nat, done: bool, x: int, l: seq<int>, t: nat, u: nat, q: nat, r: int)
    requires |p| == |b| && Rotations0(l, |b|) && LeftPart(p, b, ss, done, x, l, u) && ss < 256 && t != u
    requires 0 <= r < |b| && b[Pred(|b|, r)] == t && From(b, ss, t) <= q < To(b, ss, t) <= |b|
    ensures Rotations0(l + [r], |b|) && LeftPart(p[q := Pred(|b|, r)], b, ss, done, x, l + [r], u)
  {
    hide Start, Preds;
    PredsSnoc(b, l, r, u);
    Apart(b, ss, t, u);
    if !done { SliceWrite(p, q, Pred(|b|, r), From(b, ss, u), x); }
  }

  lemma SkippedPart(p: seq<int>, b: seq<int>, ss: nat, done: bool, x: int, l: seq<int>, u: nat, r: int)
    requires |p| == |b| && Rotations0(l, |b|) && LeftPart(p, b, ss, done, x, l, u)
    requires 0 <= r < |b| && (done || b[Pred(|b|, r)] != u)
    ensures Rotations0(l + [r], |b|) && LeftPart(p, b, ss, done, x, l + [r], u)
  {
    hide Start, Preds;
    PredsSnoc(b, l, r, u);
  }

  lemma GrownPart(p: seq<int>, b: seq<int>, ss: nat, x: nat, l: seq<int>, t: nat, r: int)
    requires |p| == |b| && Rotations0(l, |b|) && LeftPart(p, b, ss, false, x, l, t) && x < To(b, ss, t)
    requires 0 <= r < |b| && b[Pred(|b|, r)] == t
    ensures Rotations0(l + [r], |b|) && LeftPart(p[x := Pred(|b|, r)], b, ss, false, x + 1, l + [r], t)
  {
    hide Start, Preds;
    PredsSnoc(b, l, r, t);
    SliceExtend(p, Pred(|b|, r), From(b, ss, t), x);
  }

  /** The rotation before the one scanned belongs to a bucket that is done: nothing is copied. */
  lemma ForwardSkip(p: seq<int>, p0: seq<int>, b: seq<int>, ss: nat, done: seq<bool>, cs: seq<int>, f: seq<int>, l: seq<int>)
    requires IsBlock(b) && Beginning(b, ss, f) && Forward(p, p0, b, ss, done, cs, f, l) && BigFrom(b, ss) + |l| < cs[ss]
    ensures var r := p[BigFrom(b, ss) + |l|];
            && 0 <= r < |b| && 0 <= b[Pred(|b|, r)] < 256
            && (done[b[Pred(|b|, r)]] ==> Forward(p, p0, b, ss, done, cs, f, l + [r]))
  {
    hide Start, Preds, LeftPart, LeftRegion, Untouched, Beginning;
    var g := p[BigFrom(b, ss)..cs[ss]];
    RegionStep(b, ss, f, g, l);
    var r := g[|l|];
    BlockSize(b);
    if done[b[Pred(|b|, r)]] {
      forall u: nat | u < 256 ensures LeftPart(p, b, ss, done[u], cs[u], l + [r], u) {
        SkippedPart(p, b, ss, done[u], cs[u], l, u, r);
      }
    }
  }

  /** Otherwise it is copied. */
  lemma ForwardCopy(p: seq<int>, p0: seq<int>, b: seq<int>, ss: nat, done: seq<bool>, cs: seq<int>, f: seq<int>, l: seq<int>)
    requires IsBlock(b) && Beginning(b, ss, f) && Forward(p, p0, b, ss, done, cs, f, l) && BigFrom(b, ss) + |l| < cs[ss]
    requires var r := p[BigFrom(b, ss) + |l|]; 0 <= r < |b| && 0 <= b[Pred(|b|, r)] < 256 && !done[b[Pred(|b|, r)]]
    ensures var r := p[BigFrom(b, ss) + |l|]; var k := Pred(|b|, r); var t := b[k];
            && 0 <= cs[t] < |b|
            && Forward(p[cs[t] := k], p0, b, ss, done, cs[t := cs[t] + 1], f, l + [r])
  {
    hide Start, Preds, LeftRegion, Untouched, Beginning;
    var g := p[BigFrom(b, ss)..cs[ss]];
    RegionStep(b, ss, f, g, l);
    var r := g[|l|];
    var k := Pred(|b|, r);
    var t: nat := b[k];
    RegionDistinct(b, ss, f, g, l);
    RoomLeft(b, ss, l + [r], t);
    PredsSnoc(b, l, r, t);
    Places(b, ss, t);
    assert LeftPart(p, b, ss, done[t], cs[t], l, t);
    UntouchedWrite(p, p0, b, ss, done, t, cs[t], k);
    forall u: nat | u < 256 ensures LeftPart(p[cs[t] := k], b, ss, done[u], cs[t := cs[t] + 1][u], l + [r], u) {
      if u == t { GrownPart(p, b, ss, cs[t], l, t, r); } else { OtherPart(p, b, ss, done[u], cs[u], l, t, u, cs[t], r); }
    }
    RegionWritten(p, b, ss, cs, t, k);
  }

  lemma RegionDistinct(b: seq<int>, ss: nat, f: seq<int>, g: seq<int>, l: seq<int>)
    requires LeftRegion(b, ss, f, g, l) && |l| < |g|
    ensures Rotations0(l + [g[|l|]], |b|) && Distinct(l + [g[|l|]])
    ensures forall i :: 0 <= i < |l| + 1 ==> b[(l + [g[|l|]])[i]] == ss
  {
    hide Ordered;
    RegionRotations(b, ss, f, g, l);
    assert l + [g[|l|]] == g[..|l| + 1];
  }

  lemma RegionWritten(p: seq<int>, b: seq<int>, ss: nat, cs: seq<int>, t: nat, k: int)
    requires ss < 256 && t < 256 && |cs| == 256 && |p| == |b| && From(b, ss, t) <= cs[t] < To(b, ss, t) && BigFrom(b, ss) <= cs[ss] <= To(b, ss, ss)
    ensures To(b, ss, t) <= |b| && To(b, ss, ss) <= |b|
    ensures var p' := p[cs[t] := k]; var cs' := cs[t := cs[t] + 1];
            p'[BigFrom(b, ss)..cs'[ss]] == p[BigFrom(b, ss)..cs[ss]] + if t == ss then [k] else []
  {
    hide Start;
    Places(b, ss, t);
    if t == ss {
      SliceExtend(p, k, BigFrom(b, ss), cs[ss]);
    } else {
      SliceWrite(p, cs[t], k, BigFrom(b, ss), cs[ss]);
    }
  }
}
