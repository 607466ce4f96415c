/** The backward scan of a big bucket, and what both scans together have done (blocksort.c,
    mainSort, step 2). */
module MainBackward {
  import opened Rotations
  import opened PrefixOrder
  import opened MainOrder
  import opened MainRadix
  import opened MainBuckets
  import opened MainRuns
  import opened MainForward

  /** A stretch read backwards. */
  ghost function Reversed(p: seq<int>, lo: int, hi: int): (r: seq<int>)
    requires 0 <= lo <= hi <= |p|
    ensures |r| == hi - lo && forall i :: 0 <= i < hi - lo ==> r[i] == p[hi - 1 - i]
  {
    seq(hi - lo, i requires 0 <= i < hi - lo => p[hi - 1 - i])
  }

  lemma ReversedWrite(p: seq<int>, q: nat, v: int, lo: nat, hi: nat)
    requires lo <= hi <= |p| && q < |p| && (q < lo || hi <= q)
    ensures Reversed(p[q := v], lo, hi) == Reversed(p, lo, hi)
  {
  }

  lemma ReversedExtend(p: seq<int>, v: int, lo: nat, hi: nat)
    requires 0 < lo <= hi <= |p|
    ensures Reversed(p[lo - 1 := v], lo - 1, hi) == Reversed(p, lo, hi) + [v]
  {
  }

  ghost predicate AllUp(g: seq<int>, b: seq<int>, ss: int) { forall i :: 0 <= i < |g| ==> Up(b, ss, g[i]) }

  /** The right part of the small bucket of t and ss has been written down to x, not below lo. */
  ghost predicate RightPart(p: seq<int>, b: seq<int>, ss: nat, done: bool, x: int, lo: int, m: seq<int>, t: nat)
    requires |p| == |b| && Rotations0(m, |b|)
  {
    From(b, ss, t) <= To(b, ss, t) <= |b|
    && if done then x == To(b, ss, t) - 1
       else x == To(b, ss, t) - 1 - |Preds(b, m, t)| && 0 <= lo <= x + 1 && Reversed(p, x + 1, To(b, ss, t)) == Preds(b, m, t)
  }

  ghost predicate RightParts(p: seq<int>, b: seq<int>, ss: nat, done: seq<bool>, cs: seq<int>, ce: seq<int>, m: seq<int>)
    requires |p| == |b| && Rotations0(m, |b|)
  {
    |cs| == |ce| == 256 == |done| && forall t: nat :: t < 256 ==> RightPart(p, b, ss, done[t], ce[t], cs[t], m, t)
  }

  ghost predicate RightRegion(b: seq<int>, ss: nat, f: seq<int>, g: seq<int>, m: seq<int>) {
    && Rotations0(m, |b|) && m <= g && g == f + Preds(b, m, ss)
    && OrderedDown(g, b) && Distinct(g) && AllUp(g, b, ss)
  }

  /** The end of the big bucket, read backwards. */
  ghost predicate Ending(b: seq<int>, ss: nat, f: seq<int>) {
    && OrderedDown(f, b) && Distinct(f) && AllUp(f, b, ss)
    && forall i :: 0 <= i < |f| ==> 0 <= f[i] < |b| && Keys(b)[f[i]] > 256 * ss + ss
  }

  lemma UpRotations(b: seq<int>, ss: nat, g: seq<int>)
    requires AllUp(g, b, ss)
    ensures Rotations0(g, |b|) && forall i :: 0 <= i < |g| ==> b[g[i]] == ss
  {
    forall i | 0 <= i < |g| ensures 0 <= g[i] < |b| && b[g[i]] == ss {
      assert Up(b, ss, g[i]);
      var m: nat :| m >= 1 && Run(b, ss, g[i], m) && Sym(b, g[i], m) > ss;
      assert Sym(b, g[i], 0) == ss;
    }
  }

  lemma LeAllDown(g: seq<int>, k: int, b: seq<int>)
    requires OrderedDown(g, b) && forall i :: 0 <= i < |g| ==> Le(b, k, g[i])
    ensures OrderedDown(g + [k], b)
  {
    hide Le;
  }

  /** The region after one more has been scanned. */
  lemma RightStep(b: seq<int>, ss: nat, f: seq<int>, g: seq<int>, m: seq<int>)
    requires IsBlock(b) && ss < 256 && Ending(b, ss, f) && RightRegion(b, ss, f, g, m) && |m| < |g|
    ensures 0 <= g[|m|] < |b| && Rotations0(m + [g[|m|]], |b|)
    ensures var r := g[|m|]; var k := Pred(|b|, r);
            RightRegion(b, ss, f, if b[k] == ss then g + [k] else g, m + [r])
  {
    hide Le, Up, IsBlock, Keys, Preds;
    var r := g[|m|];
    UpRotations(b, ss, g);
    var k := Pred(|b|, r);
    PredsSnoc(b, m, r, ss);
    assert g[..|m| + 1] == g[..|m|] + [r];
    if b[k] == ss {
      forall i | 0 <= i < |g| ensures Le(b, k, g[i]) && g[i] != k { LastLeast(b, ss, f, g, m, i); }
      LeAllDown(g, k, b);
      NewAll(g, k);
      assert Up(b, ss, r);
      PredUp(b, ss, r);
    }
  }

  lemma LastLeast(b: seq<int>, ss: nat, f: seq<int>, g: seq<int>, m: seq<int>, i: nat)
    requires IsBlock(b) && ss < 256 && Ending(b, ss, f) && RightRegion(b, ss, f, g, m) && |m| < |g| && i < |g|
    requires 0 <= g[|m|] < |b| && b[Pred(|b|, g[|m|])] == ss == b[g[|m|]]
    ensures Le(b, Pred(|b|, g[|m|]), g[i]) && g[i] != Pred(|b|, g[|m|])
  {
    hide Le, Up, Distinct, AllUp, Preds;
    var k := Pred(|b|, g[|m|]);
    assert Succ(|b|, k) == g[|m|];
    assert Keys(b)[k] == 256 * ss + ss;
    if i < |f| {
      assert g[i] == f[i];
      KeysOrdered(b, k, g[i]);
    } else {
      var j := PredsFrom(b, m, ss, i - |f|);
      assert m[j] == g[j];
      assert Le(b, g[|m|], g[j]);
      LePred(b, g[|m|], m[j]);
      DistinctAt(g, j, |m|);
      PredDistinct(|b|, m[j], g[|m|]);
    }
  }

  // ---------------------------------------------------------------- one step of the scan

  ghost predicate Backward(p: seq<int>, p0: seq<int>, b: seq<int>, ss: nat, done: seq<bool>, cs: seq<int>, ce: seq<int>,
                           f: seq<int>, l: seq<int>, f': seq<int>, m: seq<int>) {
    && Forward(p, p0, b, ss, done, cs, f, l) && BigFrom(b, ss) + |l| == cs[ss] && |ce| == 256 && Rotations0(m, |b|)
    && RightParts(p, b, ss, done, cs, ce, m)
    && -1 <= ce[ss] < BigTo(b, ss) <= |b| && RightRegion(b, ss, f', Reversed(p, ce[ss] + 1, BigTo(b, ss)), m)
  }

  /** The left parts are not disturbed. */
  lemma ForwardKept(p: seq<int>, p0: seq<int>, b: seq<int>, ss: nat, done: seq<bool>, cs: seq<int>, f: seq<int>, l: seq<int>,
                    t: nat, q: nat, v: int)
    requires Forward(p, p0, b, ss, done, cs, f, l) && t < 256 && !done[t] && cs[t] <= q < To(b, ss, t) <= |b|
    ensures Forward(p[q := v], p0, b, ss, done, cs, f, l)
  {
    hide Start, Preds, LeftRegion, Untouched;
    assert LeftPart(p, b, ss, done[t], cs[t], l, t);
    assert LeftPart(p, b, ss, done[ss], cs[ss], l, ss);
    UntouchedWrite(p, p0, b, ss, done, t, q, v);
    forall u: nat | u < 256 ensures LeftPart(p[q := v], b, ss, done[u], cs[u], l, u) {
      assert LeftPart(p, b, ss, done[u], cs[u], l, u);
      if u != t { Apart(b, ss, t, u); }
      if !done[u] { SliceWrite(p, q, v, From(b, ss, u), cs[u]); }
    }
    Places(b, ss, t);
    SliceWrite(p, q, v, BigFrom(b, ss), cs[ss]);
  }

  /** Left and right parts together are no more than the bucket. */
  lemma RoomBoth(b: seq<int>, ss: nat, l: seq<int>, m: seq<int>, t: nat)
    requires IsBlock(b) && Rotations0(l, |b|) && Distinct(l) && AllDown(l, b, ss)
    requires Rotations0(m, |b|) && Distinct(m) && AllUp(m, b, ss)
    requires (forall i :: 0 <= i < |l| ==> b[l[i]] == ss) && forall i :: 0 <= i < |m| ==> b[m[i]] == ss
    ensures |Preds(b, l, t)| + |Preds(b, m, t)| <= To(b, ss, t) - From(b, ss, t)
    ensures Distinct(Preds(b, l, t) + Preds(b, m, t))
  {
    hide IsBlock, Start, Preds, Keys, Down, Up;
    PredsDistinct(b, l, t);
    PredsDistinct(b, m, t);
    var x, y := Preds(b, l, t), Preds(b, m, t);
    forall i, j | 0 <= i < |x| && 0 <= j < |y| ensures x[i] != y[j] {
      var i' := PredsFrom(b, l, t, i);
      var j' := PredsFrom(b, m, t, j);
      assert Down(b, ss, l[i']) && Up(b, ss, m[j']);
      DownBeforeUp(b, ss, l[i'], m[j']);
      PredDistinct(|b|, l[i'], m[j']);
    }
    forall i | 0 <= i < |x + y| ensures HasKey(b, (x + y)[i], 256 * t + ss) {
      if i < |x| { PredsKey(b, l, t, ss, i); } else { PredsKey(b, m, t, ss, i - |x|); }
    }
    AtMostBucket(x + y, b, 256 * t + ss);
  }

  lemma OtherRight(p: seq<int>, b: seq<int>, ss: nat, done: bool, x: int, lo: int, m: seq<int>, t: nat, u: nat, q: nat, r: int)
    requires |p| == |b| && Rotations0(m, |b|) && RightPart(p, b, ss, done, x, lo, m, u) && ss < 256 && t != u
    requires !done ==> From(b, ss, u) <= lo
    requires 0 <= r < |b| && b[Pred(|b|, r)] == t && From(b, ss, t) <= q < To(b, ss, t) <= |b|
    ensures Rotations0(m + [r], |b|) && RightPart(p[q := Pred(|b|, r)], b, ss, done, x, lo, m + [r], u)
  {
    hide Start, Preds;
    PredsSnoc(b, m, r, u);
    Apart(b, ss, t, u);
    if !done { ReversedWrite(p, q, Pred(|b|, r), x + 1, To(b, ss, u)); }
  }

  lemma SkippedRight(p: seq<int>, b: seq<int>, ss: nat, done: bool, x: int, lo: int, m: seq<int>, u: nat, r: int)
    requires |p| == |b| && Rotations0(m, |b|) && RightPart(p, b, ss, done, x, lo, m, u)
    requires 0 <= r < |b| && (done || b[Pred(|b|, r)] != u)
    ensures Rotations0(m + [r], |b|) && RightPart(p, b, ss, done, x, lo, m + [r], u)
  {
    hide Start, Preds;
    PredsSnoc(b, m, r, u);
  }

  lemma GrownRight(p: seq<int>, b: seq<int>, ss: nat, x: nat, lo: int, m: seq<int>, t: nat, r: int)
    requires |p| == |b| && Rotations0(m, |b|) && RightPart(p, b, ss, false, x, lo, m, t) && lo <= x < |p|
    requires 0 <= r < |b| && b[Pred(|b|, r)] == t
    ensures Rotations0(m + [r], |b|) && RightPart(p[x := Pred(|b|, r)], b, ss, false, x - 1, lo, m + [r], t)
  {
    hide Start, Preds;
    PredsSnoc(b, m, r, t);
    ReversedExtend(p, Pred(|b|, r), x + 1, To(b, ss, t));
  }

  lemma BackwardSkip(p: seq<int>, p0: seq<int>, b: seq<int>, ss: nat, done: seq<bool>, cs: seq<int>, ce: seq<int>,
                     f: seq<int>, l: seq<int>, f': seq<int>, m: seq<int>)
    requires IsBlock(b) && Ending(b, ss, f') && Backward(p, p0, b, ss, done, cs, ce, f, l, f', m)
    requires BigTo(b, ss) - 1 - |m| > ce[ss]
    ensures var r := p[BigTo(b, ss) - 1 - |m|];
            && 0 <= r < |b| && 0 <= b[Pred(|b|, r)] < 256
            && (done[b[Pred(|b|, r)]] ==> Backward(p, p0, b, ss, done, cs, ce, f, l, f', m + [r]))
  {
    hide Start, Preds, RightPart, RightRegion, Forward, Ending;
    ForwardSizes(p, p0, b, ss, done, cs, f, l);
    var g := Reversed(p, ce[ss] + 1, BigTo(b, ss));
    RightStep(b, ss, f', g, m);
    var r := g[|m|];
    BlockSize(b);
    if done[b[Pred(|b|, r)]] {
      forall u: nat | u < 256 ensures RightPart(p, b, ss, done[u], ce[u], cs[u], m + [r], u) {
        SkippedRight(p, b, ss, done[u], ce[u], cs[u], m, u, r);
      }
    }
  }

  lemma ForwardSizes(p: seq<int>, p0: seq<int>, b: seq<int>, ss: nat, done: seq<bool>, cs: seq<int>, f: seq<int>, l: seq<int>)
    requires Forward(p, p0, b, ss, done, cs, f, l)
    ensures ss < 256 && |p| == |p0| == |b| && |done| == |cs| == 256 && !done[ss]
  {
  }

  lemma BackwardCopy(p: seq<int>, p0: seq<int>, b: seq<int>, ss: nat, done: seq<bool>, cs: seq<int>, ce: seq<int>,
                     f: seq<int>, l: seq<int>, f': seq<int>, m: seq<int>)
    requires IsBlock(b) && Ending(b, ss, f') && Backward(p, p0, b, ss, done, cs, ce, f, l, f', m)
    requires BigTo(b, ss) - 1 - |m| > ce[ss]
    requires var r := p[BigTo(b, ss) - 1 - |m|]; 0 <= r < |b| && 0 <= b[Pred(|b|, r)] < 256 && !done[b[Pred(|b|, r)]]
    ensures var r := p[BigTo(b, ss) - 1 - |m|]; var k := Pred(|b|, r); var t := b[k];
            && 0 <= ce[t] < |b|
            && Backward(p[ce[t] := k], p0, b, ss, done, cs, ce[t := ce[t] - 1], f, l, f', m + [r])
  {
    hide Start, Preds, RightRegion, Forward, Ending, LeftPart;
    ForwardSizes(p, p0, b, ss, done, cs, f, l);
    var g := Reversed(p, ce[ss] + 1, BigTo(b, ss));
    RightStep(b, ss, f', g, m);
    var r := g[|m|];
    var k := Pred(|b|, r);
    var t: nat := b[k];
    SpaceAt(p, p0, b, ss, done, cs, ce, f, l, f', m);
    ForwardKept(p, p0, b, ss, done, cs, f, l, t, ce[t], k);
    forall u: nat | u < 256 ensures RightPart(p[ce[t] := k], b, ss, done[u], ce[t := ce[t] - 1][u], cs[u], m + [r], u) {
      LeftAbove(p, p0, b, ss, done, cs, f, l, u);
      assert RightPart(p, b, ss, done[u], ce[u], cs[u], m, u);
      if u == t { GrownRight(p, b, ss, ce[t], cs[t], m, t, r); } else { OtherRight(p, b, ss, done[u], ce[u], cs[u], m, t, u, ce[t], r); }
    }
    LeftAbove(p, p0, b, ss, done, cs, f, l, ss);
    assert RightPart(p, b, ss, done[ss], ce[ss], cs[ss], m, ss);
    RightWritten(p, b, ss, cs, ce, t, k);
    assert g + [] == g;
  }

  lemma LeftAbove(p: seq<int>, p0: seq<int>, b: seq<int>, ss: nat, done: seq<bool>, cs: seq<int>, f: seq<int>, l: seq<int>, u: nat)
    requires Forward(p, p0, b, ss, done, cs, f, l) && u < 256
    ensures From(b, ss, u) <= cs[u] && (!done[u] ==> cs[u] == From(b, ss, u) + |Preds(b, l, u)|)
    ensures From(b, ss, u) <= To(b, ss, u) <= |b|
  {
    hide Start, Preds, LeftRegion, Untouched;
    assert LeftPart(p, b, ss, done[u], cs[u], l, u);
  }

  /** The place to be written to is free. */
  lemma SpaceAt(p: seq<int>, p0: seq<int>, b: seq<int>, ss: nat, done: seq<bool>, cs: seq<int>, ce: seq<int>,
                f: seq<int>, l: seq<int>, f': seq<int>, m: seq<int>)
    requires IsBlock(b) && Backward(p, p0, b, ss, done, cs, ce, f, l, f', m) && BigTo(b, ss) - 1 - |m| > ce[ss]
    requires var r := p[BigTo(b, ss) - 1 - |m|]; 0 <= r < |b| && 0 <= b[Pred(|b|, r)] < 256 && !done[b[Pred(|b|, r)]]
    ensures var t := b[Pred(|b|, p[BigTo(b, ss) - 1 - |m|])];
            0 <= cs[t] <= ce[t] < To(b, ss, t) <= |b| && From(b, ss, t) <= cs[t]
  {
    hide Start, Preds, Untouched, IsBlock, Ordered, OrderedDown, Down, Up;
    var g := Reversed(p, ce[ss] + 1, BigTo(b, ss));
    var r := g[|m|];
    var t: nat := b[Pred(|b|, r)];
    LeftAbove(p, p0, b, ss, done, cs, f, l, t);
    LeftAbove(p, p0, b, ss, done, cs, f, l, ss);
    var gl := p[BigFrom(b, ss)..cs[ss]];
    assert gl == l;
    RegionRotations(b, ss, f, gl, l);
    UpRotations(b, ss, g);
    assert m + [r] == g[..|m| + 1];
    RoomBoth(b, ss, l, m + [r], t);
    PredsSnoc(b, m, r, t);
    assert RightPart(p, b, ss, done[t], ce[t], cs[t], m, t);
  }

  lemma RightWritten(p: seq<int>, b: seq<int>, ss: nat, cs: seq<int>, ce: seq<int>, t: nat, k: int)
    requires ss < 256 && t < 256 && |cs| == |ce| == 256 && |p| == |b| && From(b, ss, t) <= cs[t] <= ce[t] < To(b, ss, t)
    requires From(b, ss, ss) <= ce[ss] + 1 <= BigTo(b, ss)
    ensures To(b, ss, t) <= |b| && BigTo(b, ss) <= |b| && ce[t := ce[t] - 1][ss] + 1 >= 0
    ensures var p' := p[ce[t] := k]; var ce' := ce[t := ce[t] - 1];
            Reversed(p', ce'[ss] + 1, BigTo(b, ss)) == Reversed(p, ce[ss] + 1, BigTo(b, ss)) + if t == ss then [k] else []
  {
    hide Start;
    Places(b, ss, t);
    if t == ss {
      ReversedExtend(p, k, ce[ss] + 1, BigTo(b, ss));
    } else {
      ReversedWrite(p, ce[t], k, ce[ss] + 1, BigTo(b, ss));
    }
  }
}
