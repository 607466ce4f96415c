/** Comparing two rotations (blocksort.c, mainGtU). */
module MainCompare {
  import opened PrefixOrder
  import opened MainOrder

  /** The rotations at s1 and s2 agree on m bytes, and the cursors stand behind those. */
  ghost predicate Matched(b: seq<int>, s1: nat, s2: nat, m: nat, j1: nat, j2: nat) {
    && |b| > OVERSHOOT && s1 < |b| && s2 < |b| && j1 <= |b| + OVERSHOOT && j2 <= |b| + OVERSHOOT
    && if m >= |b| then EqFor(b, s1, s2, |b|)
       else EqFor(b, s1, s2, m) && Wrapped(|b|, j1) == Shift(|b|, s1, m) && Wrapped(|b|, j2) == Shift(|b|, s2, m)
  }

  /** gt is a right answer. */
  ghost predicate Answers(b: seq<int>, s1: nat, s2: nat, gt: bool) {
    if gt then Le(b, s2, s1) else Le(b, s1, s2)
  }

  lemma ByteDecides(b: seq<int>, blk: seq<int>, s1: nat, s2: nat, m: nat, j1: nat, j2: nat)
    requires Matched(b, s1, s2, m, j1, j2) && Extended(blk, b) && j1 < |b| + OVERSHOOT && j2 < |b| + OVERSHOOT
    ensures j1 < |blk| && j2 < |blk|
    ensures blk[j1] != blk[j2] ==> Answers(b, s1, s2, blk[j1] > blk[j2])
    ensures blk[j1] == blk[j2] ==> Matched(b, s1, s2, m + 1, j1 + 1, j2 + 1)
    ensures m < |b| && blk[j1] == blk[j2] ==> b[Wrapped(|b|, j1)] == b[Wrapped(|b|, j2)]
  {
    ExtendedAt(blk, b, j1);
    ExtendedAt(blk, b, j2);
    if m >= |b| {
      LeByEquality(b, s1, s2, |b|);
    } else {
      SymShift(b, s1, m, 0);
      SymShift(b, s2, m, 0);
      assert Sym(b, s1, m) == blk[j1] && Sym(b, s2, m) == blk[j2];
      if blk[j1] < blk[j2] {
        LeByByte(b, s1, s2, m);
      } else if blk[j2] < blk[j1] {
        EqTurned(b, s1, s2, m);
        LeByByte(b, s2, s1, m);
      }
    }
  }

  lemma QuadDecides(b: seq<int>, q: seq<int>, s1: nat, s2: nat, m: nat, j1: nat, j2: nat)
    requires Matched(b, s1, s2, m, j1, j2) && Quads(q, b) && j1 < |b| + OVERSHOOT && j2 < |b| + OVERSHOOT
    requires m < |b| ==> b[Wrapped(|b|, j1)] == b[Wrapped(|b|, j2)]
    ensures j1 < |q| && j2 < |q|
    ensures q[j1] != q[j2] ==> Answers(b, s1, s2, q[j1] > q[j2])
  {
    QuadAt(q, b, j1);
    QuadAt(q, b, j2);
    if q[j1] != q[j2] {
      if m >= |b| {
        LeByEquality(b, s1, s2, |b|);
      } else if q[j1] < q[j2] {
        assert Le(b, Wrapped(|b|, j1), Wrapped(|b|, j2));
        LeByShift(b, s1, s2, m);
      } else {
        assert Le(b, Wrapped(|b|, j2), Wrapped(|b|, j1));
        EqTurned(b, s1, s2, m);
        LeByShift(b, s2, s1, m);
      }
    }
  }

  /** The first twelve bytes. */
  method CompareBytes(i1: nat, i2: nat, block: array<int>, nblock: nat, ghost b: seq<int>)
      returns (done: bool, gt: bool)
    requires Extended(block[..], b) && nblock == |b| && i1 < nblock + 15 && i2 < nblock + 15
    ensures done ==> Answers(b, Wrapped(nblock, i1), Wrapped(nblock, i2), gt)
    ensures !done ==> Matched(b, Wrapped(nblock, i1), Wrapped(nblock, i2), 12, i1 + 12, i2 + 12)
  {
    hide Matched, Extended, Answers;
    ExtendedSize(block[..], b);
    StartMatched(b, i1, i2);
    gt := false;
    for m := 0 to 12
      invariant Matched(b, Wrapped(nblock, i1), Wrapped(nblock, i2), m, i1 + m, i2 + m)
    {
      ByteDecides(b, block[..], Wrapped(nblock, i1), Wrapped(nblock, i2), m, i1 + m, i2 + m);
      var c1, c2 := block[i1 + m], block[i2 + m];
      if c1 != c2 { return true, c1 > c2; }
    }
    done := false;
  }

  lemma ExtendedSize(blk: seq<int>, b: seq<int>)
    requires Extended(blk, b)
    ensures |b| > OVERSHOOT && |blk| >= |b| + OVERSHOOT
  {
  }

  lemma StartMatched(b: seq<int>, i1: nat, i2: nat)
    requires |b| > OVERSHOOT && i1 < |b| + 15 && i2 < |b| + 15
    ensures Matched(b, Wrapped(|b|, i1), Wrapped(|b|, i2), 0, i1, i2)
  {
  }

  /** Eight bytes, each with its quadrant value. */
  method CompareEight(i1: nat, i2: nat, block: array<int>, quadrant: array<int>, nblock: nat, ghost b: seq<int>,
                      ghost s1: nat, ghost s2: nat, ghost m: nat)
      returns (done: bool, gt: bool)
    requires Extended(block[..], b) && Quads(quadrant[..], b) && nblock == |b| && i1 <= nblock + 26 && i2 <= nblock + 26
    requires Matched(b, s1, s2, m, i1, i2)
    ensures done ==> Answers(b, s1, s2, gt)
    ensures !done ==> Matched(b, s1, s2, m + 8, i1 + 8, i2 + 8)
  {
    hide Matched, Extended, Answers, Quads;
    gt := false;
    for x := 0 to 8
      invariant Matched(b, s1, s2, m + x, i1 + x, i2 + x)
    {
      ByteDecides(b, block[..], s1, s2, m + x, i1 + x, i2 + x);
      var c1, c2 := block[i1 + x], block[i2 + x];
      if c1 != c2 { return true, c1 > c2; }
      MatchedTurns(b, s1, s2, m + x, i1 + x, i2 + x);
      QuadDecides(b, quadrant[..], s1, s2, m + x, i1 + x, i2 + x);
      var q1, q2 := quadrant[i1 + x], quadrant[i2 + x];
      if q1 != q2 { return true, q1 > q2; }
    }
    done := false;
  }

  lemma MatchedTurns(b: seq<int>, s1: nat, s2: nat, m: nat, j1: nat, j2: nat)
    requires Matched(b, s1, s2, m, j1, j2)
    ensures |b| > OVERSHOOT && j1 <= |b| + OVERSHOOT && j2 <= |b| + OVERSHOOT && s1 < |b| && s2 < |b|
    ensures Matched(b, s1, s2, m, Wrapped(|b|, j1), Wrapped(|b|, j2))
  {
  }

  lemma {:induction false} EqForever(b: seq<int>, s: nat, t: nat, h: nat)
    requires s < |b| && t < |b| && EqFor(b, s, t, |b|)
    ensures EqFor(b, s, t, h)
  {
    hide At;
    forall k: nat | k < h ensures Sym(b, s, k) == Sym(b, t, k) { SymTurn(b, s, t, k); }
  }

  lemma {:induction false} SymTurn(b: seq<int>, s: nat, t: nat, k: nat)
    requires s < |b| && t < |b| && EqFor(b, s, t, |b|)
    ensures Sym(b, s, k) == Sym(b, t, k)
  {
    if k >= |b| {
      SymTurn(b, s, t, k - |b|);
      assert Sym(b, s, k) == Sym(b, s, k - |b|) && Sym(b, t, k) == Sym(b, t, k - |b|);
    }
  }

  lemma MatchedAgree(b: seq<int>, s1: nat, s2: nat, m: nat, j1: nat, j2: nat)
    requires Matched(b, s1, s2, m, j1, j2)
    ensures |b| > 0 && EqFor(b, s1, s2, m)
  {
    if m >= |b| { EqForever(b, s1, s2, m); }
  }

  /** Two rotations that agree on 8 * e + 20 bytes. */
  ghost predicate Alike(b: seq<int>, s: nat, t: nat, e: nat)
    requires |b| > 0
  {
    EqFor(b, s, t, 8 * e + 20)
  }

  /** No comparison of two different rotations takes more than e from the budget: either there
      are no two that agree on so many bytes, or it is more than a whole turn would take. */
  ghost predicate Cheap(b: seq<int>, e: nat) {
    |b| > 0 && (8 * e >= |b| + 9 || forall s: nat, t: nat :: s < |b| && t < |b| && s != t ==> !Alike(b, s, t, e))
  }

  /** mainGtU: is the rotation at i1 greater than that at i2?  It looks no further than the
      overshoot, and its answer is right for equal rotations either way.  The budget is charged
      for eight bytes at a time on which the two agree, after the first twelve. */
  method MainGtU(i1: nat, i2: nat, block: array<int>, quadrant: array<int>, nblock: nat, budget: int, ghost b: seq<int>)
      returns (gt: bool, budget': int)
    requires Extended(block[..], b) && Quads(quadrant[..], b) && nblock == |b| && i1 < nblock + 15 && i2 < nblock + 15
    ensures Wrapped(nblock, i1) < nblock && Wrapped(nblock, i2) < nblock
    ensures if gt then Le(b, Wrapped(nblock, i2), Wrapped(nblock, i1)) else Le(b, Wrapped(nblock, i1), Wrapped(nblock, i2))
    ensures budget' <= budget && 8 * (budget - budget') <= nblock + 16
    ensures budget' < budget ==> EqFor(b, Wrapped(nblock, i1), Wrapped(nblock, i2), 12 + 8 * (budget - budget'))
  {
    hide Matched, Extended, Quads, Le, EqFor;
    budget' := budget;
    ExtendedSize(block[..], b);
    ghost var s1, s2, m := Wrapped(nblock, i1), Wrapped(nblock, i2), 12;
    var done;
    done, gt := CompareBytes(i1, i2, block, nblock, b);
    if done { return; }
    var j1: nat, j2: nat := i1 + 12, i2 + 12;
    var k: int := nblock + 8;
    while true
      invariant m == 12 + (nblock + 8 - k) == 12 + 8 * (budget - budget') && 0 <= k <= nblock + 8
      invariant j1 <= nblock + 26 && j2 <= nblock + 26 && Matched(b, s1, s2, m, j1, j2) && budget' <= budget
      decreases k
    {
      MatchedAgree(b, s1, s2, m, j1, j2);
      done, gt := CompareEight(j1, j2, block, quadrant, nblock, b, s1, s2, m);
      if done { return; }
      j1, j2, m := j1 + 8, j2 + 8, m + 8;
      MatchedTurns(b, s1, s2, m, j1, j2);
      if j1 >= nblock { j1 := j1 - nblock; }
      if j2 >= nblock { j2 := j2 - nblock; }
      k := k - 8;
      budget' := budget' - 1;
      if k < 0 { break; }
    }
    MatchedAgree(b, s1, s2, m, j1, j2);
    MatchedAllRound(b, s1, s2, m, j1, j2);
    gt := false;
  }

  /** That much from the budget is always enough. */
  lemma CheapAlways(b: seq<int>)
    requires |b| > 0
    ensures Cheap(b, |b| / 8 + 2)
  {
  }

  lemma MatchedAllRound(b: seq<int>, s1: nat, s2: nat, m: nat, j1: nat, j2: nat)
    requires Matched(b, s1, s2, m, j1, j2) && m >= |b|
    ensures Le(b, s1, s2)
  {
    LeByEquality(b, s1, s2, |b|);
  }
}
