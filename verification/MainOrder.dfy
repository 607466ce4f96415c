/** The order of the rotations of a block, as the main sorter sees it: cached orderings of
    single bytes (the quadrant values) stand in for long comparisons. */
module MainOrder {
  import opened Rotations
  import opened PrefixOrder

  /** Rotation s comes no later than rotation t. */
  ghost predicate Le(b: seq<int>, s: int, t: int) {
    0 <= s < |b| && 0 <= t < |b| && LexLe(Rot(b, s), Rot(b, t))
  }

  lemma LeTrans(b: seq<int>, s: int, t: int, u: int)
    requires Le(b, s, t) && Le(b, t, u)
    ensures Le(b, s, u)
  {
    LexTransitive(Rot(b, s), Rot(b, t), Rot(b, u));
  }

  /** Two rotations agree all the way round, or differ at some first place. */
  lemma {:induction false} FirstDifference(b: seq<int>, s: nat, t: nat, h: nat)
    requires |b| > 0
    ensures EqFor(b, s, t, h) || LtFor(b, s, t, h) || LtFor(b, t, s, h)
  {
    hide Sym;
    if h > 0 {
      FirstDifference(b, s, t, h - 1);
      if EqFor(b, s, t, h - 1) {
        EqTurned(b, s, t, h - 1);
      } else if LtFor(b, s, t, h - 1) {
        LtLonger(b, s, t, h - 1, h);
      } else {
        LtLonger(b, t, s, h - 1, h);
      }
    }
  }

  lemma EqTurned(b: seq<int>, s: nat, t: nat, h: nat)
    requires |b| > 0 && EqFor(b, s, t, h)
    ensures EqFor(b, t, s, h)
  {
    hide Sym;
  }

  /** A later rotation is not below an earlier one. */
  lemma NotBelow(b: seq<int>, s: nat, t: nat)
    requires Le(b, s, t)
    ensures EqFor(b, s, t, |b|) || LtFor(b, s, t, |b|)
  {
    FirstDifference(b, s, t, |b|);
    if LtFor(b, t, s, |b|) {
      var m: nat :| m < |b| && EqFor(b, t, s, m) && Sym(b, t, m) < Sym(b, s, m);
      forall k | 0 <= k < m ensures Rot(b, t)[k] == Rot(b, s)[k] {
        RotAt(b, s, k);
        RotAt(b, t, k);
        assert Sym(b, t, k) == Sym(b, s, k);
      }
      assert Rot(b, t)[..m] == Rot(b, s)[..m];
      RotAt(b, s, m);
      RotAt(b, t, m);
      LexAt(Rot(b, t), Rot(b, s), m);
    }
  }

  /** The first byte that differs decides. */
  lemma LeByByte(b: seq<int>, s: nat, t: nat, m: nat)
    requires s < |b| && t < |b| && EqFor(b, s, t, m) && Sym(b, s, m) < Sym(b, t, m)
    ensures Le(b, s, t)
  {
    assert LtFor(b, s, t, m + 1);
    StrictTurn(b, s, t, m + 1);
  }

  lemma LeByEquality(b: seq<int>, s: nat, t: nat, m: nat)
    requires s < |b| && t < |b| && EqFor(b, s, t, m) && m >= |b|
    ensures Le(b, s, t) && Le(b, t, s)
  {
    EqTurned(b, s, t, m);
    WholeTurn(b, s, t, m);
    WholeTurn(b, t, s, m);
  }

  /** After a common beginning, the order of what follows decides. */
  lemma LeByShift(b: seq<int>, s: nat, t: nat, d: nat)
    requires s < |b| && t < |b| && d <= |b| && EqFor(b, s, t, d) && Le(b, Shift(|b|, s, d), Shift(|b|, t, d))
    ensures Le(b, s, t)
  {
    hide Sym;
    var s', t' := Shift(|b|, s, d), Shift(|b|, t, d);
    NotBelow(b, s', t');
    if EqFor(b, s', t', |b|) {
      EqLonger(b, s, t, d, |b|);
      LeByEquality(b, s, t, d + |b|);
    } else {
      var m: nat :| m < |b| && EqFor(b, s', t', m) && Sym(b, s', m) < Sym(b, t', m);
      EqLonger(b, s, t, d, m);
      SymShift(b, s, d, m);
      SymShift(b, t, d, m);
      LeByByte(b, s, t, d + m);
    }
  }

  // ---------------------------------------------------------------- the overshoot

  const OVERSHOOT := 34

  /** The block, and its beginning once more behind it. */
  ghost predicate Extended(blk: seq<int>, b: seq<int>) {
    && |b| > OVERSHOOT && |blk| >= |b| + OVERSHOOT && blk[..|b|] == b
    && forall i :: 0 <= i < OVERSHOOT ==> SameBeyond(blk, |b|, i)
  }

  ghost predicate SameBeyond(x: seq<int>, n: nat, i: nat) { n + i < |x| && i < |x| && x[n + i] == x[i] }

  lemma ExtendedAt(blk: seq<int>, b: seq<int>, i: nat)
    requires Extended(blk, b) && i < |b| + OVERSHOOT
    ensures i < |blk| && blk[i] == At(b, i)
  {
    if i < |b| {
      assert blk[..|b|][i] == b[i];
    } else {
      assert SameBeyond(blk, |b|, i - |b|);
      assert blk[..|b|][i - |b|] == b[i - |b|];
    }
  }

  /** The quadrant values know something about the order: where they differ, for equal bytes,
      they say which rotation comes no later. */
  ghost predicate Quads(q: seq<int>, b: seq<int>) {
    && |b| > OVERSHOOT && |q| >= |b| + OVERSHOOT
    && (forall i :: 0 <= i < OVERSHOOT ==> SameBeyond(q, |b|, i))
    && forall i, j :: 0 <= i < |b| && 0 <= j < |b| && b[i] == b[j] && q[i] < q[j] ==> Le(b, i, j)
  }

  function Wrapped(n: nat, i: nat): nat
    requires i < 2 * n
  {
    if i >= n then i - n else i
  }

  lemma QuadAt(q: seq<int>, b: seq<int>, i: nat)
    requires Quads(q, b) && i < |b| + OVERSHOOT
    ensures i < |q| && q[i] == q[Wrapped(|b|, i)]
  {
    if i >= |b| { assert SameBeyond(q, |b|, i - |b|); }
  }
}
