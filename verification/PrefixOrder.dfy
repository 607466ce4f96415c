/** Comparing rotations by their first h bytes, and how comparisons of length h double. */
module PrefixOrder {
  import opened Rotations

  /** Byte i of the block read round and round. */
  function At(b: seq<int>, i: nat): int
    requires |b| > 0
  {
    if i < |b| then b[i] else At(b, i - |b|)
  }

  /** The rotation h places further on. */
  function Shift(n: nat, s: nat, h: nat): (t: nat)
    requires s < n && h <= n
    ensures t < n
  {
    if s + h >= n then s + h - n else s + h
  }

  /** Byte k of the rotation that starts at s. */
  function Sym(b: seq<int>, s: nat, k: nat): int
    requires |b| > 0
  {
    At(b, s + k)
  }

  ghost predicate EqFor(b: seq<int>, s: nat, t: nat, h: nat)
    requires |b| > 0
  {
    forall k :: 0 <= k < h ==> Sym(b, s, k) == Sym(b, t, k)
  }

  ghost predicate LtFor(b: seq<int>, s: nat, t: nat, h: nat)
    requires |b| > 0
  {
    exists m :: 0 <= m < h && EqFor(b, s, t, m) && Sym(b, s, m) < Sym(b, t, m)
  }

  lemma SymShift(b: seq<int>, s: nat, h: nat, k: nat)
    requires s < |b| && h <= |b|
    ensures Sym(b, Shift(|b|, s, h), k) == Sym(b, s, h + k)
  {
  }

  lemma EqLonger(b: seq<int>, s: nat, t: nat, h: nat, m: nat)
    requires s < |b| && t < |b| && h <= |b|
    requires EqFor(b, s, t, h) && EqFor(b, Shift(|b|, s, h), Shift(|b|, t, h), m)
    ensures EqFor(b, s, t, h + m)
  {
    var s', t' := Shift(|b|, s, h), Shift(|b|, t, h);
    hide Sym;
    forall k: nat | k < h + m ensures Sym(b, s, k) == Sym(b, t, k) {
      if k >= h {
        SymShift(b, s, h, k - h);
        SymShift(b, t, h, k - h);
        assert Sym(b, s', k - h) == Sym(b, t', k - h);
      }
    }
  }

  /** Equal on a stretch of h and again from h on: equal on twice the stretch. */
  lemma EqDouble(b: seq<int>, s: nat, t: nat, h: nat)
    requires s < |b| && t < |b| && h <= |b|
    requires EqFor(b, s, t, h) && EqFor(b, Shift(|b|, s, h), Shift(|b|, t, h), h)
    ensures EqFor(b, s, t, 2 * h)
  {
    EqLonger(b, s, t, h, h);
  }

  lemma LtLonger(b: seq<int>, s: nat, t: nat, h: nat, h': nat)
    requires |b| > 0 && h <= h' && LtFor(b, s, t, h)
    ensures LtFor(b, s, t, h')
  {
    var m :| 0 <= m < h && EqFor(b, s, t, m) && Sym(b, s, m) < Sym(b, t, m);
  }

  /** Equal on a stretch of h and below from h on: below on twice the stretch. */
  lemma LtDouble(b: seq<int>, s: nat, t: nat, h: nat)
    requires s < |b| && t < |b| && h <= |b|
    requires EqFor(b, s, t, h) && LtFor(b, Shift(|b|, s, h), Shift(|b|, t, h), h)
    ensures LtFor(b, s, t, 2 * h)
  {
    var s', t' := Shift(|b|, s, h), Shift(|b|, t, h);
    var m: nat :| m < h && EqFor(b, s', t', m) && Sym(b, s', m) < Sym(b, t', m);
    EqLonger(b, s, t, h, m);
    SymShift(b, s, h, m);
    SymShift(b, t, h, m);
  }

  lemma RotAt(b: seq<int>, s: nat, k: nat)
    requires s < |b| && k < |b|
    ensures Rot(b, s)[k] == Sym(b, s, k)
  {
    if s + k < |b| {
      assert Rot(b, s)[k] == b[s + k];
    } else {
      assert Rot(b, s)[k] == b[s + k - |b|];
      assert At(b, s + k) == At(b, s + k - |b|);
    }
  }

  /** Comparisons of a whole turn or more decide the order of the rotations. */
  lemma EqShorter(b: seq<int>, s: nat, t: nat, h: nat, h': nat)
    requires |b| > 0 && h' <= h && EqFor(b, s, t, h)
    ensures EqFor(b, s, t, h')
  {
  }

  lemma WholeTurn(b: seq<int>, s: nat, t: nat, h: nat)
    requires s < |b| && t < |b| && h >= |b|
    requires EqFor(b, s, t, h) || LtFor(b, s, t, h)
    ensures LexLe(Rot(b, s), Rot(b, t))
  {
    if EqFor(b, s, t, |b|) {
      forall k | 0 <= k < |b| ensures Rot(b, s)[k] == Rot(b, t)[k] {
        RotAt(b, s, k);
        RotAt(b, t, k);
        assert Sym(b, s, k) == Sym(b, t, k);
      }
      assert Rot(b, s) == Rot(b, t);
      LexReflexive(Rot(b, s));
    } else {
      if EqFor(b, s, t, h) { EqShorter(b, s, t, h, |b|); }
      ShortLt(b, s, t, h);
    }
  }

  lemma ShortLt(b: seq<int>, s: nat, t: nat, h: nat)
    requires s < |b| && t < |b|
    requires LtFor(b, s, t, h) && !EqFor(b, s, t, |b|)
    ensures LexLe(Rot(b, s), Rot(b, t))
  {
    var m :| 0 <= m < h && EqFor(b, s, t, m) && Sym(b, s, m) < Sym(b, t, m);
    forall k | 0 <= k < m ensures Rot(b, s)[k] == Rot(b, t)[k] {
      RotAt(b, s, k);
      RotAt(b, t, k);
      assert Sym(b, s, k) == Sym(b, t, k);
    }
    assert Rot(b, s)[..m] == Rot(b, t)[..m];
    RotAt(b, s, m);
    RotAt(b, t, m);
    LexAt(Rot(b, s), Rot(b, t), m);
  }

  /** A strict comparison at any length orders the rotations. */
  lemma StrictTurn(b: seq<int>, s: nat, t: nat, h: nat)
    requires s < |b| && t < |b| && LtFor(b, s, t, h)
    ensures LexLe(Rot(b, s), Rot(b, t))
  {
    if EqFor(b, s, t, |b|) {
      WholeTurnEqual(b, s, t);
    } else {
      ShortLt(b, s, t, h);
    }
  }

  lemma WholeTurnEqual(b: seq<int>, s: nat, t: nat)
    requires s < |b| && t < |b| && EqFor(b, s, t, |b|)
    ensures LexLe(Rot(b, s), Rot(b, t))
  {
    WholeTurn(b, s, t, |b|);
  }
}
