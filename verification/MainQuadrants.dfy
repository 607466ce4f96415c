/** Step 3 of mainSort (blocksort.c): once a big bucket is in order, places in it stand for the
    rotations they hold, as quadrant values. */
module MainQuadrants {
  import opened Bits
  import opened Rotations
  import opened MainOrder
  import opened MainRadix
  import opened MainBuckets
  import opened MainForward
  import opened MainScan

  /** All small buckets of ss are in order. */
  ghost predicate BigInOrder(p: seq<int>, b: seq<int>, ss: nat) {
    |p| == |b| && forall c: nat :: 256 * ss <= c < 256 * (ss + 1) ==> Ordered(Small(p, b, c), b)
  }

  /** So the big bucket is in order. */
  lemma BigOrdered(p: seq<int>, b: seq<int>, ss: nat, q: nat, r: nat)
    requires IsBlock(b) && Shaped(p, b) && BigInOrder(p, b, ss) && ss < 256
    requires BigFrom(b, ss) <= q < r < BigTo(b, ss)
    ensures r < |p| == |b| && Le(b, p[q], p[r]) && p[q] != p[r]
  {
    hide Start, Small, IsBlock, Keys, Le, Shaped;
    ShapedSize(p, b);
    KeyBounds(p, b, q, 256 * ss, 256 * (ss + 1));
    KeyBounds(p, b, r, 256 * ss, 256 * (ss + 1));
    var c, i := PlaceInSmall(p, b, q);
    var c', i' := PlaceInSmall(p, b, r);
    if c == c' {
      ListingDistinct(p, b, c, i, i');
      assert Ordered(Small(p, b, c), b);
      OrderedAt(Small(p, b, c), b, i, i');
    } else {
      PlacesOrdered(b, c, c', q, r);
      KeysOrdered(b, p[q], p[r]);
    }
  }

  lemma InBig(p: seq<int>, b: seq<int>, ss: nat, q: nat)
    requires IsBlock(b) && Shaped(p, b) && ss < 256 && BigFrom(b, ss) <= q < BigTo(b, ss)
    ensures q < |p| == |b| && 0 <= p[q] < |b| && b[p[q]] == ss
  {
    hide Start, Small, IsBlock, Keys, Shaped;
    ShapedSize(p, b);
    KeyBounds(p, b, q, 256 * ss, 256 * (ss + 1));
    TwoBytes(b, p[q]);
  }

  /** A rotation that begins with ss has its place in the big bucket. */
  lemma PlaceOf(p: seq<int>, b: seq<int>, ss: nat, i: nat) returns (q: nat)
    requires IsBlock(b) && Shaped(p, b) && ss < 256 && i < |b| && b[i] == ss
    ensures BigFrom(b, ss) <= q < BigTo(b, ss) && q < |p| && p[q] == i
  {
    hide Start, Small, IsBlock, Keys, Shaped;
    ShapedPermutes(p, b);
    PermutationOnto(p, |b|, i);
    q :| 0 <= q < |b| && p[q] == i;
    var c, x := PlaceInSmall(p, b, q);
    TwoBytes(b, i);
    assert c / 256 == ss;
    StartsGrow(b, 256 * ss, c);
    StartsGrow(b, c + 1, 256 * (ss + 1));
  }

  /** The places from lo + j on have been written into the quadrants; other bytes are as before. */
  ghost predicate Filling(q: seq<int>, q0: seq<int>, p: seq<int>, b: seq<int>, ss: nat, lo: nat, size: nat, d: nat, j: int) {
    && OVERSHOOT < |b| == |p| && lo + size <= |p| && |q| == |q0| >= |b| + OVERSHOOT && d > 0 && 0 <= j
    && (forall k :: lo <= k < lo + size ==> 0 <= p[k] < |b| && b[p[k]] == ss)
    && (forall i :: 0 <= i < OVERSHOOT ==> SameBeyond(q, |b|, i))
    && (forall k :: lo + j <= k < lo + size ==> q[p[k]] == (k - lo) / d)
    && (forall i :: 0 <= i < |b| && b[i] != ss ==> q[i] == q0[i])
  }

  /** One more place. */
  function Written(q: seq<int>, n: nat, a: nat, v: int): seq<int>
    requires a < n && n + OVERSHOOT <= |q|
  {
    if a < OVERSHOOT then q[a := v][a + n := v] else q[a := v]
  }

  lemma FillStep(q: seq<int>, q0: seq<int>, p: seq<int>, b: seq<int>, ss: nat, lo: nat, size: nat, d: nat, j: nat)
    requires Filling(q, q0, p, b, ss, lo, size, d, j + 1) && j < size
    requires forall k :: lo + j < k < lo + size ==> p[k] != p[lo + j]
    ensures 0 <= p[lo + j] < |b| && Filling(Written(q, |b|, p[lo + j], j / d), q0, p, b, ss, lo, size, d, j)
  {
    var a := p[lo + j];
    var q' := Written(q, |b|, a, j / d);
    forall i | 0 <= i < OVERSHOOT ensures SameBeyond(q', |b|, i) { assert SameBeyond(q, |b|, i); }
  }

  lemma ScaledDown(d: nat, k: int)
    requires k <= -1
    ensures d * k + d <= 0
  {
    assert d * k == d * (k + 1) - d;
  }

  lemma Scaled(d: nat, k: int)
    requires d > 0 && d * k + d > 0
    ensures k >= 0
  {
    if k < 0 { ScaledDown(d, k); }
  }

  lemma Quotient(x: nat, d: nat)
    requires d > 0
    ensures d * (x / d) <= x < d * (x / d) + d
  {
  }

  lemma Divided(x: nat, y: nat, d: nat)
    requires x <= y && d > 0
    ensures x / d <= y / d
  {
    Quotient(x, d);
    Quotient(y, d);
    Scaled(d, y / d - x / d);
  }

  /** When all are written, the quadrants know the order of this bucket too. */
  lemma Filled(q: seq<int>, q0: seq<int>, p: seq<int>, b: seq<int>, ss: nat, d: nat)
    requires IsBlock(b) && Shaped(p, b) && BigInOrder(p, b, ss) && ss < 256 && Quads(q0, b) && BigFrom(b, ss) <= BigTo(b, ss)
    requires Filling(q, q0, p, b, ss, BigFrom(b, ss), BigTo(b, ss) - BigFrom(b, ss), d, 0)
    ensures Quads(q, b)
  {
    hide Start, IsBlock, Le, Shaped, BigInOrder;
    forall i, j | 0 <= i < |b| && 0 <= j < |b| && b[i] == b[j] && q[i] < q[j] ensures Le(b, i, j) {
      if b[i] == ss {
        var x := PlaceOf(p, b, ss, i);
        var y := PlaceOf(p, b, ss, j);
        if y <= x { Divided(y - BigFrom(b, ss), x - BigFrom(b, ss), d); }
        BigOrdered(p, b, ss, x, y);
      } else {
        assert q0[i] < q0[j];
      }
    }
  }

  lemma FillStarts(q: seq<int>, p: seq<int>, b: seq<int>, ss: nat, d: nat)
    requires IsBlock(b) && Shaped(p, b) && ss < 256 && Quads(q, b) && d > 0
    ensures BigFrom(b, ss) <= BigTo(b, ss) <= |p| == |b|
    ensures Filling(q, q, p, b, ss, BigFrom(b, ss), BigTo(b, ss) - BigFrom(b, ss), d, BigTo(b, ss) - BigFrom(b, ss))
  {
    hide Start, IsBlock, Le, Shaped;
    Places(b, ss, ss);
    ShapedSize(p, b);
    forall k | BigFrom(b, ss) <= k < BigTo(b, ss) ensures 0 <= p[k] < |b| && b[p[k]] == ss { InBig(p, b, ss, k); }
  }

  lemma Halved(x: nat, d: nat)
    requires d > 0 && x / d >= 1
    ensures x / (2 * d) < x / d
  {
    var y, u := x / (2 * d), x / d;
    Quotient(x, d);
    Quotient(x, 2 * d);
    assert (2 * d) * y == d * (2 * y);
    Scaled(d, u - 2 * y);
  }

  /** Shifted right, the size of the bucket is small enough for sixteen bits. */
  method Shifts(bbSize: nat) returns (shifts: nat)
    ensures bbSize / Pow2(shifts) <= 65534
    ensures shifts > 0 ==> bbSize / Pow2(shifts - 1) > 65534
  {
    shifts := 0;
    while bbSize / Pow2(shifts) > 65534
      invariant shifts > 0 ==> bbSize / Pow2(shifts - 1) > 65534
      decreases bbSize / Pow2(shifts)
    {
      Halved(bbSize, Pow2(shifts));
      shifts := shifts + 1;
    }
  }

  /** The rotation at one place gets its quadrant, in the overshoot as well.  A quadrant has
      sixteen bits. */
  method PutQuadrant(ptr: array<int>, quadrant: array<int>, nblock: nat, ss: nat, bbStart: nat, bbSize: nat, shifts: nat, j: nat,
                     ghost b: seq<int>, ghost q0: seq<int>)
    requires nblock == |b| && ptr != quadrant && j < bbSize && bbSize / Pow2(shifts) <= 65534
    requires Filling(quadrant[..], q0, ptr[..], b, ss, bbStart, bbSize, Pow2(shifts), j + 1)
    requires forall k :: bbStart + j < k < bbStart + bbSize ==> k < ptr.Length && ptr[k] != ptr[bbStart + j]
    modifies quadrant
    ensures Filling(quadrant[..], q0, ptr[..], b, ss, bbStart, bbSize, Pow2(shifts), j)
  {
    hide Filling, Written, Pow2;
    ghost var q := quadrant[..];
    FillSizes(q, q0, ptr[..], b, ss, bbStart, bbSize, Pow2(shifts), j + 1);
    FillStep(q, q0, ptr[..], b, ss, bbStart, bbSize, Pow2(shifts), j);
    Divided(j, bbSize, Pow2(shifts));
    var a2update := ptr[bbStart + j];
    var qVal := (j / Pow2(shifts)) % 0x10000;
    assert qVal == j / Pow2(shifts);
    quadrant[a2update] := qVal;
    if a2update < OVERSHOOT {
      quadrant[a2update + nblock] := qVal;
    }
    WrittenMeans(q, quadrant[..], nblock, a2update, qVal);
  }

  lemma OthersDiffer(p: seq<int>, b: seq<int>, ss: nat, j: nat)
    requires IsBlock(b) && Shaped(p, b) && BigInOrder(p, b, ss) && ss < 256 && BigFrom(b, ss) + j < BigTo(b, ss) <= |p|
    ensures forall k :: BigFrom(b, ss) + j < k < BigTo(b, ss) ==> p[k] != p[BigFrom(b, ss) + j]
  {
    hide Start, IsBlock, Shaped, BigInOrder, Le;
    forall k | BigFrom(b, ss) + j < k < BigTo(b, ss) ensures p[k] != p[BigFrom(b, ss) + j] { BigOrdered(p, b, ss, BigFrom(b, ss) + j, k); }
  }

  /** Step 3: the quadrants of one big bucket.  The assertion is the program's own, number
      1002. */
  method UpdateQuadrants(ptr: array<int>, quadrant: array<int>, ftab: array<int>, nblock: nat, ss: nat, ghost b: seq<int>, ghost fl: seq<bool>)
    requires IsBlock(b) && nblock == |b| && Flagged(ftab[..], b, fl) && ss < 256 && ptr != quadrant && ftab != quadrant
    requires Shaped(ptr[..], b) && BigInOrder(ptr[..], b, ss) && Quads(quadrant[..], b)
    modifies quadrant
    ensures Quads(quadrant[..], b)
  {
    hide Start, IsBlock, Shaped, BigInOrder, Quads, Filling, Flagged, Unmasked, Pow2, BigFrom, BigTo;
    ghost var p, q0 := ptr[..], quadrant[..];
    BigBounds(ftab[..], b, fl, ss);
    var bbStart: nat := Unmasked(ftab[256 * ss]);
    FillStarts(q0, p, b, ss, 1);
    var bbSize: nat := Unmasked(ftab[256 * (ss + 1)]) - bbStart;
    var shifts := Shifts(bbSize);
    FillStarts(q0, p, b, ss, Pow2(shifts));
    var j: int := bbSize - 1;
    while j >= 0
      invariant -1 <= j < bbSize && ptr[..] == p
      invariant Filling(quadrant[..], q0, p, b, ss, bbStart, bbSize, Pow2(shifts), j + 1)
    {
      OthersDiffer(p, b, ss, j);
      PutQuadrant(ptr, quadrant, nblock, ss, bbStart, bbSize, shifts, j, b, q0);
      j := j - 1;
    }
    if bbSize > 0 { Divided(bbSize - 1, bbSize, Pow2(shifts)); }
    assert bbSize > 0 ==> (bbSize - 1) / Pow2(shifts) <= 65535;
    Filled(quadrant[..], q0, p, b, ss, Pow2(shifts));
  }

  lemma BigBounds(ft: seq<int>, b: seq<int>, fl: seq<bool>, ss: nat)
    requires IsBlock(b) && Flagged(ft, b, fl) && ss < 256
    ensures |ft| == SMALL_BUCKETS + 1 && Unmasked(ft[256 * ss]) == BigFrom(b, ss) <= BigTo(b, ss) == Unmasked(ft[256 * (ss + 1)])
  {
    hide Start, IsBlock, Flagged, Unmasked;
    StartOf(ft, b, fl, 256 * ss);
    StartOf(ft, b, fl, 256 * (ss + 1));
    Places(b, ss, ss);
  }

  lemma WrittenMeans(q: seq<int>, q': seq<int>, n: nat, a: nat, v: int)
    requires a < n && n + OVERSHOOT <= |q|
    requires q' == if a < OVERSHOOT then q[a := v][a + n := v] else q[a := v]
    ensures q' == Written(q, n, a, v)
  {
  }

  lemma FillSizes(q: seq<int>, q0: seq<int>, p: seq<int>, b: seq<int>, ss: nat, lo: nat, size: nat, d: nat, j: int)
    requires Filling(q, q0, p, b, ss, lo, size, d, j)
    ensures |q| >= |b| + OVERSHOOT && lo + size <= |p| == |b|
  {
  }
}
