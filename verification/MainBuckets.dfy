/** The small buckets of mainSort: the rotations that begin with the same two bytes. */
module MainBuckets {
  import opened Rotations
  import opened Counting
  import opened PrefixOrder
  import opened MainOrder
  import opened MainRadix

  /** The part of ptr that belongs to the two bytes c. */
  ghost function Small(p: seq<int>, b: seq<int>, c: nat): (s: seq<int>)
    requires |p| == |b|
    ensures |s| == Start(b, c + 1) - Start(b, c)
  {
    StartsGrow(b, c, c + 1);
    p[Start(b, c)..Start(b, c + 1)]
  }

  lemma StartsGrow(b: seq<int>, c: int, d: int)
    requires c <= d
    ensures Start(b, c) <= Start(b, d) <= |b|
  {
    hide CountLt, CountEq;
    CountLtMonotone(Keys(b), |b|, c, d);
    CountsStep(Keys(b), |b|, d);
  }

  ghost predicate HasKey(b: seq<int>, s: int, c: int) {
    0 <= s < |b| && Keys(b)[s] == c
  }

  /** s lists all rotations that begin with c, each once. */
  ghost predicate Listing(s: seq<int>, b: seq<int>, c: nat) {
    |s| == Start(b, c + 1) - Start(b, c) && Distinct(s) && forall i :: 0 <= i < |s| ==> HasKey(b, s[i], c)
  }

  ghost predicate Ordered(s: seq<int>, b: seq<int>) {
    forall i, j :: 0 <= i < j < |s| ==> Le(b, s[i], s[j])
  }

  /** All small buckets hold what they should. */
  ghost predicate Shaped(p: seq<int>, b: seq<int>) {
    |p| == |b| && forall c: nat :: c < SMALL_BUCKETS ==> Listing(Small(p, b, c), b, c)
  }

  // ---------------------------------------------------------------- counting members

  ghost function Members(b: seq<int>, i: nat, c: int): (m: set<int>)
    requires i <= |b|
    ensures forall s :: s in m <==> 0 <= s < i && Keys(b)[s] == c
    ensures |m| == CountEq(Keys(b), i, c)
  {
    if i == 0 then {} else if Keys(b)[i - 1] == c then Members(b, i - 1, c) + {i - 1} else Members(b, i - 1, c)
  }

  lemma BucketSize(b: seq<int>, c: nat)
    ensures Start(b, c + 1) - Start(b, c) == |Members(b, |b|, c)|
  {
    CountsStep(Keys(b), |b|, c);
  }

  /** Distinct rotations that begin with c are no more than the bucket holds. */
  lemma AtMostBucket(s: seq<int>, b: seq<int>, c: nat)
    requires Distinct(s) && forall i :: 0 <= i < |s| ==> HasKey(b, s[i], c)
    ensures |s| <= Start(b, c + 1) - Start(b, c)
  {
    DistinctSetSize(s);
    var m := set x | x in s;
    BucketSize(b, c);
    assert m <= Members(b, |b|, c);
    SubsetSize(m, Members(b, |b|, c));
  }

  lemma SubsetSize(a: set<int>, m: set<int>)
    requires a <= m
    ensures |a| <= |m|
  {
    assert m == a + (m - a);
  }

  /** If all of them are there, there are as many as the bucket holds. */
  lemma WholeBucket(s: seq<int>, b: seq<int>, c: nat)
    requires Distinct(s) && forall x :: HasKey(b, x, c) ==> x in s
    ensures |s| >= Start(b, c + 1) - Start(b, c)
  {
    DistinctSetSize(s);
    var m := set x | x in s;
    BucketSize(b, c);
    forall x | x in Members(b, |b|, c) ensures x in m { assert HasKey(b, x, c); }
    SubsetSize(Members(b, |b|, c), m);
  }

  /** A listing leaves nothing out. */
  lemma ListingComplete(s: seq<int>, b: seq<int>, c: nat, x: int)
    requires Listing(s, b, c) && HasKey(b, x, c)
    ensures x in s
  {
    DistinctSetSize(s);
    var m := set y | y in s;
    BucketSize(b, c);
    assert m <= Members(b, |b|, c);
    SubsetFull(m, Members(b, |b|, c));
    assert x in m;
  }

  // ---------------------------------------------------------------- buckets and permutations

  /** Which small bucket a place belongs to. */
  lemma {:induction false} BucketAt(b: seq<int>, q: nat, top: nat) returns (c: nat)
    requires q < Start(b, top) && Start(b, 0) == 0
    ensures c < top && Start(b, c) <= q < Start(b, c + 1)
  {
    hide CountLt;
    if Start(b, top - 1) <= q { c := top - 1; } else { c := BucketAt(b, q, top - 1); }
  }

  lemma Outer(b: seq<int>)
    requires IsBlock(b)
    ensures Start(b, 0) == 0 && Start(b, SMALL_BUCKETS) == |b|
  {
    forall s | 0 <= s < |b| ensures 0 <= Keys(b)[s] < SMALL_BUCKETS { KeyRange(b, s); }
    BelowAll(Keys(b), |b|);
    AllBelow(Keys(b), |b|, SMALL_BUCKETS);
  }

  lemma {:induction false} AllBelow(k: seq<int>, i: nat, c: int)
    requires i <= |k| && forall s :: 0 <= s < |k| ==> k[s] < c
    ensures CountLt(k, i, c) == i
  {
    if i > 0 { AllBelow(k, i - 1, c); }
  }

  lemma BucketedShaped(p: seq<int>, b: seq<int>)
    requires IsBlock(b) && Bucketed(p, b)
    ensures Shaped(p, b)
  {
    hide CountLt, IsBlock;
    forall c: nat | c < SMALL_BUCKETS ensures Listing(Small(p, b, c), b, c) {
      var s := Small(p, b, c);
      StartsGrow(b, c, c + 1);
      forall i | 0 <= i < |s| ensures HasKey(b, s[i], c) {
        var q := Start(b, c) + i;
        assert s[i] == p[q] && InBucket(p, b, q);
        SameBucket(b, Keys(b)[p[q]], c, q);
      }
    }
  }

  lemma SameBucket(b: seq<int>, c: int, d: int, q: nat)
    requires Start(b, c) <= q < Start(b, c + 1) && Start(b, d) <= q < Start(b, d + 1)
    ensures c == d
  {
    if c < d { StartsGrow(b, c + 1, d); }
    if d < c { StartsGrow(b, d + 1, c); }
  }

  /** Every place is one of its small bucket. */
  lemma PlaceInSmall(p: seq<int>, b: seq<int>, q: nat) returns (c: nat, i: nat)
    requires IsBlock(b) && Shaped(p, b) && q < |b|
    ensures c < SMALL_BUCKETS && Start(b, c) <= q < Start(b, c + 1) && i == q - Start(b, c)
    ensures i < |Small(p, b, c)| && Small(p, b, c)[i] == p[q] && HasKey(b, p[q], c)
  {
    hide CountLt, IsBlock;
    Outer(b);
    c := BucketAt(b, q, SMALL_BUCKETS);
    StartsGrow(b, c, c + 1);
    i := q - Start(b, c);
    assert Listing(Small(p, b, c), b, c);
  }

  lemma ShapedPermutes(p: seq<int>, b: seq<int>)
    requires IsBlock(b) && Shaped(p, b)
    ensures IsPermutation(p, |b|)
  {
    hide CountLt, IsBlock, Start, Small, Listing;
    forall q | 0 <= q < |b| ensures 0 <= p[q] < |b| {
      var c, i := PlaceInSmall(p, b, q);
    }
    forall q, q' | 0 <= q < q' < |b| ensures p[q] != p[q'] {
      var c, i := PlaceInSmall(p, b, q);
      var c', i' := PlaceInSmall(p, b, q');
      if c == c' { ListingDistinct(p, b, c, i, i'); }
    }
  }

  lemma ListingDistinct(p: seq<int>, b: seq<int>, c: nat, i: nat, j: nat)
    requires Shaped(p, b) && c < SMALL_BUCKETS && i < j < |Small(p, b, c)|
    ensures Small(p, b, c)[i] != Small(p, b, c)[j]
  {
    assert Listing(Small(p, b, c), b, c);
  }

  /** All small buckets in order: so is the whole. */
  lemma AllOrdered(p: seq<int>, b: seq<int>)
    requires IsBlock(b) && Shaped(p, b) && forall c: nat :: c < SMALL_BUCKETS ==> Ordered(Small(p, b, c), b)
    ensures SortedRotations(b, p)
  {
    hide CountLt, IsBlock, Start, Small, Listing, Le, Shaped;
    ShapedPermutes(p, b);
    forall q, q' | 0 <= q < q' < |b| ensures LexLe(Rot(b, p[q]), Rot(b, p[q'])) {
      var c, i := PlaceInSmall(p, b, q);
      var c', i' := PlaceInSmall(p, b, q');
      if c == c' {
        assert Ordered(Small(p, b, c), b);
        LeMeans(b, p[q], p[q']);
      } else {
        PlacesOrdered(b, c, c', q, q');
        KeysOrdered(b, p[q], p[q']);
      }
    }
  }

  lemma LeMeans(b: seq<int>, s: int, t: int)
    requires Le(b, s, t)
    ensures 0 <= s < |b| && 0 <= t < |b| && LexLe(Rot(b, s), Rot(b, t))
  {
  }

  lemma PlacesOrdered(b: seq<int>, c: nat, d: nat, q: nat, r: nat)
    requires Start(b, c) <= q < Start(b, c + 1) && Start(b, d) <= r < Start(b, d + 1) && q < r && c != d
    ensures c < d
  {
    if d < c { StartsGrow(b, d + 1, c); }
  }

  /** The first two bytes. */
  lemma TwoBytes(b: seq<int>, s: nat)
    requires IsBlock(b) && s < |b|
    ensures Sym(b, s, 0) == b[s] == Keys(b)[s] / 256 && Sym(b, s, 1) == b[Succ(|b|, s)] == Keys(b)[s] % 256
  {
    KeyRange(b, s);
    if s + 1 == |b| { assert At(b, |b|) == At(b, 0); }
  }

  lemma KeysOrdered(b: seq<int>, s: nat, t: nat)
    requires IsBlock(b) && s < |b| && t < |b| && Keys(b)[s] < Keys(b)[t]
    ensures Le(b, s, t) && LexLe(Rot(b, s), Rot(b, t))
  {
    hide IsBlock, Sym, Keys;
    TwoBytes(b, s);
    TwoBytes(b, t);
    if b[s] < b[t] { LeByByte(b, s, t, 0); } else { LeByByte(b, s, t, 1); }
  }
}
