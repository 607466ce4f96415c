/** Step 2 of mainSort (blocksort.c): once the big bucket of ss is in order, apart from ss
    followed by ss, scanning it from both ends puts every small bucket that ends in ss in order,
    that one included. */
module MainScan {
  import Counting
  import opened Rotations
  import opened PrefixOrder
  import opened MainOrder
  import opened MainRadix
  import opened MainBuckets
  import opened MainRuns
  import opened MainForward
  import opened MainBackward

  const SETMASK := 0x200000

  /** ftab: where each small bucket starts, and whether it is known to be in order. */
  ghost predicate Flagged(ft: seq<int>, b: seq<int>, fl: seq<bool>) {
    && |ft| == SMALL_BUCKETS + 1 && |fl| == SMALL_BUCKETS
    && ft[SMALL_BUCKETS] == Start(b, SMALL_BUCKETS)
    && forall c: nat :: c < SMALL_BUCKETS ==> ft[c] == Start(b, c) + if fl[c] then SETMASK else 0
  }

  function Unmasked(x: int): int { x % SETMASK }

  lemma StartOf(ft: seq<int>, b: seq<int>, fl: seq<bool>, c: nat)
    requires Flagged(ft, b, fl) && IsBlock(b) && c <= SMALL_BUCKETS
    ensures |ft| == SMALL_BUCKETS + 1 && Unmasked(ft[c]) == Start(b, c) <= |b| && ft[c] >= 0
  {
    hide Start;
    BlockSize(b);
    StartsGrow(b, c, c);
  }

  // ---------------------------------------------------------------- what has been found

  lemma RunOne(b: seq<int>, ss: int, s: nat)
    requires s < |b| && b[s] == ss
    ensures Run(b, ss, s, 1)
  {
    assert Sym(b, s, 0) == ss;
  }

  /** Rotations that go down at once make up the beginning of the big bucket. */
  lemma InBeginning(p0: seq<int>, b: seq<int>, ss: nat, s: int)
    requires IsBlock(b) && Shaped(p0, b) && ss < 256 && 0 <= s < |b| && b[s] == ss && Sym(b, s, 1) < ss
    ensures BigFrom(b, ss) <= From(b, ss, ss) <= |p0| && s in p0[BigFrom(b, ss)..From(b, ss, ss)]
  {
    hide Start, IsBlock, Sym, Keys;
    TwoBytes(b, s);
    BlockSize(b);
    var c: nat := 256 * ss + Sym(b, s, 1);
    assert HasKey(b, s, c);
    assert Listing(Small(p0, b, c), b, c);
    ListingComplete(Small(p0, b, c), b, c, s);
    StartsGrow(b, 256 * ss, c);
    StartsGrow(b, c, c + 1);
    StartsGrow(b, c + 1, 256 * ss + ss);
    InSlice(p0, Start(b, c), Start(b, c + 1), BigFrom(b, ss), From(b, ss, ss), s);
  }

  lemma InSlice(p: seq<int>, lo: nat, hi: nat, lo': nat, hi': nat, x: int)
    requires lo' <= lo <= hi <= hi' <= |p| && x in p[lo..hi]
    ensures x in p[lo'..hi']
  {
    var i :| 0 <= i < hi - lo && p[lo..hi][i] == x;
    assert p[lo'..hi'][lo - lo' + i] == x;
  }

  lemma InEnding(p0: seq<int>, b: seq<int>, ss: nat, s: int)
    requires IsBlock(b) && Shaped(p0, b) && ss < 256 && 0 <= s < |b| && b[s] == ss && Sym(b, s, 1) > ss
    ensures 0 <= To(b, ss, ss) <= BigTo(b, ss) <= |p0| && s in Reversed(p0, To(b, ss, ss), BigTo(b, ss))
  {
    hide Start, IsBlock, Sym, Keys;
    TwoBytes(b, s);
    BlockSize(b);
    var c: nat := 256 * ss + Sym(b, s, 1);
    KeyTop(b, s);
    assert HasKey(b, s, c);
    assert Listing(Small(p0, b, c), b, c);
    ListingComplete(Small(p0, b, c), b, c, s);
    StartsGrow(b, 256 * ss + ss + 1, c);
    StartsGrow(b, c, c + 1);
    StartsGrow(b, c + 1, 256 * (ss + 1));
    InSlice(p0, Start(b, c), Start(b, c + 1), To(b, ss, ss), BigTo(b, ss), s);
    InReversed(p0, To(b, ss, ss), BigTo(b, ss), s);
  }

  lemma KeyTop(b: seq<int>, s: nat)
    requires IsBlock(b) && s < |b|
    ensures 0 <= Sym(b, s, 1) < 256
  {
    TwoBytes(b, s);
  }

  lemma InReversed(p: seq<int>, lo: nat, hi: nat, x: int)
    requires lo <= hi <= |p| && x in p[lo..hi]
    ensures x in Reversed(p, lo, hi)
  {
    var i :| 0 <= i < hi - lo && p[lo..hi][i] == x;
    assert Reversed(p, lo, hi)[hi - lo - 1 - i] == x;
  }

  /** Everything that goes down has been scanned forwards. */
  lemma {:induction false} DownScanned(p0: seq<int>, b: seq<int>, ss: nat, l: seq<int>, s: int, m: nat)
    requires IsBlock(b) && Shaped(p0, b) && ss < 256 && 0 <= s < |b| && m >= 1 && Run(b, ss, s, m) && Sym(b, s, m) < ss
    requires BigFrom(b, ss) <= From(b, ss, ss) <= |p0| && Rotations0(l, |b|)
    requires l == p0[BigFrom(b, ss)..From(b, ss, ss)] + Preds(b, l, ss)
    ensures s in l
    decreases m
  {
    hide Start, IsBlock, Sym, Preds, Shaped, Run;
    FirstOfRun(b, ss, s, m);
    if m == 1 {
      InBeginning(p0, b, ss, s);
    } else {
      SuccRun(b, ss, s, m);
      var r := Succ(|b|, s);
      DownScanned(p0, b, ss, l, r, m - 1);
      var j :| 0 <= j < |l| && l[j] == r;
      PredsHas(b, l, ss, j);
    }
  }

  lemma FirstOfRun(b: seq<int>, ss: int, s: nat, m: nat)
    requires Run(b, ss, s, m) && m >= 1
    ensures b[s] == ss
  {
    assert Sym(b, s, 0) == ss;
  }

  lemma {:induction false} UpScanned(p0: seq<int>, b: seq<int>, ss: nat, l: seq<int>, s: int, m: nat)
    requires IsBlock(b) && Shaped(p0, b) && ss < 256 && 0 <= s < |b| && m >= 1 && Run(b, ss, s, m) && Sym(b, s, m) > ss
    requires 0 <= To(b, ss, ss) <= BigTo(b, ss) <= |p0| && Rotations0(l, |b|)
    requires l == Reversed(p0, To(b, ss, ss), BigTo(b, ss)) + Preds(b, l, ss)
    ensures s in l
    decreases m
  {
    hide Start, IsBlock, Sym, Preds, Shaped, Run;
    FirstOfRun(b, ss, s, m);
    if m == 1 {
      InEnding(p0, b, ss, s);
    } else {
      SuccRun(b, ss, s, m);
      var r := Succ(|b|, s);
      UpScanned(p0, b, ss, l, r, m - 1);
      var j :| 0 <= j < |l| && l[j] == r;
      PredsHas(b, l, ss, j);
    }
  }

  /** Both scans are over. */
  ghost predicate Over(p: seq<int>, p0: seq<int>, b: seq<int>, ss: nat, done: seq<bool>, cs: seq<int>, ce: seq<int>, l: seq<int>, m: seq<int>) {
    && ss < 256 && |p0| == |b| && BigFrom(b, ss) <= From(b, ss, ss) <= To(b, ss, ss) <= BigTo(b, ss) <= |b|
    && Backward(p, p0, b, ss, done, cs, ce, p0[BigFrom(b, ss)..From(b, ss, ss)], l, Reversed(p0, To(b, ss, ss), BigTo(b, ss)), m)
    && BigTo(b, ss) - 1 - |m| == ce[ss]
  }

  /** What the two scans went over. */
  lemma OverLists(p: seq<int>, p0: seq<int>, b: seq<int>, ss: nat, done: seq<bool>, cs: seq<int>, ce: seq<int>, l: seq<int>, m: seq<int>)
    requires Over(p, p0, b, ss, done, cs, ce, l, m)
    ensures Rotations0(l, |b|) && l == p0[BigFrom(b, ss)..From(b, ss, ss)] + Preds(b, l, ss)
    ensures Rotations0(m, |b|) && m == Reversed(p0, To(b, ss, ss), BigTo(b, ss)) + Preds(b, m, ss)
    ensures Distinct(l) && AllDown(l, b, ss) && Distinct(m) && AllUp(m, b, ss) && Ordered(l, b) && OrderedDown(m, b)
    ensures (forall i :: 0 <= i < |l| ==> b[l[i]] == ss) && forall i :: 0 <= i < |m| ==> b[m[i]] == ss
  {
    hide Start, Preds, Untouched, LeftParts, RightParts, Ordered, OrderedDown, Distinct, AllDown, AllUp;
    var g := p[BigFrom(b, ss)..cs[ss]];
    assert g == l;
    var h := Reversed(p, ce[ss] + 1, BigTo(b, ss));
    assert h == m;
    RegionRotations(b, ss, p0[BigFrom(b, ss)..From(b, ss, ss)], g, l);
    UpRotations(b, ss, h);
  }

  /** Every member of a small bucket has been copied. */
  lemma MemberCopied(p: seq<int>, p0: seq<int>, b: seq<int>, ss: nat, done: seq<bool>, cs: seq<int>, ce: seq<int>, l: seq<int>, m: seq<int>,
                     t: nat, x: int)
    requires IsBlock(b) && Shaped(p0, b) && Over(p, p0, b, ss, done, cs, ce, l, m) && !OnlyByte(b, ss)
    requires t < 256 && HasKey(b, x, 256 * t + ss)
    ensures Rotations0(l, |b|) && Rotations0(m, |b|) && x in Preds(b, l, t) + Preds(b, m, t)
  {
    hide Start, Preds, Over, Shaped, IsBlock, Keys, Sym, Run;
    OverLists(p, p0, b, ss, done, cs, ce, l, m);
    TwoBytes(b, x);
    OverSizes(p, p0, b, ss, done, cs, ce, l, m);
    KeySplit(Keys(b)[x], t, ss);
    var r := Succ(|b|, x);
    DownOrUp(b, ss, r);
    if Down(b, ss, r) {
      var k: nat :| k >= 1 && Run(b, ss, r, k) && Sym(b, r, k) < ss;
      DownScanned(p0, b, ss, l, r, k);
      var j :| 0 <= j < |l| && l[j] == r;
      PredsHas(b, l, t, j);
    } else {
      var k: nat :| k >= 1 && Run(b, ss, r, k) && Sym(b, r, k) > ss;
      UpScanned(p0, b, ss, m, r, k);
      var j :| 0 <= j < |m| && m[j] == r;
      PredsHas(b, m, t, j);
    }
  }

  lemma OverSizes(p: seq<int>, p0: seq<int>, b: seq<int>, ss: nat, done: seq<bool>, cs: seq<int>, ce: seq<int>, l: seq<int>, m: seq<int>)
    requires Over(p, p0, b, ss, done, cs, ce, l, m)
    ensures ss < 256 && |p| == |p0| == |b| && |done| == |cs| == |ce| == 256
    ensures BigFrom(b, ss) <= From(b, ss, ss) <= To(b, ss, ss) <= BigTo(b, ss) <= |b|
  {
    hide Start, Preds, Untouched, LeftParts, RightParts, LeftRegion, RightRegion;
  }

  lemma KeySplit(c: int, t: nat, ss: nat)
    requires c == 256 * t + ss && ss < 256
    ensures c / 256 == t && c % 256 == ss
  {
  }

  /** The small bucket of t and ss is complete and in order, and the two parts meet. */
  lemma BucketComplete(p: seq<int>, p0: seq<int>, b: seq<int>, ss: nat, done: seq<bool>, cs: seq<int>, ce: seq<int>, l: seq<int>, m: seq<int>,
                       t: nat)
    requires IsBlock(b) && Shaped(p0, b) && Over(p, p0, b, ss, done, cs, ce, l, m) && !OnlyByte(b, ss)
    requires t < 256 && |done| == |cs| == |ce| == 256 && !done[t] && |p| == |b|
    ensures cs[t] - 1 == ce[t]
    ensures Listing(Small(p, b, 256 * t + ss), b, 256 * t + ss) && Ordered(Small(p, b, 256 * t + ss), b)
  {
    hide Start, Preds, Over, Shaped, IsBlock, Keys, Ordered, OrderedDown, Distinct, AllDown, AllUp;
    OverLists(p, p0, b, ss, done, cs, ce, l, m);
    var x, y := Preds(b, l, t), Preds(b, m, t);
    RoomBoth(b, ss, l, m, t);
    forall z | HasKey(b, z, 256 * t + ss) ensures z in x + y { MemberCopied(p, p0, b, ss, done, cs, ce, l, m, t, z); }
    WholeBucket(x + y, b, 256 * t + ss);
    PartsMeet(p, p0, b, ss, done, cs, ce, l, m, t);
    PredsOrdered(b, l, t);
    PredsOrderedDown(b, m, t);
    forall i, j | 0 <= i < |x| && 0 <= j < |y| ensures Le(b, x[i], y[j]) { LeftBeforeRight(b, ss, l, m, t, i, j); }
    forall i | 0 <= i < |x| ensures HasKey(b, x[i], 256 * t + ss) { PredsKey(b, l, t, ss, i); }
    forall i | 0 <= i < |y| ensures HasKey(b, y[i], 256 * t + ss) { PredsKey(b, m, t, ss, i); }
    MeetingParts(p[From(b, ss, t)..To(b, ss, t)], b, x, y, 256 * t + ss);
    PartsListing(p[From(b, ss, t)..To(b, ss, t)], b, x, y, 256 * t + ss);
  }

  lemma LeftBeforeRight(b: seq<int>, ss: nat, l: seq<int>, m: seq<int>, t: nat, i: nat, j: nat)
    requires Rotations0(l, |b|) && Rotations0(m, |b|) && AllDown(l, b, ss) && AllUp(m, b, ss)
    requires i < |Preds(b, l, t)| && j < |Preds(b, m, t)|
    ensures Le(b, Preds(b, l, t)[i], Preds(b, m, t)[j])
  {
    hide Down, Up, Le;
    var i' := PredsFrom(b, l, t, i);
    var j' := PredsFrom(b, m, t, j);
    assert Down(b, ss, l[i']) && Up(b, ss, m[j']);
    DownBeforeUp(b, ss, l[i'], m[j']);
    LePred(b, l[i'], m[j']);
  }

  /** s is x followed by y read backwards. */
  ghost predicate Joined(s: seq<int>, x: seq<int>, y: seq<int>) {
    |s| == |x| + |y| && s[..|x|] == x && forall i :: 0 <= i < |y| ==> s[|s| - 1 - i] == y[i]
  }

  lemma PartsMeet(p: seq<int>, p0: seq<int>, b: seq<int>, ss: nat, done: seq<bool>, cs: seq<int>, ce: seq<int>, l: seq<int>, m: seq<int>, t: nat)
    requires Over(p, p0, b, ss, done, cs, ce, l, m) && t < 256 && |done| == |cs| == |ce| == 256 && !done[t] && |p| == |b|
    requires Rotations0(l, |b|) && Rotations0(m, |b|)
    requires |Preds(b, l, t)| + |Preds(b, m, t)| == To(b, ss, t) - From(b, ss, t)
    ensures cs[t] - 1 == ce[t] && From(b, ss, t) <= To(b, ss, t) <= |b|
    ensures Joined(p[From(b, ss, t)..To(b, ss, t)], Preds(b, l, t), Preds(b, m, t))
  {
    hide Start, Preds, Untouched, LeftRegion, RightRegion;
    assert LeftPart(p, b, ss, done[t], cs[t], l, t);
    assert RightPart(p, b, ss, done[t], ce[t], cs[t], m, t);
    var s, x, y := p[From(b, ss, t)..To(b, ss, t)], Preds(b, l, t), Preds(b, m, t);
    var rv := Reversed(p, ce[t] + 1, To(b, ss, t));
    forall i | 0 <= i < |y| ensures s[|s| - 1 - i] == y[i] {
      assert rv[i] == p[To(b, ss, t) - 1 - i];
    }
    assert s[..|x|] == p[From(b, ss, t)..cs[t]];
  }

  lemma MeetingParts(s: seq<int>, b: seq<int>, x: seq<int>, y: seq<int>, c: nat)
    requires Joined(s, x, y) && Ordered(x, b) && OrderedDown(y, b)
    requires forall i, j :: 0 <= i < |x| && 0 <= j < |y| ==> Le(b, x[i], y[j])
    ensures Ordered(s, b)
  {
    hide Le;
    forall i, j | 0 <= i < j < |s| ensures Le(b, s[i], s[j]) {
      JoinedAt(s, x, y, i);
      JoinedAt(s, x, y, j);
    }
  }

  lemma JoinedAt(s: seq<int>, x: seq<int>, y: seq<int>, i: nat)
    requires Joined(s, x, y) && i < |s|
    ensures s[i] == if i < |x| then x[i] else y[|s| - 1 - i]
  {
    if i < |x| { assert s[..|x|][i] == x[i]; } else { assert s[|s| - 1 - (|s| - 1 - i)] == y[|s| - 1 - i]; }
  }

  lemma PartsListing(s: seq<int>, b: seq<int>, x: seq<int>, y: seq<int>, c: nat)
    requires Joined(s, x, y) && Distinct(x + y) && |s| == Start(b, c + 1) - Start(b, c)
    requires (forall i :: 0 <= i < |x| ==> HasKey(b, x[i], c)) && forall i :: 0 <= i < |y| ==> HasKey(b, y[i], c)
    ensures Listing(s, b, c)
  {
    hide Start, Keys;
    forall i | 0 <= i < |s| ensures HasKey(b, s[i], c) { JoinedAt(s, x, y, i); }
    forall i, j | 0 <= i < j < |s| ensures s[i] != s[j] {
      JoinedAt(s, x, y, i);
      JoinedAt(s, x, y, j);
      var i', j' := if i < |x| then i else |x| + (|s| - 1 - i), if j < |x| then j else |x| + (|s| - 1 - j);
      assert (x + y)[i'] == s[i] && (x + y)[j'] == s[j];
    }
  }

  // ---------------------------------------------------------------- before the scan

  /** Step 1 is over: all small buckets of ss are in order, except for ss followed by ss. */
  ghost predicate StepOne(p: seq<int>, b: seq<int>, ss: nat) {
    |p| == |b| && forall c: nat :: 256 * ss <= c < 256 * (ss + 1) && c != 256 * ss + ss ==> Ordered(Small(p, b, c), b)
  }

  /** Two places in small buckets that are in order. */
  lemma PairOrdered(p: seq<int>, b: seq<int>, ss: nat, q: nat, r: nat)
    requires IsBlock(b) && Shaped(p, b) && StepOne(p, b, ss) && ss < 256 && q < r < |b|
    requires 256 * ss <= KeyAt(p, b, q) < 256 * (ss + 1) && 256 * ss <= KeyAt(p, b, r) < 256 * (ss + 1) && KeyAt(p, b, q) != 256 * ss + ss
    ensures Le(b, p[q], p[r]) && p[q] != p[r]
  {
    hide Start, Small, IsBlock, Keys, Le, Shaped;
    var c, i := PlaceInSmall(p, b, q);
    var c', i' := PlaceInSmall(p, b, r);
    if c == c' {
      ListingDistinct(p, b, c, i, i');
      OrderedAt(Small(p, b, c), b, i, i');
    } else {
      PlacesOrdered(b, c, c', q, r);
      KeysOrdered(b, p[q], p[r]);
    }
  }

  lemma OrderedAt(s: seq<int>, b: seq<int>, i: nat, j: nat)
    requires Ordered(s, b) && i < j < |s|
    ensures Le(b, s[i], s[j])
  {
  }

  /** The key of the rotation at a place. */
  ghost function KeyAt(p: seq<int>, b: seq<int>, q: nat): int {
    if q < |p| && 0 <= p[q] < |b| then Keys(b)[p[q]] else -1
  }

  /** Places and keys go together. */
  lemma KeyBounds(p: seq<int>, b: seq<int>, q: nat, lo: nat, hi: nat)
    requires IsBlock(b) && Shaped(p, b) && lo <= hi <= SMALL_BUCKETS && Start(b, lo) <= q < Start(b, hi)
    ensures q < |b| && 0 <= p[q] < |b| && lo <= KeyAt(p, b, q) < hi
  {
    hide Start, Small, IsBlock, Keys, Shaped;
    StartsGrow(b, hi, hi);
    ShapedSize(p, b);
    var c, i := PlaceInSmall(p, b, q);
    if c < lo { StartsGrow(b, c + 1, lo); }
    if c >= hi { StartsGrow(b, hi, c); }
  }

  lemma ShapedSize(p: seq<int>, b: seq<int>)
    requires Shaped(p, b)
    ensures |p| == |b|
  {
  }

  lemma OneStep(b: seq<int>, ss: nat, s: nat)
    requires IsBlock(b) && s < |b| && 256 * ss <= Keys(b)[s] < 256 * (ss + 1)
    ensures Keys(b)[s] < 256 * ss + ss ==> Down(b, ss, s)
    ensures Keys(b)[s] > 256 * ss + ss ==> Up(b, ss, s)
  {
    hide IsBlock, Keys, Sym;
    TwoBytes(b, s);
    assert b[s] == ss;
    RunOne(b, ss, s);
  }

  lemma IsBeginning(p0: seq<int>, b: seq<int>, ss: nat)
    requires IsBlock(b) && Shaped(p0, b) && StepOne(p0, b, ss) && ss < 256
    ensures BigFrom(b, ss) <= From(b, ss, ss) <= |p0| && Beginning(b, ss, p0[BigFrom(b, ss)..From(b, ss, ss)])
  {
    hide Start, IsBlock, Keys, Shaped, StepOne, Le, Down;
    Places(b, ss, ss);
    ShapedSize(p0, b);
    var lo, hi := BigFrom(b, ss), From(b, ss, ss);
    var f := p0[lo..hi];
    forall i | 0 <= i < |f| ensures 0 <= f[i] < |b| && Keys(b)[f[i]] < 256 * ss + ss && Down(b, ss, f[i]) {
      KeyBounds(p0, b, lo + i, 256 * ss, 256 * ss + ss);
      assert f[i] == p0[lo + i];
      OneStep(b, ss, f[i]);
    }
    forall i, j | 0 <= i < j < |f| ensures Le(b, f[i], f[j]) && f[i] != f[j] {
      KeyBounds(p0, b, lo + i, 256 * ss, 256 * ss + ss);
      KeyBounds(p0, b, lo + j, 256 * ss, 256 * ss + ss);
      PairOrdered(p0, b, ss, lo + i, lo + j);
    }
  }

  lemma IsEnding(p0: seq<int>, b: seq<int>, ss: nat)
    requires IsBlock(b) && Shaped(p0, b) && StepOne(p0, b, ss) && ss < 256
    ensures 0 <= To(b, ss, ss) <= BigTo(b, ss) <= |p0| && Ending(b, ss, Reversed(p0, To(b, ss, ss), BigTo(b, ss)))
  {
    hide Start, IsBlock, Keys, Shaped, StepOne, Le, Up;
    Places(b, ss, ss);
    ShapedSize(p0, b);
    var lo, hi := To(b, ss, ss), BigTo(b, ss);
    var f := Reversed(p0, lo, hi);
    forall i | 0 <= i < |f| ensures 0 <= f[i] < |b| && Keys(b)[f[i]] > 256 * ss + ss && Up(b, ss, f[i]) {
      KeyBounds(p0, b, hi - 1 - i, 256 * ss + ss + 1, 256 * (ss + 1));
      OneStep(b, ss, f[i]);
    }
    forall i, j | 0 <= i < j < |f| ensures Le(b, f[j], f[i]) && f[i] != f[j] {
      KeyBounds(p0, b, hi - 1 - i, 256 * ss + ss + 1, 256 * (ss + 1));
      KeyBounds(p0, b, hi - 1 - j, 256 * ss + ss + 1, 256 * (ss + 1));
      PairOrdered(p0, b, ss, hi - 1 - j, hi - 1 - i);
    }
  }

  ghost predicate StartsAt(cs: seq<int>, b: seq<int>, ss: nat) {
    |cs| == 256 && forall t: nat :: t < 256 ==> cs[t] == From(b, ss, t)
  }

  ghost predicate EndsAt(ce: seq<int>, b: seq<int>, ss: nat) {
    |ce| == 256 && forall t: nat :: t < 256 ==> ce[t] == To(b, ss, t) - 1
  }

  lemma ForwardStarts(p0: seq<int>, b: seq<int>, ss: nat, done: seq<bool>, cs: seq<int>)
    requires IsBlock(b) && Shaped(p0, b) && StepOne(p0, b, ss) && ss < 256 && |done| == 256 && !done[ss] && StartsAt(cs, b, ss)
    ensures BigFrom(b, ss) <= From(b, ss, ss) <= |p0| && Forward(p0, p0, b, ss, done, cs, p0[BigFrom(b, ss)..From(b, ss, ss)], [])
  {
    hide Start, IsBlock, Shaped, StepOne, Ordered, Distinct, AllDown, Small;
    IsBeginning(p0, b, ss);
    ShapedSize(p0, b);
    var f := p0[BigFrom(b, ss)..From(b, ss, ss)];
    forall t: nat | t < 256 ensures LeftPart(p0, b, ss, done[t], cs[t], [], t) {
      Places(b, ss, t);
      assert p0[From(b, ss, t)..From(b, ss, t)] == [];
    }
    assert f + [] == f;
  }

  /** The end of the big bucket is as it was. */
  lemma EndUntouched(p: seq<int>, p0: seq<int>, b: seq<int>, ss: nat, done: seq<bool>)
    requires IsBlock(b) && Untouched(p, p0, b, ss, done) && ss < 256
    ensures 0 <= To(b, ss, ss) <= BigTo(b, ss) <= |b|
    ensures Reversed(p, To(b, ss, ss), BigTo(b, ss)) == Reversed(p0, To(b, ss, ss), BigTo(b, ss))
  {
    hide Start, IsBlock;
    Places(b, ss, ss);
    Outer(b);
    forall q | To(b, ss, ss) <= q < BigTo(b, ss) ensures p[q] == p0[q] {
      var c := BucketAt(b, q, 256 * (ss + 1));
      if c <= 256 * ss + ss { StartsGrow(b, c + 1, 256 * ss + ss + 1); }
      BetweenKeys(c, ss);
      assert Small(p, b, c) == Small(p0, b, c);
      SmallAt(p, b, c, q);
      SmallAt(p0, b, c, q);
    }
  }

  lemma SmallAt(p: seq<int>, b: seq<int>, c: nat, q: nat)
    requires |p| == |b| && Start(b, c) <= q < Start(b, c + 1)
    ensures q < |p| && Small(p, b, c)[q - Start(b, c)] == p[q]
  {
    StartsGrow(b, c, c + 1);
  }

  lemma BetweenKeys(c: nat, ss: nat)
    requires 256 * ss + ss < c < 256 * (ss + 1) && ss < 256
    ensures c % 256 != ss && c < SMALL_BUCKETS
  {
    assert c / 256 == ss;
  }

  lemma BackwardStarts(p: seq<int>, p0: seq<int>, b: seq<int>, ss: nat, done: seq<bool>, cs: seq<int>, ce: seq<int>, l: seq<int>)
    requires IsBlock(b) && Shaped(p0, b) && StepOne(p0, b, ss) && ss < 256
    requires BigFrom(b, ss) <= From(b, ss, ss) <= |p0| && Forward(p, p0, b, ss, done, cs, p0[BigFrom(b, ss)..From(b, ss, ss)], l)
    requires BigFrom(b, ss) + |l| == cs[ss] && EndsAt(ce, b, ss)
    ensures 0 <= To(b, ss, ss) <= BigTo(b, ss) <= |p0|
    ensures Backward(p, p0, b, ss, done, cs, ce, p0[BigFrom(b, ss)..From(b, ss, ss)], l, Reversed(p0, To(b, ss, ss), BigTo(b, ss)), [])
  {
    hide Start, IsBlock, Shaped, StepOne, OrderedDown, Distinct, AllUp, Small, LeftRegion;
    IsEnding(p0, b, ss);
    EndUntouched(p, p0, b, ss, done);
    var f := Reversed(p0, To(b, ss, ss), BigTo(b, ss));
    Places(b, ss, ss);
    forall t: nat | t < 256 ensures RightPart(p, b, ss, done[t], ce[t], cs[t], [], t) {
      Places(b, ss, t);
      assert LeftPart(p, b, ss, done[t], cs[t], l, t);
    }
    assert f + [] == f;
  }

  // ---------------------------------------------------------------- blocks of a single byte

  lemma NothingDown(b: seq<int>, ss: int, s: int)
    requires OnlyByte(b, ss)
    ensures !Down(b, ss, s) && !Up(b, ss, s)
  {
    if 0 <= s < |b| {
      forall m: nat ensures Sym(b, s, m) == ss { AtOnly(b, ss, s + m); }
    }
  }

  /** All other buckets are empty, and all orders the same. */
  lemma OnlyOrdered(p: seq<int>, b: seq<int>, ss: nat, t: nat)
    requires IsBlock(b) && Shaped(p, b) && OnlyByte(b, ss) && ss < 256 && t < 256
    ensures |p| == |b| && Ordered(Small(p, b, 256 * t + ss), b)
  {
    hide Start, IsBlock, Keys;
    var c := 256 * t + ss;
    var s := Small(p, b, c);
    assert Listing(s, b, c);
    forall i, j | 0 <= i < j < |s| ensures Le(b, s[i], s[j]) {
      assert HasKey(b, s[i], c) && HasKey(b, s[j], c);
      AllEqual(b, ss, s[i], s[j]);
    }
  }

  lemma OnlyStarts(b: seq<int>, ss: nat)
    requires IsBlock(b) && OnlyByte(b, ss) && ss < 256
    ensures From(b, ss, ss) == 0 && To(b, ss, ss) == |b|
  {
    hide IsBlock;
    forall s | 0 <= s < |b| ensures Keys(b)[s] == 256 * ss + ss {}
    Below(Keys(b), |b|, 256 * ss + ss);
    AllBelow(Keys(b), |b|, 256 * ss + ss + 1);
  }

  lemma {:induction false} Below(k: seq<int>, i: nat, c: int)
    requires i <= |k| && forall s :: 0 <= s < |k| ==> k[s] >= c
    ensures Counting.CountLt(k, i, c) == 0
  {
    if i > 0 { Below(k, i - 1, c); }
  }
}
