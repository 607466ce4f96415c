/** Step 2 of mainSort (blocksort.c) as it runs: the two scans of a big bucket, writing into
    the small buckets as they go. */
module MainSweep {
  import opened Rotations
  import opened MainRadix
  import opened MainBuckets
  import opened MainRuns
  import opened MainForward
  import opened MainBackward
  import opened MainScan

  lemma NotOnly(b: seq<int>, ss: int, s: int)
    requires Down(b, ss, s) || Up(b, ss, s)
    ensures !OnlyByte(b, ss)
  {
    if OnlyByte(b, ss) { NothingDown(b, ss, s); }
  }

  lemma ForwardMeets(p: seq<int>, p0: seq<int>, b: seq<int>, ss: nat, done: seq<bool>, cs: seq<int>, f: seq<int>, l: seq<int>)
    requires Forward(p, p0, b, ss, done, cs, f, l)
    ensures |cs| == |done| == 256 && ss < 256 && |p| == |b| && cs[ss] <= |b| && BigFrom(b, ss) + |l| <= cs[ss]
    ensures BigFrom(b, ss) + |l| < cs[ss] ==> !OnlyByte(b, ss)
  {
    hide Start, Untouched, LeftPart, Ordered, Distinct, Preds;
    var g := p[BigFrom(b, ss)..cs[ss]];
    if |g| > 0 {
      assert Down(b, ss, g[0]);
      NotOnly(b, ss, g[0]);
    }
  }

  lemma BackwardMeets(p: seq<int>, p0: seq<int>, b: seq<int>, ss: nat, done: seq<bool>, cs: seq<int>, ce: seq<int>,
                      f: seq<int>, l: seq<int>, f': seq<int>, m: seq<int>)
    requires Backward(p, p0, b, ss, done, cs, ce, f, l, f', m)
    ensures |ce| == |done| == 256 && ss < 256 && |p| == |b| && BigTo(b, ss) <= |b| && BigTo(b, ss) - 1 - |m| >= ce[ss] >= -1
    ensures BigTo(b, ss) - 1 - |m| > ce[ss] ==> !OnlyByte(b, ss)
  {
    hide Start, Untouched, RightPart, LeftPart, OrderedDown, Distinct, Preds, LeftRegion;
    var g := Reversed(p, ce[ss] + 1, BigTo(b, ss));
    if |g| > 0 {
      assert Up(b, ss, g[0]);
      NotOnly(b, ss, g[0]);
    }
  }

  /** The rotation one step before. */
  method Before(r: nat, nblock: nat) returns (k: nat)
    requires r < nblock
    ensures k == Pred(nblock, r)
  {
    var x: int := r - 1;
    if x < 0 { x := x + nblock; }
    k := x;
  }

  method ScanForward(ptr: array<int>, block: array<int>, bigDone: array<bool>, copyStart: array<int>, nblock: nat, ss: nat, start: nat,
                     ghost b: seq<int>, ghost p0: seq<int>, ghost f: seq<int>)
      returns (ghost l: seq<int>)
    requires IsBlock(b) && nblock == |b| <= block.Length && block[..nblock] == b && start == BigFrom(b, ss)
    requires ptr != block && ptr != copyStart && block != copyStart
    requires Beginning(b, ss, f) && Forward(ptr[..], p0, b, ss, bigDone[..], copyStart[..], f, [])
    modifies ptr, copyStart
    ensures Forward(ptr[..], p0, b, ss, bigDone[..], copyStart[..], f, l)
    ensures ss < copyStart.Length && BigFrom(b, ss) + |l| == copyStart[ss]
    ensures OnlyByte(b, ss) ==> ptr[..] == old(ptr[..]) && copyStart[..] == old(copyStart[..])
  {
    hide Forward, Beginning, IsBlock, BigFrom, OnlyByte;
    l := [];
    ForwardMeets(ptr[..], p0, b, ss, bigDone[..], copyStart[..], f, l);
    var j: nat := start;
    while j < copyStart[ss]
      invariant ptr.Length == nblock && copyStart.Length == 256 == bigDone.Length && block[..nblock] == b
      invariant Forward(ptr[..], p0, b, ss, bigDone[..], copyStart[..], f, l)
      invariant j == BigFrom(b, ss) + |l| <= copyStart[ss] <= nblock
      invariant OnlyByte(b, ss) ==> ptr[..] == old(ptr[..]) && copyStart[..] == old(copyStart[..])
      decreases nblock - j
    {
      ghost var p, cs, r := ptr[..], copyStart[..], ptr[j];
      ForwardMeets(p, p0, b, ss, bigDone[..], cs, f, l);
      ForwardSkip(p, p0, b, ss, bigDone[..], cs, f, l);
      var k := Before(ptr[j], nblock);
      assert block[k] == b[k];
      var c1 := block[k];
      if !bigDone[c1] {
        ForwardCopy(p, p0, b, ss, bigDone[..], cs, f, l);
        ptr[copyStart[c1]] := k;
        copyStart[c1] := copyStart[c1] + 1;
        assert ptr[..] == p[cs[c1] := k] && copyStart[..] == cs[c1 := cs[c1] + 1];
      }
      l := l + [r];
      ForwardMeets(ptr[..], p0, b, ss, bigDone[..], copyStart[..], f, l);
      j := j + 1;
    }
  }

  method ScanBackward(ptr: array<int>, block: array<int>, bigDone: array<bool>, copyEnd: array<int>, nblock: nat, ss: nat, start: int,
                      ghost b: seq<int>, ghost p0: seq<int>, ghost cs: seq<int>, ghost f: seq<int>, ghost l: seq<int>, ghost f': seq<int>)
      returns (ghost m: seq<int>)
    requires IsBlock(b) && nblock == |b| <= block.Length && block[..nblock] == b && start == BigTo(b, ss) - 1
    requires ptr != block && ptr != copyEnd && block != copyEnd
    requires Ending(b, ss, f') && Backward(ptr[..], p0, b, ss, bigDone[..], cs, copyEnd[..], f, l, f', [])
    modifies ptr, copyEnd
    ensures Backward(ptr[..], p0, b, ss, bigDone[..], cs, copyEnd[..], f, l, f', m)
    ensures ss < copyEnd.Length && BigTo(b, ss) - 1 - |m| == copyEnd[ss]
    ensures OnlyByte(b, ss) ==> ptr[..] == old(ptr[..]) && copyEnd[..] == old(copyEnd[..])
  {
    hide Backward, Ending, IsBlock, BigTo, OnlyByte;
    m := [];
    BackwardMeets(ptr[..], p0, b, ss, bigDone[..], cs, copyEnd[..], f, l, f', m);
    var j := start;
    while j > copyEnd[ss]
      invariant ptr.Length == nblock && copyEnd.Length == 256 == bigDone.Length && block[..nblock] == b
      invariant Backward(ptr[..], p0, b, ss, bigDone[..], cs, copyEnd[..], f, l, f', m)
      invariant -1 <= copyEnd[ss] <= j == BigTo(b, ss) - 1 - |m| < nblock
      invariant OnlyByte(b, ss) ==> ptr[..] == old(ptr[..]) && copyEnd[..] == old(copyEnd[..])
      decreases j + 1
    {
      ghost var p, ce, r := ptr[..], copyEnd[..], ptr[j];
      BackwardMeets(p, p0, b, ss, bigDone[..], cs, ce, f, l, f', m);
      BackwardSkip(p, p0, b, ss, bigDone[..], cs, ce, f, l, f', m);
      var k := Before(ptr[j], nblock);
      assert block[k] == b[k];
      var c1 := block[k];
      if !bigDone[c1] {
        BackwardCopy(p, p0, b, ss, bigDone[..], cs, ce, f, l, f', m);
        ptr[copyEnd[c1]] := k;
        copyEnd[c1] := copyEnd[c1] - 1;
        assert ptr[..] == p[ce[c1] := k] && copyEnd[..] == ce[c1 := ce[c1] - 1];
      }
      m := m + [r];
      BackwardMeets(ptr[..], p0, b, ss, bigDone[..], cs, copyEnd[..], f, l, f', m);
      j := j - 1;
    }
  }

  // ---------------------------------------------------------------- both scans

  /** What step 2 leaves behind. */
  ghost predicate Swept(p: seq<int>, p0: seq<int>, b: seq<int>, ss: nat, done: seq<bool>) {
    && Shaped(p, b) && Untouched(p, p0, b, ss, done)
    && forall t: nat :: t < 256 && !done[t] ==> Ordered(Small(p, b, KeyOf(t, ss)), b)
  }

  function KeyOf(t: nat, ss: nat): nat { 256 * t + ss }

  lemma SameUntouched(p: seq<int>, b: seq<int>, ss: nat, done: seq<bool>)
    requires |p| == |b| && |done| == 256
    ensures Untouched(p, p, b, ss, done)
  {
  }

  lemma OverSwept(p: seq<int>, p0: seq<int>, b: seq<int>, ss: nat, done: seq<bool>, cs: seq<int>, ce: seq<int>, l: seq<int>, m: seq<int>)
    requires IsBlock(b) && Shaped(p0, b) && Over(p, p0, b, ss, done, cs, ce, l, m) && !OnlyByte(b, ss)
    ensures Swept(p, p0, b, ss, done) && |cs| == |ce| == 256 && ss < 256 && cs[ss] - 1 == ce[ss]
  {
    hide Start, Small, Ordered, Listing, IsBlock, OnlyByte, Over;
    OverSizes(p, p0, b, ss, done, cs, ce, l, m);
    OverUntouched(p, p0, b, ss, done, cs, ce, l, m);
    forall c: nat | c < SMALL_BUCKETS ensures Listing(Small(p, b, c), b, c) {
      assert Listing(Small(p0, b, c), b, c);
      if c % 256 == ss && !done[c / 256] { BucketComplete(p, p0, b, ss, done, cs, ce, l, m, c / 256); }
    }
    forall t: nat | t < 256 && !done[t] ensures Ordered(Small(p, b, KeyOf(t, ss)), b) {
      BucketComplete(p, p0, b, ss, done, cs, ce, l, m, t);
    }
    BucketComplete(p, p0, b, ss, done, cs, ce, l, m, ss);
  }

  lemma OverUntouched(p: seq<int>, p0: seq<int>, b: seq<int>, ss: nat, done: seq<bool>, cs: seq<int>, ce: seq<int>, l: seq<int>, m: seq<int>)
    requires Over(p, p0, b, ss, done, cs, ce, l, m)
    ensures Untouched(p, p0, b, ss, done) && |done| == 256 && ss < 256 && !done[ss]
  {
    hide Start, LeftPart, RightPart, LeftRegion, RightRegion;
  }

  lemma OnlySwept(p: seq<int>, b: seq<int>, ss: nat, done: seq<bool>)
    requires IsBlock(b) && Shaped(p, b) && OnlyByte(b, ss) && ss < 256 && |done| == 256
    ensures Swept(p, p, b, ss, done)
  {
    hide Start, Small, Ordered, Listing, IsBlock, OnlyByte;
    SameUntouched(p, b, ss, done);
    forall t: nat | t < 256 && !done[t] ensures Ordered(Small(p, b, KeyOf(t, ss)), b) { OnlyOrdered(p, b, ss, t); }
  }

  /** Where copying starts, from both ends of the small buckets. */
  method CopyLimits(ftab: array<int>, ss: nat, ghost b: seq<int>, ghost fl: seq<bool>)
      returns (copyStart: array<int>, copyEnd: array<int>)
    requires IsBlock(b) && Flagged(ftab[..], b, fl) && ss < 256
    ensures fresh(copyStart) && fresh(copyEnd) && copyStart != copyEnd
    ensures StartsAt(copyStart[..], b, ss) && EndsAt(copyEnd[..], b, ss)
  {
    hide Start, IsBlock, Flagged, Unmasked;
    copyStart, copyEnd := new int[256], new int[256];
    StartOf(ftab[..], b, fl, 0);
    for j := 0 to 256
      invariant forall t: nat :: t < j ==> copyStart[t] == From(b, ss, t)
      invariant forall t: nat :: t < j ==> copyEnd[t] == To(b, ss, t) - 1
    {
      StartOf(ftab[..], b, fl, 256 * j + ss);
      StartOf(ftab[..], b, fl, 256 * j + ss + 1);
      copyStart[j] := Unmasked(ftab[256 * j + ss]);
      copyEnd[j] := Unmasked(ftab[256 * j + ss + 1]) - 1;
    }
  }

  lemma Limits(b: seq<int>, cs: seq<int>, ce: seq<int>, ss: nat)
    requires IsBlock(b) && OnlyByte(b, ss) && ss < 256 && StartsAt(cs, b, ss) && EndsAt(ce, b, ss)
    ensures cs[ss] == 0 && ce[ss] == |b| - 1
  {
    hide Start, IsBlock;
    OnlyStarts(b, ss);
  }

  /** Step 2: the small buckets that end in ss are put in order.  The assertion is the
      program's own, number 1007. */
  method Sweep(ptr: array<int>, block: array<int>, ftab: array<int>, bigDone: array<bool>, nblock: nat, ss: nat,
               ghost b: seq<int>, ghost fl: seq<bool>)
    requires IsBlock(b) && nblock == |b| <= block.Length && block[..nblock] == b && ptr != block && ptr != ftab
    requires Flagged(ftab[..], b, fl) && Shaped(ptr[..], b) && StepOne(ptr[..], b, ss) && ss < 256
    requires bigDone.Length == 256 && !bigDone[ss]
    modifies ptr
    ensures Swept(ptr[..], old(ptr[..]), b, ss, bigDone[..])
  {
    hide Start, Small, Shaped, StepOne, IsBlock, Flagged, Forward, Backward, Beginning, Ending, OnlyByte, Swept, Unmasked, StartsAt, EndsAt;
    ghost var p0 := ptr[..];
    var copyStart, copyEnd := CopyLimits(ftab, ss, b, fl);
    ghost var cs0, ce0 := copyStart[..], copyEnd[..];
    ShapedSize(p0, b);
    IsBeginning(p0, b, ss);
    IsEnding(p0, b, ss);
    ForwardStarts(p0, b, ss, bigDone[..], copyStart[..]);
    StartOf(ftab[..], b, fl, 256 * ss);
    StartOf(ftab[..], b, fl, 256 * (ss + 1));
    ghost var f, f' := p0[BigFrom(b, ss)..From(b, ss, ss)], Reversed(p0, To(b, ss, ss), BigTo(b, ss));
    ghost var l := ScanForward(ptr, block, bigDone, copyStart, nblock, ss, Unmasked(ftab[256 * ss]), b, p0, f);
    BackwardStarts(ptr[..], p0, b, ss, bigDone[..], copyStart[..], copyEnd[..], l);
    ghost var m := ScanBackward(ptr, block, bigDone, copyEnd, nblock, ss, Unmasked(ftab[256 * (ss + 1)]) - 1, b, p0,
                                copyStart[..], f, l, f');
    Finished(ptr[..], p0, b, ss, bigDone[..], copyStart[..], copyEnd[..], l, m, cs0, ce0);
    assert copyStart[ss] - 1 == copyEnd[ss] || (copyStart[ss] == 0 && copyEnd[ss] == nblock - 1);
  }

  lemma Finished(p: seq<int>, p0: seq<int>, b: seq<int>, ss: nat, done: seq<bool>, cs: seq<int>, ce: seq<int>, l: seq<int>, m: seq<int>,
                 cs0: seq<int>, ce0: seq<int>)
    requires IsBlock(b) && Shaped(p0, b) && ss < 256 && |p0| == |b| && |done| == 256 && ss < |ce|
    requires BigFrom(b, ss) <= From(b, ss, ss) <= |p0| && 0 <= To(b, ss, ss) <= BigTo(b, ss) <= |p0|
    requires Backward(p, p0, b, ss, done, cs, ce, p0[BigFrom(b, ss)..From(b, ss, ss)], l, Reversed(p0, To(b, ss, ss), BigTo(b, ss)), m)
    requires BigTo(b, ss) - 1 - |m| == ce[ss] && StartsAt(cs0, b, ss) && EndsAt(ce0, b, ss)
    requires OnlyByte(b, ss) ==> p == p0 && cs == cs0 && ce == ce0
    ensures Swept(p, p0, b, ss, done) && |cs| == |ce| == 256
    ensures cs[ss] - 1 == ce[ss] || (cs[ss] == 0 && ce[ss] == |b| - 1)
  {
    hide Start, Small, Shaped, IsBlock, Backward, OnlyByte, Swept, StartsAt, EndsAt;
    if OnlyByte(b, ss) {
      OnlySwept(p, b, ss, done);
      Limits(b, cs, ce, ss);
      LimitSizes(cs, ce, b, ss);
    } else {
      Places(b, ss, ss);
      OverSwept(p, p0, b, ss, done, cs, ce, l, m);
    }
  }

  lemma LimitSizes(cs: seq<int>, ce: seq<int>, b: seq<int>, ss: nat)
    requires StartsAt(cs, b, ss) && EndsAt(ce, b, ss)
    ensures |cs| == |ce| == 256
  {
  }
}
