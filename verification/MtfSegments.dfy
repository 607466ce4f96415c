/** The decoder's move-to-front list (decompress.c): sixteen segments of sixteen entries
    floating in a 4096-byte array, acting as one plain list of 256. */
module MtfSegments {
  import opened Mtf

  class MtfList {
    const mtfa: array<int>
    const mtfbase: array<int>

    /** The segments lie in order, do not overlap, and there is room below the first. */
    ghost predicate Valid()
      reads mtfbase
    {
      && mtfa.Length == 4096 && mtfbase.Length == 16 && mtfa != mtfbase
      && InOrder(mtfbase[..], 1)
    }

    /** The plain list the segments stand for. */
    ghost function List(): (l: seq<int>)
      requires Valid()
      reads mtfa, mtfbase
      ensures |l| == 256
    {
      Gathered(mtfa[..], mtfbase[..])
    }

    constructor ()
      ensures Valid() && fresh(mtfa) && fresh(mtfbase)
      ensures List() == seq(256, i => i)
    {
      mtfa := new int[4096];
      mtfbase := new int[16];
      new;
      var kk := 4095;
      var ii := 15;
      while ii >= 0
        invariant -1 <= ii <= 15 && kk == 3839 + 16 * (ii + 1)
        invariant forall k :: kk < k < 4096 ==> mtfa[k] == k - 3840
        invariant forall s :: ii < s < 16 ==> mtfbase[s] == 3840 + 16 * s
      {
        var jj := 15;
        while jj >= 0
          invariant -1 <= jj <= 15 && kk == 3839 + 16 * ii + jj + 1
          invariant forall k :: kk < k < 4096 ==> mtfa[k] == k - 3840
          invariant forall s :: ii < s < 16 ==> mtfbase[s] == 3840 + 16 * s
        {
          mtfa[kk] := ii * 16 + jj;
          kk := kk - 1;
          jj := jj - 1;
        }
        mtfbase[ii] := kk + 1;
        ii := ii - 1;
      }
    }

    /** The byte a finished run repeats. */
    method Front() returns (uc: int)
      requires Valid()
      ensures uc == List()[0]
    {
      assert Place(mtfbase[..], 0) == mtfbase[0];
      Below(mtfbase[..], 1, 0);
      Above(mtfbase[..], 1, 0);
      uc := mtfa[mtfbase[0]];
    }

    /** uc = MTF(nn): entry nn of the list is fetched and moved to the front. */
    method Fetch(nn: nat) returns (uc: int)
      requires Valid() && nn < 256
      modifies mtfa, mtfbase
      ensures Valid()
      ensures uc == old(List())[nn] && List() == ToFront(old(List()), nn)
    {
      if nn < 16 {
        uc := FetchNear(nn);
      } else {
        uc := FetchFar(nn);
        if mtfbase[0] == 0 { Rebuild(); }
      }
    }

    /** nn within the first segment: "avoid general-case expense". */
    method FetchNear(nn: nat) returns (uc: int)
      requires Valid() && nn < 16
      modifies mtfa
      ensures uc == old(List())[nn] && List() == ToFront(old(List()), nn)
    {
      hide InOrder;
      ghost var a, base := mtfa[..], mtfbase[..];
      PlaceInArray(base, 1, nn);
      PlaceInArray(base, 1, 0);
      var pp := mtfbase[0];
      uc := mtfa[pp + nn];
      var n: nat := nn;
      while n > 3
        invariant n <= nn && mtfbase[..] == base && Slid(a, mtfa[..], pp, nn, n)
      {
        SlideFour(a, pp, nn, n);
        n := n - 4;
      }
      while n > 0
        invariant n <= nn && mtfbase[..] == base && Slid(a, mtfa[..], pp, nn, n)
      {
        mtfa[pp + n] := mtfa[pp + n - 1];
        n := n - 1;
      }
      mtfa[pp] := uc;
      NearDone(a, mtfa[..], base, nn);
    }

    method SlideFour(ghost a: seq<int>, pp: int, ghost nn: nat, n: nat)
      requires Slid(a, mtfa[..], pp, nn, n) && n > 3
      modifies mtfa
      ensures Slid(a, mtfa[..], pp, nn, n - 4)
    {
      var z := pp + n;
      mtfa[z] := mtfa[z - 1];
      mtfa[z - 1] := mtfa[z - 2];
      mtfa[z - 2] := mtfa[z - 3];
      mtfa[z - 3] := mtfa[z - 4];
    }

    /** nn beyond the first segment: segment lno closes up over the entry, and each earlier
        segment moves down one place, taking over the last entry of the one before it. */
    method FetchFar(nn: nat) returns (uc: int)
      requires Valid() && 16 <= nn < 256
      modifies mtfa, mtfbase
      ensures mtfa.Length == 4096 && InOrder(mtfbase[..], 0)
      ensures uc == old(List())[nn] && Gathered(mtfa[..], mtfbase[..]) == ToFront(old(List()), nn)
    {
      hide InOrder, Pulling, Slid, Gathered, ToFront;
      ghost var a, base := mtfa[..], mtfbase[..];
      var lno, off := nn / 16, nn % 16;
      ghost var lno0 := lno;
      PlaceInArray(base, 1, nn);
      PlaceInArray(base, 1, 16 * lno);
      var pp := mtfbase[lno] + off;
      uc := mtfa[pp];
      SlidNone(a, base[lno], off);
      while pp > mtfbase[lno]
        invariant base[lno] <= pp <= base[lno] + off && mtfbase[..] == base
        invariant Slid(a, mtfa[..], base[lno], off, pp - base[lno])
      {
        SlidStep(a, mtfa[..], base[lno], off, pp - base[lno]);
        ghost var a1 := mtfa[..];
        mtfa[pp] := mtfa[pp - 1];
        assert mtfa[..] == a1[pp := a1[pp - 1]];
        pp := pp - 1;
      }
      PullStart(a, mtfa[..], base, nn);
      mtfbase[lno] := mtfbase[lno] + 1;
      while lno > 0
        invariant 0 <= lno <= lno0 && mtfbase[..] == Bases(base, lno0, lno)
        invariant Pulling(a, base, mtfa[..], nn, lno)
      {
        BasesStep(base, lno0, lno);
        PullStep(a, base, mtfa[..], nn, lno);
        ghost var a1, b1 := mtfa[..], mtfbase[..];
        mtfbase[lno] := mtfbase[lno] - 1;
        assert mtfbase[..] == b1[lno := b1[lno] - 1];
        mtfa[mtfbase[lno]] := mtfa[mtfbase[lno - 1] + 15];
        assert mtfa[..] == a1[b1[lno] - 1 := a1[b1[lno - 1] + 15]];
        lno := lno - 1;
      }
      BasesEnd(base, lno0);
      PullEnd(a, base, mtfa[..], nn);
      ghost var a1, b1 := mtfa[..], mtfbase[..];
      mtfbase[0] := mtfbase[0] - 1;
      assert mtfbase[..] == b1[0 := b1[0] - 1];
      mtfa[mtfbase[0]] := uc;
      assert mtfa[..] == a1[b1[0] - 1 := uc];
    }

    /** The segments have reached the bottom: pack them again at the top of the array. */
    method Rebuild()
      requires mtfa.Length == 4096 && mtfbase.Length == 16 && mtfa != mtfbase && InOrder(mtfbase[..], 0)
      modifies mtfa, mtfbase
      ensures Valid() && List() == old(Gathered(mtfa[..], mtfbase[..]))
    {
      hide InOrder;
      ghost var a, base := mtfa[..], mtfbase[..];
      ghost var l := Gathered(a, base);
      PackStart(a, base);
      var kk := 4095;
      var ii := 15;
      while ii >= 0
        invariant -1 <= ii <= 15 && kk == 3839 + 16 * (ii + 1)
        invariant Packing(mtfa[..], base, l, 16 * (ii + 1))
        invariant forall s :: 0 <= s <= ii ==> mtfbase[s] == base[s]
        invariant forall s :: ii < s < 16 ==> mtfbase[s] == 3840 + 16 * s
      {
        var jj := 15;
        while jj >= 0
          invariant -1 <= jj <= 15 && kk == 3839 + 16 * ii + jj + 1
          invariant Packing(mtfa[..], base, l, 16 * ii + jj + 1)
          invariant forall s :: 0 <= s <= ii ==> mtfbase[s] == base[s]
          invariant forall s :: ii < s < 16 ==> mtfbase[s] == 3840 + 16 * s
        {
          PackStep(mtfa[..], base, l, 16 * ii + jj);
          ghost var a1 := mtfa[..];
          mtfa[kk] := mtfa[mtfbase[ii] + jj];
          assert mtfa[..] == a1[kk := a1[base[ii] + jj]];
          kk := kk - 1;
          jj := jj - 1;
        }
        mtfbase[ii] := kk + 1;
        ii := ii - 1;
      }
      PackEnd(mtfa[..], base, l, mtfbase[..]);
    }
  }

  /** Segment bases at least 16 apart, the first not below floor. */
  ghost predicate InOrder(base: seq<int>, floor: int) {
    && |base| == 16 && floor <= base[0] && base[15] + 16 <= 4096
    && (forall s :: 0 <= s < 15 ==> base[s] + 16 <= base[s + 1])
  }

  lemma {:induction false} Apart(base: seq<int>, floor: int, s: nat, t: nat)
    requires InOrder(base, floor) && s <= t < 16
    ensures base[s] + 16 * (t - s) <= base[t]
    ensures floor + 16 * s <= base[s] <= 4096 - 16 * (16 - s)
    decreases t - s
  {
    if s < t { Apart(base, floor, s, t - 1); }
    Below(base, floor, s);
    Above(base, floor, s);
  }

  lemma {:induction false} Below(base: seq<int>, floor: int, s: nat)
    requires InOrder(base, floor) && s < 16
    ensures floor + 16 * s <= base[s]
  {
    if s > 0 { Below(base, floor, s - 1); }
  }

  lemma {:induction false} Above(base: seq<int>, floor: int, s: nat)
    requires InOrder(base, floor) && s < 16
    ensures base[s] <= 4096 - 16 * (16 - s)
    decreases 16 - s
  {
    if s < 15 { Above(base, floor, s + 1); }
  }

  ghost function Place(base: seq<int>, i: nat): int
    requires |base| == 16 && i < 256
  {
    base[i / 16] + i % 16
  }

  lemma PlaceInArray(base: seq<int>, floor: int, i: nat)
    requires InOrder(base, floor) && floor >= 0 && i < 256
    ensures 0 <= Place(base, i) < 4096
  {
    Apart(base, floor, i / 16, 15);
  }

  lemma PlacesAscend(base: seq<int>, floor: int, i: nat, j: nat)
    requires InOrder(base, floor) && i < j < 256
    ensures Place(base, i) < Place(base, j)
  {
    Apart(base, floor, i / 16, j / 16);
  }

  ghost function Gathered(a: seq<int>, base: seq<int>): (l: seq<int>)
    requires |a| == 4096 && InOrder(base, 0)
    ensures |l| == 256 && forall i :: 0 <= i < 256 ==> 0 <= Place(base, i) < 4096 && l[i] == a[Place(base, i)]
  {
    assert forall i: nat :: i < 256 ==> 0 <= Place(base, i) < 4096 by {
      forall i: nat | i < 256 ensures 0 <= Place(base, i) < 4096 { PlaceInArray(base, 0, i); }
    }
    seq(256, i requires 0 <= i < 256 => a[Place(base, i)])
  }

  // ---------------------------------------------------------------- within one segment

  /** The entries pp+n+1..pp+nn have slid up one place; the rest are as they were. */
  ghost predicate Slid(a: seq<int>, a': seq<int>, pp: int, nn: nat, n: nat) {
    && |a| == |a'| == 4096 && 0 <= pp && pp + nn < 4096 && n <= nn
    && (forall x :: pp + n < x <= pp + nn ==> a'[x] == a[x - 1])
    && (forall x :: 0 <= x < 4096 && !(pp + n < x <= pp + nn) ==> a'[x] == a[x])
  }

  lemma SlidNone(a: seq<int>, pp: int, nn: nat)
    requires |a| == 4096 && 0 <= pp && pp + nn < 4096
    ensures Slid(a, a, pp, nn, nn)
  {
  }

  lemma SlidStep(a: seq<int>, a': seq<int>, pp: int, nn: nat, n: nat)
    requires Slid(a, a', pp, nn, n) && n > 0
    ensures Slid(a, a'[pp + n := a'[pp + n - 1]], pp, nn, n - 1)
  {
  }

  lemma NearDone(a: seq<int>, a': seq<int>, base: seq<int>, nn: nat)
    requires |a| == 4096 && InOrder(base, 1) && nn < 16 && base[0] + nn < 4096
    requires |a'| == 4096 && Slid(a, a'[base[0] := a[base[0]]], base[0], nn, 0) && a'[base[0]] == a[base[0] + nn]
    ensures InOrder(base, 0)
    ensures Gathered(a', base) == ToFront(Gathered(a, base), nn)
  {
    var l, l', m := Gathered(a, base), Gathered(a', base), a'[base[0] := a[base[0]]];
    forall i: nat | i < 256 ensures l'[i] == ToFront(l, nn)[i] {
      if i == 0 {
        assert l'[0] == a'[base[0]] && l[nn] == a[base[0] + nn];
      } else if i <= nn {
        assert m[base[0] + i] == a[base[0] + i - 1];
        assert l[i - 1] == a[base[0] + i - 1];
      } else {
        PlacesAscend(base, 1, nn, i);
        assert m[Place(base, i)] == a[Place(base, i)];
      }
    }
  }

  // ---------------------------------------------------------------- across segments

  /** The bases while the loop over lno stands at t, having begun at lno0. */
  ghost function Bases(base: seq<int>, lno0: nat, t: nat): (b: seq<int>)
    requires |base| == 16
    ensures |b| == 16
  {
    seq(16, s requires 0 <= s < 16 =>
      if s == lno0 then (if t == lno0 then base[s] + 1 else base[s])
      else if t < s < lno0 then base[s] - 1 else base[s])
  }

  /** The bases afterwards: every segment before lno0 one place lower. */
  ghost function Dropped(base: seq<int>, lno0: nat): (b: seq<int>)
    requires |base| == 16
    ensures |b| == 16 && forall s :: 0 <= s < 16 ==> b[s] == if s < lno0 then base[s] - 1 else base[s]
  {
    seq(16, s requires 0 <= s < 16 => if s < lno0 then base[s] - 1 else base[s])
  }

  lemma BasesStep(base: seq<int>, lno0: nat, t: nat)
    requires |base| == 16 && 0 < t <= lno0 < 16
    ensures var b := Bases(base, lno0, t);
            && b[t] - 1 == Dropped(base, lno0)[t] && b[t - 1] == base[t - 1]
            && b[t := b[t] - 1] == Bases(base, lno0, t - 1)
  {
  }

  lemma BasesEnd(base: seq<int>, lno0: nat)
    requires |base| == 16 && 0 < lno0 < 16
    ensures var b := Bases(base, lno0, 0);
            b[0] - 1 == Dropped(base, lno0)[0] && b[0 := b[0] - 1] == Dropped(base, lno0)
  {
    var b := Bases(base, lno0, 0);
    assert forall s :: 0 <= s < 16 ==> b[0 := b[0] - 1][s] == Dropped(base, lno0)[s];
  }

  lemma DroppedInOrder(base: seq<int>, lno0: nat)
    requires InOrder(base, 1)
    ensures InOrder(Dropped(base, lno0), 0) && InOrder(base, 0)
  {
  }

  /** Above the first entry of segment t everything is in its final place; below the old base
      of segment t nothing has been touched. */
  ghost predicate Pulling(a0: seq<int>, base: seq<int>, a: seq<int>, nn: nat, t: nat) {
    && InOrder(base, 1) && InOrder(base, 0) && |base| == 16 && |a0| == |a| == 4096 && 16 <= nn < 256 && t <= nn / 16
    && (forall x :: 0 <= x < base[t] && x < 4096 ==> a[x] == a0[x])
    && (forall i: nat :: 16 * t + 1 <= i < 256 ==>
          && 0 <= Place(Dropped(base, nn / 16), i) < 4096
          && a[Place(Dropped(base, nn / 16), i)] == ToFront(Gathered(a0, base), nn)[i])
  }

  lemma PullStart(a0: seq<int>, a: seq<int>, base: seq<int>, nn: nat)
    requires |a0| == 4096 && |base| == 16 && InOrder(base, 1) && 16 <= nn < 256
    requires Slid(a0, a, base[nn / 16], nn % 16, 0)
    ensures Pulling(a0, base, a, nn, nn / 16)
  {
    hide InOrder, ToFront;
    var t, b := nn / 16, Dropped(base, nn / 16);
    DroppedInOrder(base, t);
    var l := Gathered(a0, base);
    forall i: nat | 16 * t + 1 <= i < 256
      ensures 0 <= Place(b, i) < 4096 && a[Place(b, i)] == ToFront(l, nn)[i]
    {
      ToFrontAt(l, nn, i);
      PlaceInArray(b, 0, i);
      assert Place(b, i) == Place(base, i);
      PlacesAscend(base, 1, 16 * t, i);
      if i > nn { PlacesAscend(base, 1, nn, i); }
      if i <= nn { assert Place(base, i - 1) == Place(base, i) - 1; }
    }
  }

  lemma PullStep(a0: seq<int>, base: seq<int>, a: seq<int>, nn: nat, t: nat)
    requires Pulling(a0, base, a, nn, t) && 0 < t
    ensures var b := Dropped(base, nn / 16);
            && 0 <= b[t] < 4096 && 0 <= base[t - 1] + 15 < 4096
            && Pulling(a0, base, a[b[t] := a[base[t - 1] + 15]], nn, t - 1)
  {
    hide InOrder;
    var b, l := Dropped(base, nn / 16), Gathered(a0, base);
    DroppedInOrder(base, nn / 16);
    PlaceInArray(b, 0, 16 * t);
    PlaceInArray(base, 0, 16 * t - 1);
    assert Place(base, 16 * t - 1) == base[t - 1] + 15;
    assert Place(b, 16 * t) == b[t];
    var a1 := a[b[t] := a[base[t - 1] + 15]];
    forall i: nat | 16 * (t - 1) + 1 <= i < 256
      ensures 0 <= Place(b, i) < 4096 && a1[Place(b, i)] == ToFront(l, nn)[i]
    {
      PlaceInArray(b, 0, i);
      PullEntry(a0, base, a, nn, t, i);
    }
  }

  lemma ToFrontAt(l: seq<int>, j: nat, i: nat)
    requires j < |l| && i < |l|
    ensures ToFront(l, j)[i] == if i == 0 then l[j] else if i <= j then l[i - 1] else l[i]
  {
  }

  /** Within a lowered segment the entries keep their places and change their numbers. */
  lemma LoweredPlace(base: seq<int>, lno0: nat, t: nat, i: nat)
    requires InOrder(base, 1) && 0 < t <= lno0 < 16 && 16 * (t - 1) < i < 16 * t
    ensures Place(Dropped(base, lno0), i) == Place(base, i - 1) < base[t]
    ensures Place(Dropped(base, lno0), i) < Dropped(base, lno0)[t]
  {
    assert i / 16 == t - 1 && (i - 1) / 16 == t - 1;
  }

  lemma PullEntry(a0: seq<int>, base: seq<int>, a: seq<int>, nn: nat, t: nat, i: nat)
    requires Pulling(a0, base, a, nn, t) && 0 < t && 16 * (t - 1) + 1 <= i < 256
    requires var b := Dropped(base, nn / 16);
             0 <= b[t] < 4096 && 0 <= Place(b, i) < 4096 && 0 <= base[t - 1] + 15 < 4096
    ensures var b := Dropped(base, nn / 16);
            a[b[t] := a[base[t - 1] + 15]][Place(b, i)] == ToFront(Gathered(a0, base), nn)[i]
  {
    hide ToFront;
    var b, l := Dropped(base, nn / 16), Gathered(a0, base);
    ToFrontAt(l, nn, i);
    if i > 16 * t {
      DroppedInOrder(base, nn / 16);
      PlacesAscend(b, 0, 16 * t, i);
    } else if i == 16 * t {
      Apart(base, 1, t - 1, t);
      assert Place(base, i - 1) == base[t - 1] + 15;
    } else {
      hide InOrder;
      LoweredPlace(base, nn / 16, t, i);
    }
  }

  lemma PullEnd(a0: seq<int>, base: seq<int>, a: seq<int>, nn: nat)
    requires Pulling(a0, base, a, nn, 0)
    ensures var b, l := Dropped(base, nn / 16), Gathered(a0, base);
            && InOrder(b, 0) && 0 <= b[0] < 4096
            && Gathered(a[b[0] := l[nn]], b) == ToFront(l, nn)
  {
    var b, l := Dropped(base, nn / 16), Gathered(a0, base);
    DroppedInOrder(base, nn / 16);
    PlaceInArray(b, 0, 0);
    assert Place(b, 0) == b[0];
    var a1 := a[b[0] := l[nn]];
    forall i: nat | i < 256 ensures Gathered(a1, b)[i] == ToFront(l, nn)[i] {
      if i > 0 { PlacesAscend(b, 0, 0, i); }
    }
  }

  // ---------------------------------------------------------------- rebuilding

  /** Entries i.. have been packed at the top of the array; the rest are unread. */
  ghost predicate Packing(a: seq<int>, base: seq<int>, l: seq<int>, i: nat) {
    && |a| == 4096 && InOrder(base, 0) && |l| == 256 && i <= 256
    && (forall k :: i <= k < 256 ==> a[3840 + k] == l[k])
    && (forall k: nat :: k < i ==> 0 <= Place(base, k) < 4096 && a[Place(base, k)] == l[k])
  }

  lemma PackStart(a: seq<int>, base: seq<int>)
    requires |a| == 4096 && InOrder(base, 0)
    ensures Packing(a, base, Gathered(a, base), 256)
  {
  }

  lemma PackStep(a: seq<int>, base: seq<int>, l: seq<int>, i: nat)
    requires Packing(a, base, l, i + 1)
    ensures |base| == 16 && 0 <= base[i / 16] + i % 16 < 4096
    ensures Packing(a[3840 + i := a[base[i / 16] + i % 16]], base, l, i)
  {
    assert Place(base, i) == base[i / 16] + i % 16;
    Above(base, 0, i / 16);
    assert Place(base, i) <= 3840 + i;
    var a1 := a[3840 + i := a[Place(base, i)]];
    forall k: nat | k < i ensures a1[Place(base, k)] == l[k] {
      PlacesAscend(base, 0, k, i);
    }
  }

  lemma PackEnd(a: seq<int>, base: seq<int>, l: seq<int>, base': seq<int>)
    requires Packing(a, base, l, 0) && |base'| == 16
    requires forall s :: 0 <= s < 16 ==> base'[s] == 3840 + 16 * s
    ensures InOrder(base', 1) && InOrder(base', 0) && Gathered(a, base') == l
  {
    forall i: nat | i < 256 ensures Gathered(a, base')[i] == l[i] {
      assert Place(base', i) == 3840 + i;
    }
  }
}
