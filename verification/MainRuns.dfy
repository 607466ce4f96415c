/** Why scanning one big bucket completes small buckets elsewhere (blocksort.c, mainSort, step
    2): rotations in the bucket of the byte ss begin with a run of ss, after which they go down
    or up, and what comes before a rotation inherits its place in the order. */
module MainRuns {
  import opened Rotations
  import opened PrefixOrder
  import opened MainOrder
  import opened MainRadix
  import opened MainBuckets

  /** The rotation at s begins with m times ss. */
  ghost predicate Run(b: seq<int>, ss: int, s: int, m: nat) {
    0 <= s < |b| && forall k :: 0 <= k < m ==> Sym(b, s, k) == ss
  }

  /** After a run of ss comes a smaller byte, or a greater one. */
  ghost predicate Down(b: seq<int>, ss: int, s: int) {
    0 <= s < |b| && exists m: nat :: m >= 1 && Run(b, ss, s, m) && Sym(b, s, m) < ss
  }

  ghost predicate Up(b: seq<int>, ss: int, s: int) {
    0 <= s < |b| && exists m: nat :: m >= 1 && Run(b, ss, s, m) && Sym(b, s, m) > ss
  }

  lemma RunsEqual(b: seq<int>, ss: int, s: nat, t: nat, m: nat)
    requires Run(b, ss, s, m) && Run(b, ss, t, m)
    ensures EqFor(b, s, t, m)
  {
  }

  lemma RunShorter(b: seq<int>, ss: int, s: int, m: nat, k: nat)
    requires Run(b, ss, s, m) && k <= m
    ensures Run(b, ss, s, k) && (k < m ==> Sym(b, s, k) == ss)
  {
  }

  /** Those that go down come before those that go up. */
  lemma DownBeforeUp(b: seq<int>, ss: int, s: int, t: int)
    requires Down(b, ss, s) && Up(b, ss, t)
    ensures Le(b, s, t) && s != t
  {
    hide Sym, Run;
    var m: nat :| m >= 1 && Run(b, ss, s, m) && Sym(b, s, m) < ss;
    var m': nat :| m' >= 1 && Run(b, ss, t, m') && Sym(b, t, m') > ss;
    var k := if m < m' then m else m';
    RunShorter(b, ss, s, m, k);
    RunShorter(b, ss, t, m', k);
    RunsEqual(b, ss, s, t, k);
    LeByByte(b, s, t, k);
  }

  /** One step back around the block. */
  lemma PredSym(b: seq<int>, r: nat, k: nat)
    requires r < |b|
    ensures Sym(b, Pred(|b|, r), k + 1) == Sym(b, r, k) && Sym(b, Pred(|b|, r), 0) == b[Pred(|b|, r)]
  {
  }

  lemma PredRun(b: seq<int>, ss: int, r: nat, m: nat)
    requires Run(b, ss, r, m) && b[Pred(|b|, r)] == ss
    ensures Run(b, ss, Pred(|b|, r), m + 1) && Sym(b, Pred(|b|, r), m + 1) == Sym(b, r, m)
  {
    hide Sym;
    var s := Pred(|b|, r);
    PredSym(b, r, m);
    forall k: nat | k < m + 1 ensures Sym(b, s, k) == ss {
      if k > 0 { PredSym(b, r, k - 1); }
    }
  }

  lemma PredDown(b: seq<int>, ss: int, r: nat)
    requires r < |b| && Down(b, ss, r) && b[Pred(|b|, r)] == ss
    ensures Down(b, ss, Pred(|b|, r))
  {
    hide Sym, Run;
    var m: nat :| m >= 1 && Run(b, ss, r, m) && Sym(b, r, m) < ss;
    PredRun(b, ss, r, m);
  }

  lemma PredUp(b: seq<int>, ss: int, r: nat)
    requires r < |b| && Up(b, ss, r) && b[Pred(|b|, r)] == ss
    ensures Up(b, ss, Pred(|b|, r))
  {
    hide Sym, Run;
    var m: nat :| m >= 1 && Run(b, ss, r, m) && Sym(b, r, m) > ss;
    PredRun(b, ss, r, m);
  }

  /** The order carries over to what comes before, if that is the same byte. */
  lemma LePred(b: seq<int>, r: int, r': int)
    requires Le(b, r, r') && b[Pred(|b|, r)] == b[Pred(|b|, r')]
    ensures Le(b, Pred(|b|, r), Pred(|b|, r'))
  {
    var s, s' := Pred(|b|, r), Pred(|b|, r');
    PredSym(b, r, 0);
    PredSym(b, r', 0);
    assert EqFor(b, s, s', 1);
    LeByShift(b, s, s', 1);
  }

  lemma PredDistinct(n: nat, r: nat, r': nat)
    requires r < n && r' < n && r != r'
    ensures Pred(n, r) != Pred(n, r')
  {
  }

  /** Is every byte ss? */
  ghost predicate OnlyByte(b: seq<int>, ss: int) {
    forall i :: 0 <= i < |b| ==> b[i] == ss
  }

  lemma {:induction false} RunEnds(b: seq<int>, ss: int, s: nat, i: nat, k: nat) returns (m: nat)
    requires s < |b| && i < |b| && b[i] != ss && Run(b, ss, s, k) && k <= |b|
    ensures Run(b, ss, s, m) && Sym(b, s, m) != ss && m >= k
    decreases |b| + 1 - k
  {
    hide Sym;
    if Sym(b, s, k) != ss {
      m := k;
    } else {
      if k == |b| {
        Around(b, s, i);
        assert false;
      }
      m := RunEnds(b, ss, s, i, k + 1);
    }
  }

  /** Every byte is met on the way round. */
  lemma Around(b: seq<int>, s: nat, i: nat)
    requires s < |b| && i < |b|
    ensures exists k :: 0 <= k < |b| && Sym(b, s, k) == b[i]
  {
    var k := if i >= s then i - s else i + |b| - s;
    assert At(b, i) == b[i] && At(b, i + |b|) == At(b, i);
    assert Sym(b, s, k) == b[i];
  }

  /** Unless all bytes are ss, every rotation in the big bucket goes down or up. */
  lemma DownOrUp(b: seq<int>, ss: int, s: nat)
    requires s < |b| && b[s] == ss && !OnlyByte(b, ss)
    ensures Down(b, ss, s) || Up(b, ss, s)
  {
    var i: nat :| i < |b| && b[i] != ss;
    assert Sym(b, s, 0) == ss;
    assert Run(b, ss, s, 1);
    var m := RunEnds(b, ss, s, i, 1);
  }

  /** A longer run becomes one shorter a step further on. */
  lemma SuccRun(b: seq<int>, ss: int, s: nat, m: nat)
    requires Run(b, ss, s, m) && m >= 1
    ensures Run(b, ss, Succ(|b|, s), m - 1) && Sym(b, Succ(|b|, s), m - 1) == Sym(b, s, m)
  {
    hide Sym;
    var r := Succ(|b|, s);
    forall k: nat | k < m - 1 ensures Sym(b, r, k) == ss { PredSym(b, r, k); }
    PredSym(b, r, m - 1);
  }

  /** All rotations of a block of one byte are equal. */
  lemma AllEqual(b: seq<int>, ss: int, s: nat, t: nat)
    requires s < |b| && t < |b| && OnlyByte(b, ss)
    ensures Le(b, s, t)
  {
    forall k: nat | k < |b| ensures Sym(b, s, k) == Sym(b, t, k) {
      AtOnly(b, ss, s + k);
      AtOnly(b, ss, t + k);
    }
    LeByEquality(b, s, t, |b|);
  }

  lemma {:induction false} AtOnly(b: seq<int>, ss: int, i: nat)
    requires |b| > 0 && OnlyByte(b, ss)
    ensures At(b, i) == ss
  {
    if i >= |b| { AtOnly(b, ss, i - |b|); }
  }

  // ---------------------------------------------------------------- what scanning copies

  ghost predicate Rotations0(l: seq<int>, n: nat) { forall i :: 0 <= i < |l| ==> 0 <= l[i] < n }

  /** Of the rotations one step before those of l, the ones that begin with t, in order. */
  ghost function Preds(b: seq<int>, l: seq<int>, t: int): seq<int>
    requires Rotations0(l, |b|)
  {
    if |l| == 0 then []
    else
      var k := Pred(|b|, l[|l| - 1]);
      Preds(b, l[..|l| - 1], t) + if b[k] == t then [k] else []
  }

  lemma PredsSnoc(b: seq<int>, l: seq<int>, r: int, t: int)
    requires Rotations0(l, |b|) && 0 <= r < |b|
    ensures Rotations0(l + [r], |b|)
    ensures Preds(b, l + [r], t) == Preds(b, l, t) + if b[Pred(|b|, r)] == t then [Pred(|b|, r)] else []
  {
    assert (l + [r])[..|l|] == l;
  }

  /** Where an entry came from. */
  lemma {:induction false} PredsFrom(b: seq<int>, l: seq<int>, t: int, i: nat) returns (j: nat)
    requires Rotations0(l, |b|) && i < |Preds(b, l, t)|
    ensures j < |l| && Pred(|b|, l[j]) == Preds(b, l, t)[i] && b[Preds(b, l, t)[i]] == t
  {
    var l0 := l[..|l| - 1];
    if i < |Preds(b, l0, t)| {
      j := PredsFrom(b, l0, t, i);
    } else {
      j := |l| - 1;
    }
  }

  lemma {:induction false} PredsHas(b: seq<int>, l: seq<int>, t: int, j: nat)
    requires Rotations0(l, |b|) && j < |l| && b[Pred(|b|, l[j])] == t
    ensures Pred(|b|, l[j]) in Preds(b, l, t)
  {
    var l0 := l[..|l| - 1];
    if j < |l| - 1 { PredsHas(b, l0, t, j); }
  }

  lemma {:induction false} PredsDistinct(b: seq<int>, l: seq<int>, t: int)
    requires Rotations0(l, |b|) && Distinct(l)
    ensures Distinct(Preds(b, l, t))
  {
    if |l| > 0 {
      var l0 := l[..|l| - 1];
      PredsDistinct(b, l0, t);
      var k := Pred(|b|, l[|l| - 1]);
      forall i | 0 <= i < |Preds(b, l0, t)| ensures Preds(b, l0, t)[i] != k {
        var j := PredsFrom(b, l0, t, i);
        PredDistinct(|b|, l[j], l[|l| - 1]);
      }
    }
  }

  /** Order is kept. */
  lemma {:induction false} PredsOrdered(b: seq<int>, l: seq<int>, t: int)
    requires Rotations0(l, |b|) && Ordered(l, b)
    ensures Ordered(Preds(b, l, t), b)
  {
    hide Le;
    if |l| > 0 {
      var l0 := l[..|l| - 1];
      PredsOrdered(b, l0, t);
      var k := Pred(|b|, l[|l| - 1]);
      if b[k] == t {
        forall i | 0 <= i < |Preds(b, l0, t)| ensures Le(b, Preds(b, l0, t)[i], k) {
          var j := PredsFrom(b, l0, t, i);
          assert Le(b, l[j], l[|l| - 1]);
          LePred(b, l[j], l[|l| - 1]);
        }
      }
    }
  }

  /** The reverse order, for scanning from the other end. */
  ghost predicate OrderedDown(s: seq<int>, b: seq<int>) {
    forall i, j :: 0 <= i < j < |s| ==> Le(b, s[j], s[i])
  }

  lemma {:induction false} PredsOrderedDown(b: seq<int>, l: seq<int>, t: int)
    requires Rotations0(l, |b|) && OrderedDown(l, b)
    ensures OrderedDown(Preds(b, l, t), b)
  {
    hide Le;
    if |l| > 0 {
      var l0 := l[..|l| - 1];
      PredsOrderedDown(b, l0, t);
      var k := Pred(|b|, l[|l| - 1]);
      if b[k] == t {
        forall i | 0 <= i < |Preds(b, l0, t)| ensures Le(b, k, Preds(b, l0, t)[i]) {
          var j := PredsFrom(b, l0, t, i);
          assert Le(b, l[|l| - 1], l[j]);
          LePred(b, l[|l| - 1], l[j]);
        }
      }
    }
  }

  lemma PredsKey(b: seq<int>, l: seq<int>, t: int, ss: int, i: nat)
    requires IsBlock(b) && Rotations0(l, |b|) && i < |Preds(b, l, t)| && forall j :: 0 <= j < |l| ==> b[l[j]] == ss
    ensures HasKey(b, Preds(b, l, t)[i], 256 * t + ss)
  {
    var j := PredsFrom(b, l, t, i);
    var k := Preds(b, l, t)[i];
    assert Succ(|b|, k) == l[j];
  }
}
