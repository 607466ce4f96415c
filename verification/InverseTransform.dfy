/** Undoing the block sort (decompress.c, "compute the T vector").  The decoder sees only
    the last column and origPtr; the theorem here is that following the stable ranks of
    that column spells the block, whatever order equal rotations were left in. */
module InverseTransform {
  import opened Counting
  import opened Rotations

  /** Where symbol i of the column lands when the column is sorted stably. */
  ghost function Rank(col: seq<int>, i: nat): nat
    requires i < |col|
  {
    CountLt(col, |col|, col[i]) + CountEq(col, i, col[i])
  }

  lemma RankBelowNextSymbol(col: seq<int>, i: nat)
    requires i < |col|
    ensures Rank(col, i) < CountLt(col, |col|, col[i] + 1) <= |col|
  {
    CountEqGrows(col, i, |col|, col[i]);
    CountsStep(col, |col|, col[i]);
  }

  ghost predicate Before(col: seq<int>, i: nat, j: nat)
    requires i < |col| && j < |col|
  {
    col[i] < col[j] || (col[i] == col[j] && i < j)
  }

  /** Ranks order positions by symbol and then by position, and are distinct. */
  lemma RankOrder(col: seq<int>, i: nat, j: nat)
    requires i < |col| && j < |col|
    ensures Rank(col, i) < Rank(col, j) <==> Before(col, i, j)
  {
    if Before(col, i, j) { RankOrderForward(col, i, j); }
    if Before(col, j, i) { RankOrderForward(col, j, i); }
  }

  lemma RankOrderForward(col: seq<int>, i: nat, j: nat)
    requires i < |col| && j < |col| && Before(col, i, j)
    ensures Rank(col, i) < Rank(col, j)
  {
    if col[i] < col[j] {
      RankBelowNextSymbol(col, i);
      CountLtMonotone(col, |col|, col[i] + 1, col[j]);
    } else {
      CountEqGrows(col, i, j, col[i]);
    }
  }

  ghost function Ranks(col: seq<int>): (r: seq<int>)
    ensures |r| == |col| && forall i :: 0 <= i < |col| ==> r[i] == Rank(col, i)
  {
    seq(|col|, i requires 0 <= i < |col| => Rank(col, i))
  }

  lemma RanksPermute(col: seq<int>)
    ensures IsPermutation(Ranks(col), |col|)
  {
    forall i | 0 <= i < |col| ensures 0 <= Ranks(col)[i] < |col| {
      RankBelowNextSymbol(col, i);
    }
    forall i, j | 0 <= i < j < |col| ensures Ranks(col)[i] != Ranks(col)[j] {
      RankOrder(col, i, j);
      RankOrder(col, j, i);
    }
  }

  /** The inverse of the stable ranks: the vector the fast decoder stores in the top
      24 bits of tt. */
  ghost function Link(col: seq<int>, p: nat): (i: nat)
    requires p < |col|
    ensures i < |col| && Rank(col, i) == p
  {
    RanksPermute(col);
    PermutationOnto(Ranks(col), |col|, p);
    assert exists i :: 0 <= i < |col| && Ranks(col)[i] == p;
    var i :| 0 <= i < |col| && Ranks(col)[i] == p;
    i
  }

  lemma LinkOfRank(col: seq<int>, i: nat)
    requires i < |col|
    ensures Rank(col, i) < |col| && Link(col, Rank(col, i)) == i
  {
    RankBelowNextSymbol(col, i);
    var j := Link(col, Rank(col, i));
    RankOrder(col, i, j);
    RankOrder(col, j, i);
  }

  /** What the decoder emits: follow the links from pos, taking a symbol at each step. */
  ghost function Walk(col: seq<int>, pos: nat, k: nat): (r: seq<int>)
    requires pos < |col|
    ensures |r| == k
    decreases k
  {
    if k == 0 then [] else [col[Link(col, pos)]] + Walk(col, Link(col, pos), k - 1)
  }

  /** The symbol the walk comes to after k others. */
  ghost function SymbolAfter(col: seq<int>, pos: nat, k: nat): int
    requires pos < |col|
  {
    Walk(col, pos, k + 1)[k]
  }

  lemma SymbolAfterStep(col: seq<int>, pos: nat, k: nat)
    requires pos < |col|
    ensures SymbolAfter(col, pos, k) == if k == 0 then col[Link(col, pos)] else SymbolAfter(col, Link(col, pos), k - 1)
  {
    hide Link;
  }

  ghost function LastColumn(b: seq<int>, ptr: seq<int>): (col: seq<int>)
    requires IsPermutation(ptr, |b|)
    ensures |col| == |b|
    ensures forall i :: 0 <= i < |b| ==> col[i] == b[Pred(|b|, ptr[i])]
  {
    seq(|b|, i requires 0 <= i < |b| => b[Pred(|b|, ptr[i])])
  }

  /** Row p of the sorted matrix, rebuilt from the last column alone: the rotation that
      starts one step before row Link(p). */
  ghost function Prepended(b: seq<int>, ptr: seq<int>): (q: seq<int>)
    requires IsPermutation(ptr, |b|)
    ensures |q| == |b|
    ensures forall p :: 0 <= p < |b| ==> q[p] == Pred(|b|, ptr[Link(LastColumn(b, ptr), p)])
  {
    var col := LastColumn(b, ptr);
    seq(|b|, p requires 0 <= p < |b| => Pred(|b|, ptr[Link(col, p)]))
  }

  lemma PrependedPermutes(b: seq<int>, ptr: seq<int>)
    requires IsPermutation(ptr, |b|)
    ensures IsPermutation(Prepended(b, ptr), |b|)
  {
    var col, q := LastColumn(b, ptr), Prepended(b, ptr);
    forall i, j | 0 <= i < j < |b| ensures q[i] != q[j] {
      assert Link(col, i) != Link(col, j);
    }
  }

  lemma PrependedPairInOrder(b: seq<int>, ptr: seq<int>, i: nat, j: nat)
    requires SortedRotations(b, ptr)
    requires i < j < |b|
    ensures var q := Prepended(b, ptr);
            0 <= q[i] < |b| && 0 <= q[j] < |b| && LexLe(Rot(b, q[i]), Rot(b, q[j]))
  {
    var n, col, q := |b|, LastColumn(b, ptr), Prepended(b, ptr);
    var li, lj := Link(col, i), Link(col, j);
    RankOrder(col, li, lj);
    RotPred(b, ptr[li]);
    RotPred(b, ptr[lj]);
    if col[li] == col[lj] {
      LexPrefix(Rot(b, ptr[li]), Rot(b, ptr[lj]), n - 1);
      assert Rot(b, q[i])[1..] == Rot(b, ptr[li])[..n - 1];
      assert Rot(b, q[j])[1..] == Rot(b, ptr[lj])[..n - 1];
    }
  }

  ghost function RotationAt(b: seq<int>): int -> seq<int> {
    i => if 0 <= i <= |b| then Rot(b, i) else []
  }

  lemma PrependedSorted(b: seq<int>, ptr: seq<int>)
    requires SortedRotations(b, ptr)
    ensures LexSorted(Map(RotationAt(b), Prepended(b, ptr)), |b|)
  {
    var q := Prepended(b, ptr);
    PrependedPermutes(b, ptr);
    forall i, j | 0 <= i < j < |b| ensures LexLe(Rot(b, q[i]), Rot(b, q[j])) {
      PrependedPairInOrder(b, ptr, i, j);
    }
  }

  /** Prepending the last column to the sorted rows and sorting stably gives the sorted
      rows back, string for string. */
  lemma PrependedRowsAgree(b: seq<int>, ptr: seq<int>, p: nat)
    requires SortedRotations(b, ptr) && p < |b|
    ensures 0 <= Prepended(b, ptr)[p] < |b| && Rot(b, ptr[p]) == Rot(b, Prepended(b, ptr)[p])
  {
    var q := Prepended(b, ptr);
    PrependedPermutes(b, ptr);
    PermutationsAgree(ptr, q, |b|);
    MapMultiset(RotationAt(b), ptr, q);
    PrependedSorted(b, ptr);
    SortedListingUnique(Map(RotationAt(b), ptr), Map(RotationAt(b), q), |b|);
    assert Map(RotationAt(b), ptr)[p] == Rot(b, ptr[p]);
    assert Map(RotationAt(b), q)[p] == Rot(b, q[p]);
  }

  lemma RotTail(b: seq<int>, i: nat)
    requires i < |b|
    ensures |Rot(b, i)| == |b| && Rot(b, Succ(|b|, i)) == Rot(b, i)[1..] + [Rot(b, i)[0]]
  {
    if i + 1 == |b| {
      assert Rot(b, i) == [b[i]] + b[..i];
      assert Rot(b, 0) == b;
      assert b == b[..i] + [b[i]];
    } else {
      assert Rot(b, i) == [b[i]] + (b[i + 1..] + b[..i]);
      assert b[..i + 1] == b[..i] + [b[i]];
    }
  }

  lemma RotSucc(b: seq<int>, i: nat, j: nat)
    requires i < |b| && j < |b|
    requires Rot(b, i) == Rot(b, j)
    ensures Rot(b, Succ(|b|, i)) == Rot(b, Succ(|b|, j))
  {
    hide Rot;
    RotTail(b, i);
    RotTail(b, j);
  }

  /** Row p of the sorted matrix reads the block from place k on. */
  ghost predicate RowReads(b: seq<int>, ptr: seq<int>, p: nat, k: nat) {
    && SortedRotations(b, ptr)
    && p < |b| && k < |b|
    && Rot(b, ptr[p]) == Rot(b, k)
  }

  /** Following one link moves the row one place along the block. */
  lemma LinkAdvances(b: seq<int>, ptr: seq<int>, p: nat, k: nat)
    requires RowReads(b, ptr, p, k)
    ensures var i := Link(LastColumn(b, ptr), p);
            LastColumn(b, ptr)[i] == b[k] && RowReads(b, ptr, i, Succ(|b|, k))
  {
    var n, col := |b|, LastColumn(b, ptr);
    var i := Link(col, p);
    PrependedRowsAgree(b, ptr, p);
    var q := Pred(n, ptr[i]);
    RotSucc(b, q, k);
    assert Succ(n, q) == ptr[i];
    RotPred(b, ptr[i]);
    assert Rot(b, k)[0] == b[k] && Rot(b, q)[0] == b[q];
  }

  lemma WalkStep(col: seq<int>, p: nat, k: nat)
    requires p < |col| && k > 0
    ensures Walk(col, p, k) == [col[Link(col, p)]] + Walk(col, Link(col, p), k - 1)
  {
  }

  lemma WalkEnds(col: seq<int>, p: nat)
    requires p < |col|
    ensures Walk(col, p, 0) == []
  {
  }

  lemma {:induction false} WalkSpells(b: seq<int>, ptr: seq<int>, p: nat, k: nat)
    requires IsPermutation(ptr, |b|) && p < |b| && k <= |b|
    requires k < |b| ==> RowReads(b, ptr, p, k)
    ensures Walk(LastColumn(b, ptr), p, |b| - k) == b[k..]
    decreases |b| - k
  {
    hide RowReads, IsPermutation, Walk, Link, LastColumn;
    if k < |b| {
      var col := LastColumn(b, ptr);
      LinkAdvances(b, ptr, p, k);
      WalkSpells(b, ptr, Link(col, p), k + 1);
      WalkStep(col, p, |b| - k);
      assert b[k..] == [b[k]] + b[k + 1..];
    } else {
      WalkEnds(LastColumn(b, ptr), p);
    }
  }

  /** The inverse transform undoes the block sort, for every block and every sorted
      order of its rotations, periodic blocks included. */
  lemma InverseUndoesSort(b: seq<int>, ptr: seq<int>, origPtr: nat)
    requires SortedRotations(b, ptr)
    requires origPtr < |b| && ptr[origPtr] == 0
    ensures Walk(LastColumn(b, ptr), origPtr, |b|) == b
  {
    assert RowReads(b, ptr, origPtr, 0);
    hide *;
    WalkSpells(b, ptr, origPtr, 0);
    assert b[0..] == b;
  }
}
