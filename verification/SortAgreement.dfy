/** What does not depend on which sorter ran (blocksort.c, BZ2_blockSort): any two sorted
    listings of the rotations have the same last column, but the origin is settled by the block
    only if the block is not a repetition of something shorter. */
module SortAgreement {
  import opened Rotations
  import opened InverseTransform

  /** Place for place, two sorted listings name equal rotations. */
  lemma SameRotations(b: seq<int>, p: seq<int>, q: seq<int>, i: nat)
    requires SortedRotations(b, p) && SortedRotations(b, q) && i < |b|
    ensures 0 <= p[i] < |b| && 0 <= q[i] < |b| && Rot(b, p[i]) == Rot(b, q[i])
  {
    PermutationsAgree(p, q, |b|);
    MapMultiset(RotationAt(b), p, q);
    SortedListingUnique(Map(RotationAt(b), p), Map(RotationAt(b), q), |b|);
    assert Map(RotationAt(b), p)[i] == Rot(b, p[i]);
    assert Map(RotationAt(b), q)[i] == Rot(b, q[i]);
  }

  /** The column that is transmitted is the same whichever sorter ran. */
  lemma SameColumn(b: seq<int>, p: seq<int>, q: seq<int>)
    requires SortedRotations(b, p) && SortedRotations(b, q)
    ensures LastColumn(b, p) == LastColumn(b, q)
  {
    hide LexLe;
    forall i | 0 <= i < |b| ensures LastColumn(b, p)[i] == LastColumn(b, q)[i] {
      SameRotations(b, p, q, i);
      RotPred(b, p[i]);
      RotPred(b, q[i]);
    }
  }

  /** The block, turned by i, is the block again. */
  ghost predicate TurnsInto(b: seq<int>, i: nat) {
    0 < i < |b| && Rot(b, i) == b
  }

  ghost predicate Repeats(b: seq<int>) {
    exists i: nat :: TurnsInto(b, i)
  }

  /** orig is where the listing p names the block itself. */
  ghost predicate Origin(b: seq<int>, p: seq<int>, orig: nat) {
    SortedRotations(b, p) && orig < |b| && p[orig] == 0
  }

  lemma RotZero(b: seq<int>)
    ensures Rot(b, 0) == b
  {
  }

  lemma OneOrigin(b: seq<int>, p: seq<int>, q: seq<int>, x: nat, y: nat)
    requires !Repeats(b) && Origin(b, p, x) && Origin(b, q, y)
    ensures x == y
  {
    hide LexLe, Rot;
    SameRotations(b, p, q, x);
    RotZero(b);
    assert !TurnsInto(b, q[x]);
  }

  lemma Exchanged(b: seq<int>, p: seq<int>, x: nat, y: nat)
    requires SortedRotations(b, p) && x < |b| && y < |b| && x != y
    requires 0 <= p[x] < |b| && 0 <= p[y] < |b| && Rot(b, p[x]) == Rot(b, p[y])
    ensures SortedRotations(b, p[x := p[y]][y := p[x]])
  {
    hide LexLe, Rot;
    var q := p[x := p[y]][y := p[x]];
    forall i | 0 <= i < |b| ensures 0 <= q[i] < |b| && Rot(b, q[i]) == Rot(b, p[i]) {}
    forall i, j | 0 <= i < j < |b| ensures LexLe(Rot(b, q[i]), Rot(b, q[j])) {
      assert LexLe(Rot(b, p[i]), Rot(b, p[j]));
    }
  }

  /** Every sorted listing has the origin where p has it, exactly if the block does not repeat
      itself. */
  lemma OriginSettled(b: seq<int>, p: seq<int>, orig: nat)
    requires Origin(b, p, orig)
    ensures !Repeats(b) <==> forall q, y :: Origin(b, q, y) ==> y == orig
  {
    hide LexLe, Rot;
    if Repeats(b) {
      var i: nat :| TurnsInto(b, i);
      PermutationOnto(p, |b|, i);
      var y: nat :| y < |b| && p[y] == i;
      RotZero(b);
      Exchanged(b, p, orig, y);
      assert Origin(b, p[orig := p[y]][y := p[orig]], y);
    } else {
      forall q, y | Origin(b, q, y) ensures y == orig { OneOrigin(b, q, p, y, orig); }
    }
  }
}
