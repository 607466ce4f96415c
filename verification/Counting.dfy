/** Counting symbols in a string: the arithmetic behind every radix pass and cftab. */
module Counting {

  /** How many of the first i symbols are c. */
  ghost function CountEq(col: seq<int>, i: nat, c: int): nat
    requires i <= |col|
  {
    if i == 0 then 0 else CountEq(col, i - 1, c) + if col[i - 1] == c then 1 else 0
  }

  /** How many of the first i symbols are below c: what cftab holds for c. */
  ghost function CountLt(col: seq<int>, i: nat, c: int): nat
    requires i <= |col|
  {
    if i == 0 then 0 else CountLt(col, i - 1, c) + if col[i - 1] < c then 1 else 0
  }

  lemma {:induction false} CountsStep(col: seq<int>, i: nat, c: int)
    requires i <= |col|
    ensures CountLt(col, i, c) + CountEq(col, i, c) == CountLt(col, i, c + 1) <= i
  {
    if i > 0 { CountsStep(col, i - 1, c); }
  }

  lemma {:induction false} CountLtMonotone(col: seq<int>, i: nat, c: int, d: int)
    requires i <= |col| && c <= d
    ensures CountLt(col, i, c) <= CountLt(col, i, d)
  {
    if i > 0 { CountLtMonotone(col, i - 1, c, d); }
  }

  lemma {:induction false} CountEqGrows(col: seq<int>, i: nat, j: nat, c: int)
    requires i < j <= |col| && col[i] == c
    ensures CountEq(col, i, c) < CountEq(col, j, c)
  {
    if i + 1 == j {
    } else {
      CountEqGrows(col, i, j - 1, c);
    }
  }

  /** A string of bytes. */
  ghost predicate IsColumn(col: seq<int>) {
    forall i :: 0 <= i < |col| ==> 0 <= col[i] < 256
  }

  lemma {:induction false} CountLtEnds(col: seq<int>, i: nat)
    requires IsColumn(col) && i <= |col|
    ensures CountLt(col, i, 0) == 0 && CountLt(col, i, 256) == i
  {
    if i > 0 { CountLtEnds(col, i - 1); }
  }
}
