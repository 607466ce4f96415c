/** Move-to-front ranks and the coding of zero runs (compress.c, generateMTFValues;
    decompress.c, the RUNA/RUNB loop), as functions on strings. */
module Mtf {

  function ToFront(l: seq<int>, j: nat): (r: seq<int>)
    requires j < |l|
    ensures |r| == |l|
  {
    [l[j]] + l[..j] + l[j + 1..]
  }

  function IndexIn(l: seq<int>, x: int): (j: nat)
    requires x in l
    ensures j < |l| && l[j] == x && x !in l[..j]
  {
    if l[0] == x then 0 else 1 + IndexIn(l[1..], x)
  }

  lemma ToFrontMembers(l: seq<int>, j: nat)
    requires j < |l|
    ensures multiset(ToFront(l, j)) == multiset(l)
  {
    assert l == l[..j] + [l[j]] + l[j + 1..];
  }

  // ---------------------------------------------------------------- ranks

  predicate AllIn(s: seq<int>, l: seq<int>) {
    forall i :: 0 <= i < |s| ==> s[i] in l
  }

  /** The list after the symbols of s have been moved to the front in turn. */
  function ListAfter(l: seq<int>, s: seq<int>): (r: seq<int>)
    requires AllIn(s, l)
    ensures |r| == |l| && multiset(r) == multiset(l)
  {
    if |s| == 0 then l
    else
      var l', x := ListAfter(l, s[..|s| - 1]), s[|s| - 1];
      assert x in multiset(l);
      ToFrontMembers(l', IndexIn(l', x));
      ToFront(l', IndexIn(l', x))
  }

  /** The ranks the encoder computes for s. */
  function RanksOf(l: seq<int>, s: seq<int>): (r: seq<int>)
    requires AllIn(s, l)
    ensures |r| == |s| && forall i :: 0 <= i < |s| ==> 0 <= r[i] < |l|
  {
    if |s| == 0 then []
    else
      var l', x := ListAfter(l, s[..|s| - 1]), s[|s| - 1];
      assert x in multiset(l);
      RanksOf(l, s[..|s| - 1]) + [IndexIn(l', x)]
  }

  ghost predicate RanksWithin(r: seq<int>, n: nat) {
    forall i :: 0 <= i < |r| ==> 0 <= r[i] < n
  }

  /** The list after the decoder has followed the ranks r. */
  function ListOf(l: seq<int>, r: seq<int>): (l': seq<int>)
    requires RanksWithin(r, |l|)
    ensures |l'| == |l|
  {
    if |r| == 0 then l else ToFront(ListOf(l, r[..|r| - 1]), r[|r| - 1])
  }

  /** The symbols the decoder reads off for the ranks r. */
  function SymbolsOf(l: seq<int>, r: seq<int>): (s: seq<int>)
    requires RanksWithin(r, |l|)
    ensures |s| == |r|
  {
    if |r| == 0 then [] else SymbolsOf(l, r[..|r| - 1]) + [ListOf(l, r[..|r| - 1])[r[|r| - 1]]]
  }

  lemma FollowSnoc(l: seq<int>, r: seq<int>, j: int)
    requires RanksWithin(r, |l|) && 0 <= j < |l|
    ensures RanksWithin(r + [j], |l|)
    ensures SymbolsOf(l, r + [j]) == SymbolsOf(l, r) + [ListOf(l, r)[j]]
    ensures ListOf(l, r + [j]) == ToFront(ListOf(l, r), j)
  {
    assert (r + [j])[..|r|] == r;
  }

  lemma RanksSnoc(l: seq<int>, s: seq<int>, x: int)
    requires AllIn(s, l) && x in l
    ensures AllIn(s + [x], l)
    ensures x in ListAfter(l, s)
    ensures var j := IndexIn(ListAfter(l, s), x);
            RanksOf(l, s + [x]) == RanksOf(l, s) + [j] && ListAfter(l, s + [x]) == ToFront(ListAfter(l, s), j)
  {
    assert x in multiset(l);
    assert (s + [x])[..|s|] == s;
  }

  ghost predicate RoundTrips(l: seq<int>, s: seq<int>) {
    && AllIn(s, l) && RanksWithin(RanksOf(l, s), |l|)
    && SymbolsOf(l, RanksOf(l, s)) == s
    && ListOf(l, RanksOf(l, s)) == ListAfter(l, s)
  }

  lemma RoundTripsSnoc(l: seq<int>, s: seq<int>, x: int)
    requires RoundTrips(l, s) && x in l
    ensures RoundTrips(l, s + [x])
  {
    hide RanksOf, ListAfter, SymbolsOf, ListOf, ToFront, IndexIn, AllIn, RanksWithin;
    RanksSnoc(l, s, x);
    FollowSnoc(l, RanksOf(l, s), IndexIn(ListAfter(l, s), x));
  }

  /** Following the ranks of s spells s. */
  lemma {:induction false} RanksRoundTrip(l: seq<int>, s: seq<int>)
    requires AllIn(s, l)
    ensures RoundTrips(l, s)
  {
    if |s| > 0 {
      hide RoundTrips;
      RanksRoundTrip(l, s[..|s| - 1]);
      RoundTripsSnoc(l, s[..|s| - 1], s[|s| - 1]);
      assert s == s[..|s| - 1] + [s[|s| - 1]];
    }
  }

  // ---------------------------------------------------------------- zero runs

  const RUNA := 0
  const RUNB := 1

  /** A run length in bijective base 2, least significant digit first. */
  function Digits(z: nat): (d: seq<int>)
    ensures forall i :: 0 <= i < |d| ==> d[i] == RUNA || d[i] == RUNB
    ensures |d| <= z
  {
    if z == 0 then [] else [(z - 1) % 2] + Digits((z - 1) / 2)
  }

  /** The shortest runs: RUNA stands for one more, RUNB for two more, then for two and four more. */
  lemma ShortRuns()
    ensures Digits(1) == [0] && Digits(2) == [1] && Digits(3) == [0, 0] && Digits(4) == [1, 0]
    ensures Digits(5) == [0, 1] && Digits(6) == [1, 1] && Digits(7) == [0, 0, 0]
  {
  }

  /** The zeros at the end of r, which the encoder has not written out yet. */
  function Trailing(r: seq<int>): (z: nat)
    ensures z <= |r|
  {
    if |r| == 0 || r[|r| - 1] != 0 then 0 else 1 + Trailing(r[..|r| - 1])
  }

  /** The tokens written for r, its trailing zeros apart. */
  function Written(r: seq<int>): seq<int> {
    if |r| == 0 then []
    else if r[|r| - 1] == 0 then Written(r[..|r| - 1])
    else Written(r[..|r| - 1]) + Digits(Trailing(r[..|r| - 1])) + [r[|r| - 1] + 1]
  }

  /** All tokens of a block: the ranks, the last run, the end-of-block token. */
  function Tokens(r: seq<int>, eob: int): seq<int> {
    Written(r) + Digits(Trailing(r)) + [eob]
  }

  /** The decoder part-way: ranks completed, run so far, weight of the next digit. */
  datatype RunState = RunState(ranks: seq<int>, run: nat, weight: nat)

  function Zeros(k: nat): (r: seq<int>)
    ensures |r| == k && forall i :: 0 <= i < k ==> r[i] == 0
  {
    seq(k, _ => 0)
  }

  function Step(st: RunState, t: int): RunState {
    if t == RUNA then RunState(st.ranks, st.run + st.weight, 2 * st.weight)
    else if t == RUNB then RunState(st.ranks, st.run + 2 * st.weight, 2 * st.weight)
    else RunState(st.ranks + Zeros(st.run) + [t - 1], 0, 1)
  }

  function Steps(st: RunState, ts: seq<int>): RunState {
    if |ts| == 0 then st else Step(Steps(st, ts[..|ts| - 1]), ts[|ts| - 1])
  }

  /** The ranks tokens stand for, up to the end-of-block token. */
  function RanksRead(ts: seq<int>): seq<int> {
    var st := Steps(RunState([], 0, 1), ts);
    st.ranks + Zeros(st.run)
  }

  lemma {:induction false} StepsConcat(st: RunState, a: seq<int>, b: seq<int>)
    ensures Steps(st, a + b) == Steps(Steps(st, a), b)
  {
    if |b| == 0 {
      assert a + b == a;
    } else {
      StepsConcat(st, a, b[..|b| - 1]);
      assert (a + b)[..|a + b| - 1] == a + b[..|b| - 1];
    }
  }

  lemma StepsSnoc(st: RunState, a: seq<int>, t: int)
    ensures Steps(st, a + [t]) == Step(Steps(st, a), t)
  {
    assert (a + [t])[..|a|] == a;
  }

  lemma StepsCons(st: RunState, t: int, b: seq<int>)
    ensures Steps(st, [t] + b) == Steps(Step(st, t), b)
  {
    StepsConcat(st, [t], b);
    assert [] + [t] == [t];
    StepsSnoc(st, [], t);
  }

  /** Reading the digits of z adds z, weighted, to the run. */
  lemma {:induction false} DigitsRead(st: RunState, z: nat)
    requires st.weight >= 1
    ensures Steps(st, Digits(z)).ranks == st.ranks
    ensures Steps(st, Digits(z)).run == st.run + st.weight * z
    decreases z
  {
    if z > 0 {
      var d, z' := (z - 1) % 2, (z - 1) / 2;
      StepsCons(st, d, Digits(z'));
      DigitsRead(Step(st, d), z');
      hide Steps, Digits;
      SplitDigit(st.weight, z, d, z');
    }
  }

  lemma SplitDigit(w: int, z: int, d: int, z': int)
    requires z == d + 1 + 2 * z'
    ensures w * z == w * (d + 1) + 2 * w * z'
  {
  }

  lemma {:induction false} TrailingZeros(r: seq<int>)
    ensures r == r[..|r| - Trailing(r)] + Zeros(Trailing(r))
  {
    if |r| > 0 && r[|r| - 1] == 0 {
      var t := r[..|r| - 1];
      TrailingZeros(t);
      assert r == t + [0];
      assert Zeros(Trailing(r)) == Zeros(Trailing(t)) + [0];
    }
  }

  /** A written run and the rank after it. */
  lemma RunThenRank(ranks: seq<int>, z: nat, j: int)
    requires j >= 1
    ensures Steps(RunState(ranks, 0, 1), Digits(z) + [j + 1]) == RunState(ranks + Zeros(z) + [j], 0, 1)
  {
    var st := RunState(ranks, 0, 1);
    DigitsRead(st, z);
    StepsSnoc(st, Digits(z), j + 1);
  }

  lemma WrittenLast(r: seq<int>)
    requires |r| > 0
    ensures var t, j := r[..|r| - 1], r[|r| - 1];
            && Trailing(r) == (if j == 0 then 1 + Trailing(t) else 0)
            && Written(r) == if j == 0 then Written(t) else Written(t) + (Digits(Trailing(t)) + [j + 1])
  {
  }

  lemma NothingRead()
    ensures Written([]) == [] && Trailing([]) == 0
    ensures forall st :: Steps(st, []) == st
  {
  }

  /** After the written tokens the decoder has the ranks so far and no run open. */
  lemma {:induction false} WrittenRead(r: seq<int>)
    requires forall i :: 0 <= i < |r| ==> r[i] >= 0
    ensures Steps(RunState([], 0, 1), Written(r)) == RunState(r[..|r| - Trailing(r)], 0, 1)
  {
    hide Steps, Digits, Written, Trailing;
    if |r| == 0 {
      NothingRead();
      assert r == [];
    } else {
      var t, j := r[..|r| - 1], r[|r| - 1];
      WrittenRead(t);
      WrittenLast(r);
      if j == 0 {
        assert r[..|r| - Trailing(r)] == t[..|t| - Trailing(t)];
      } else {
        var d := Digits(Trailing(t));
        assert r[..|r|] == r == t + [j];
        StepsConcat(RunState([], 0, 1), Written(t), d + [j + 1]);
        RunThenRank(t[..|t| - Trailing(t)], Trailing(t), j);
        TrailingZeros(t);
      }
    }
  }

  /** Zero-run coding is undone by the decoder's accumulation of RUNA and RUNB. */
  lemma TokensRoundTrip(r: seq<int>)
    requires forall i :: 0 <= i < |r| ==> r[i] >= 0
    ensures RanksRead(Written(r) + Digits(Trailing(r))) == r
  {
    var st0 := RunState([], 0, 1);
    WrittenRead(r);
    StepsConcat(st0, Written(r), Digits(Trailing(r)));
    DigitsRead(Steps(st0, Written(r)), Trailing(r));
    TrailingZeros(r);
  }
}
