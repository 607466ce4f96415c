/** inflate_table (inftrees.c): either it refuses the code lengths, exactly when they are not a
    usable code, or looking up any bits gives what canonical decoding gives. */
module InflateTables {
  import opened Bits
  import opened LsbBits
  import opened Counting
  import opened RunLength
  import opened HuffmanCodes
  import opened InverseTransform
  import opened InflateCodes
  import opened InflateEntries
  import opened InflateSettled
  import opened InflateCounts
  import opened InflateSteps

  const ENOUGH_LENS := 852
  const ENOUGH_DISTS := 592

  /** The space each kind of table may take; code length codes have at most seven bits. */
  function Enough(kind: Kind): nat {
    match kind
    case Codes => 128
    case Lens => ENOUGH_LENS
    case Dists => ENOUGH_DISTS
  }

  function PrefixOf(c: seq<bool>, root: nat): seq<bool> { if root < |c| then c[..root] else [] }

  /** Before symbol i is entered: all before it are in place, and there is a table for it. */
  ghost predicate Turn(t: seq<Entry>, root: nat, kind: Kind, u: seq<int>, i: nat, huff: nat, len: nat,
                       next: nat, curr: nat, drop: nat, low: int)
    requires Symbols(u, kind)
  {
    && Entered(t, root, kind, u, i, len, next, curr, drop, low, Rank0(u, i))
    && huff == LsbVal(CodeBits(u, i))
  }

  ghost function Rank0(u: seq<int>, i: nat): nat { if i < |u| then Rank(u, i) else 0 }

  /** The first k symbols are in place; the current table is that for symbol i. */
  ghost predicate Entered(t: seq<Entry>, root: nat, kind: Kind, u: seq<int>, i: nat, len: nat,
                          next: nat, curr: nat, drop: nat, low: int, k: nat)
    requires Symbols(u, kind)
  {
    && i < |u| && u[i] == len <= MAXBITS
    && var c := CodeBits(u, i);
       && Placing(t, root, c, next, curr, drop)
       && low == (if len > root then LsbVal(c[..root]) else -1)
       && (len > root ==> Covers(u, root, c[..root], curr))
       && AllSettled(t, root, kind, u, k, next, curr, PrefixOf(c, root))
  }

  /** The code of symbol i is entered. */
  method EnterCode(table: array<Entry>, start: nat, kind: Kind, ghost u: seq<int>, i: nat, ghost root: nat, huff: nat, len: nat,
                   next: nat, curr: nat, drop: nat, ghost low: int)
    requires Symbols(u, kind) && start <= table.Length
    requires Turn(table[start..], root, kind, u, i, huff, len, next, curr, drop, low)
    modifies table
    ensures table[..start] == old(table[..start])
    ensures Entered(table[start..], root, kind, u, i, len, next, curr, drop, low, Rank0(u, i) + 1)
  {
    hide Fits, CodeBits, EntryOf, LsbVal, Pow2, AllSettled, Replicated, Covers, Rank;
    ghost var c, t := CodeBits(u, i), table[start..];
    LsbSplit(c, drop);
    LsbBound(c[drop..]);
    Replicate(table, start, next, curr, len - drop, Pow2(len - drop), huff / Pow2(drop), EntryOf(kind, i, len - drop));
    EnterSymbol(table[start..], t, root, kind, u, i, next, curr, drop);
    if len > root { LinkStays(table[start..], t, next, curr, len - drop, LsbVal(c[drop..]), EntryOf(kind, i, len - drop), root, c); }
    KeptLength(table[start..], t, next, curr, len - drop, LsbVal(c[drop..]), EntryOf(kind, i, len - drop));
  }

  lemma KeptLength(t': seq<Entry>, t: seq<Entry>, off: nat, k: nat, n: nat, h: nat, here: Entry)
    requires Replicated(t', t, off, k, n, h, here)
    ensures |t'| == |t|
  {
  }

  /** The next symbol goes into the same table. */
  lemma SameTable(t: seq<Entry>, root: nat, kind: Kind, u: seq<int>, i: nat, j: nat, next: nat, curr: nat, drop: nat, low: int)
    requires Symbols(u, kind) && j < |u| && i < |u| && Rank(u, j) == Rank(u, i) + 1 && u[i] <= u[j] <= MAXBITS
    requires Entered(t, root, kind, u, i, u[i], next, curr, drop, low, Rank(u, j))
    requires u[j] > root ==> LsbVal(CodeBits(u, j)[..root]) == low
    ensures Entered(t, root, kind, u, j, u[j], next, curr, drop, low, Rank(u, j))
  {
    hide Fits, CodeBits, LsbVal, Pow2, AllSettled, Rank;
    if u[j] > root {
      LsbInjective(CodeBits(u, j)[..root], CodeBits(u, i)[..root]);
    }
  }

  /** A new sub-table is put in the place of the bits curr, below the entries used. */
  lemma TableStarted(t: seq<Entry>, root: nat, kind: Kind, u: seq<int>, i: nat, j: nat, next: nat, curr: nat, drop: nat, low: int, curr': nat)
    requires Symbols(u, kind) && j < |u| && i < |u| && Rank(u, j) == Rank(u, i) + 1 && u[i] <= u[j] <= MAXBITS && root < u[j]
    requires Entered(t, root, kind, u, i, u[i], next, curr, drop, low, Rank(u, j))
    requires LsbVal(CodeBits(u, j)[..root]) != low
    requires 0 < curr' < 16 && u[j] - root <= curr' && next + Pow2(curr) + Pow2(curr') <= |t|
    requires Covers(u, root, CodeBits(u, j)[..root], curr')
    ensures LsbVal(CodeBits(u, j)[..root]) < Pow2(root) <= |t|
    ensures Entered(t[LsbVal(CodeBits(u, j)[..root]) := Entry(curr', root, next + Pow2(curr))], root, kind, u, j, u[j],
                    next + Pow2(curr), curr', root, LsbVal(CodeBits(u, j)[..root]), Rank(u, j))
  {
    hide Fits, CodeBits, LsbVal, Pow2, AllSettled, Rank, Covers;
    var c := CodeBits(u, j);
    LsbBound(c[..root]);
    StartTable(t, root, kind, u, i, j, next, curr, PrefixOf(CodeBits(u, i), root), curr');
  }

  // ---------------------------------------------------------------- the space needed

  /** The symbol at rank r needs a sub-table, and the one before it did not need the same. */
  ghost predicate NewTable(u: seq<int>, kind: Kind, root: nat, r: nat)
    requires Symbols(u, kind) && r < Coded(u) <= |u|
  {
    var j := Link(u, r);
    u[j] > root && (r == 0 || u[Link(u, r - 1)] <= root || CodeBits(u, Link(u, r - 1))[..root] != CodeBits(u, j)[..root])
  }

  /** The size of that table. */
  ghost function TableSize(u: seq<int>, kind: Kind, root: nat, r: nat): nat
    requires Symbols(u, kind) && r < Coded(u) <= |u| && NewTable(u, kind, root, r)
  {
    var j := Link(u, r);
    Pow2(SubBits(u, Prefix(u, j, root), root, u[j] - root))
  }

  /** The space for the root table and the sub-tables of the first r symbols, in the order of
      their codes. */
  ghost function SpaceUpTo(u: seq<int>, kind: Kind, root: nat, r: nat): (s: nat)
    requires Symbols(u, kind) && r <= Coded(u) <= |u|
    ensures s >= Pow2(root)
  {
    if r == 0 then Pow2(root)
    else SpaceUpTo(u, kind, root, r - 1) + if NewTable(u, kind, root, r - 1) then TableSize(u, kind, root, r - 1) else 0
  }

  lemma CodedSize(u: seq<int>)
    ensures Coded(u) <= |u|
  {
    hide CountEq, CountLt;
    CountsStep(u, |u|, MAXBITS);
    CountsStep(u, |u|, MAXBITS + 1);
  }

  /** All tables for these code lengths. */
  ghost function Space(lens: seq<nat>, kind: Kind, root: nat): nat
    requires CodeLengths(lens) && Symbols(Used(lens), kind)
  {
    CodedSize(Used(lens));
    SpaceUpTo(Used(lens), kind, root, Coded(Used(lens)))
  }

  lemma SpaceStep(u: seq<int>, kind: Kind, root: nat, r: nat)
    requires Symbols(u, kind) && r < Coded(u) <= |u|
    ensures SpaceUpTo(u, kind, root, r) <= SpaceUpTo(u, kind, root, r + 1)
  {
    hide TableSize, NewTable, Coded, Fits, Pow2;
  }

  lemma {:induction false} SpaceGrows(u: seq<int>, kind: Kind, root: nat, r: nat, q: nat)
    requires Symbols(u, kind) && r <= q <= Coded(u) <= |u|
    ensures SpaceUpTo(u, kind, root, r) <= SpaceUpTo(u, kind, root, q)
  {
    hide SpaceUpTo, Coded, Fits;
    if r < q {
      SpaceGrows(u, kind, root, r, q - 1);
      SpaceStep(u, kind, root, q - 1);
    }
  }

  /** The next symbol of the loop, seen from its rank. */
  lemma SpaceNext(u: seq<int>, kind: Kind, root: nat, i: nat, j: nat)
    requires Symbols(u, kind) && i < |u| && j < |u| && u[i] <= u[j] <= MAXBITS && Rank(u, j) == Rank(u, i) + 1
    ensures Rank(u, j) < Coded(u) <= |u|
    ensures SpaceUpTo(u, kind, root, Rank(u, j) + 1) == SpaceUpTo(u, kind, root, Rank(u, j))
              + if u[j] > root && (u[i] <= root || LsbVal(CodeBits(u, i)[..root]) != LsbVal(CodeBits(u, j)[..root]))
                then Pow2(SubBits(u, Prefix(u, j, root), root, u[j] - root)) else 0
  {
    hide Fits, CodeBits, LsbVal, Pow2, CountLt, CountEq, Rank, Prefix, SubBits;
    CodedSize(u);
    CodedRank(u, j);
    LinkOfRank(u, i);
    LinkOfRank(u, j);
    if u[j] > root && u[i] > root && CodeBits(u, i)[..root] != CodeBits(u, j)[..root] {
      if LsbVal(CodeBits(u, i)[..root]) == LsbVal(CodeBits(u, j)[..root]) {
        LsbInjective(CodeBits(u, j)[..root], CodeBits(u, i)[..root]);
      }
    }
  }

  /** At first there is only the root table. */
  lemma SpaceFirst(u: seq<int>, kind: Kind, root: nat, i: nat)
    requires Symbols(u, kind) && i < |u| && u[i] <= root && u[i] <= MAXBITS && Rank(u, i) == 0
    ensures 0 < Coded(u) <= |u| && SpaceUpTo(u, kind, root, 1) == Pow2(root)
  {
    hide Fits, CodeBits, Pow2, CountLt, CountEq, Rank;
    CodedSize(u);
    CodedRank(u, i);
    LinkOfRank(u, i);
    assert SpaceUpTo(u, kind, root, 0) == Pow2(root);
  }

  /** How much a sub-table needs, and whether there is enough space for it. */
  method StartSubTable(table: array<Entry>, start: nat, kind: Kind, count: array<int>, root: nat, max: nat, ghost min: nat,
                       ghost u: seq<int>, ghost i: nat, ghost j: nat, huff: nat, len: nat, ghost low: int,
                       next: nat, curr: nat, ghost drop: nat, used: nat)
      returns (ok: bool, next': nat, curr': nat, low': nat, used': nat)
    requires Symbols(u, kind) && Bounds(u, min, max) && start <= table.Length && !kind.Codes?
    requires j < |u| && i < |u| && Rank(u, j) == Rank(u, i) + 1 && u[i] <= u[j] == len <= MAXBITS && root < len
    requires Entered(table[start..], root, kind, u, i, u[i], next, curr, drop, low, Rank(u, j))
    requires huff == LsbVal(CodeBits(u, j)) && LsbVal(CodeBits(u, j)[..root]) != low && Remaining(count[..], u, j)
    requires used == next + Pow2(curr) && start + Enough(kind) <= table.Length
    modifies table
    ensures table[..start] == old(table[..start])
    ensures used' == used + Pow2(SubBits(u, Prefix(u, j, root), root, len - root)) && (ok <==> used' <= Enough(kind))
    ensures ok ==> used' == next' + Pow2(curr')
                   && Entered(table[start..], root, kind, u, j, len, next', curr', root, low', Rank(u, j))
  {
    hide Fits, CodeBits, LsbVal, Pow2, AllSettled, Rank, Covers, Remaining, End, Placing, Bounds, Code;
    ghost var t := table[start..];
    LsbSplit(CodeBits(u, j), root);
    OtherThan(u, kind, i, j, root, low);
    NewPrefix(u, i, j, root);
    LengthBound(u, min, max, j);
    curr' := TableBits(count, len, root, max, min, u, j);
    TableCovers(u, kind, j, root, max, curr', min);
    next' := next + Pow2(curr);
    used' := used + Pow2(curr');
    low' := huff % Pow2(root);
    if (kind.Lens? && used' > ENOUGH_LENS) || (kind.Dists? && used' > ENOUGH_DISTS) {
      ok := false;
      return;
    }
    TableStarted(t, root, kind, u, i, j, next, curr, drop, low, curr');
    table[start + low'] := Entry(curr', root, next');
    assert table[start..] == t[low' := Entry(curr', root, next')];
    ok := true;
  }

  lemma LengthBound(u: seq<int>, min: nat, max: nat, j: nat)
    requires Bounds(u, min, max) && j < |u| && u[j] <= MAXBITS
    ensures u[j] <= max <= MAXBITS
  {
  }

  /** A different index is a different prefix. */
  lemma OtherThan(u: seq<int>, kind: Kind, i: nat, j: nat, root: nat, low: int)
    requires Symbols(u, kind) && j < |u| && i < |u| && u[i] <= u[j] <= MAXBITS && root < u[j]
    requires low == (if u[i] > root then LsbVal(CodeBits(u, i)[..root]) else -1) && LsbVal(CodeBits(u, j)[..root]) != low
    ensures u[i] <= root || Prefix(u, i, root) != Prefix(u, j, root)
  {
    hide Fits, CodeBits, LsbVal, Prefix, Val;
    if u[i] > root {
      PrefixBits(u, kind, i, root);
      PrefixBits(u, kind, j, root);
      SamePrefix(CodeBits(u, i)[..root], CodeBits(u, j)[..root]);
    }
  }

  // ---------------------------------------------------------------- the main loop

  /** The code is in its place, and its sub-table lies within t. */
  ghost predicate Housed(t: seq<Entry>, root: nat, kind: Kind, i: nat, c: seq<bool>)
    requires i < Alphabet(kind)
  {
    InPlace(t, root, kind, i, c) && (|c| > root ==> LinkOf(t, root, c).val + Pow2(LinkOf(t, root, c).op) <= |t|)
  }

  /** Every code is in its place. */
  ghost predicate Built(t: seq<Entry>, root: nat, kind: Kind, u: seq<int>)
    requires Symbols(u, kind)
  {
    Pow2(root) <= |t| && forall i :: 0 <= i < |u| && u[i] <= MAXBITS ==> Housed(t, root, kind, i, CodeBits(u, i))
  }

  lemma AllBuilt(t: seq<Entry>, root: nat, kind: Kind, u: seq<int>, i: nat, len: nat, next: nat, curr: nat, drop: nat, low: int)
    requires Symbols(u, kind) && Entered(t, root, kind, u, i, len, next, curr, drop, low, Coded(u)) && Pow2(root) <= |t|
    ensures Built(t, root, kind, u)
  {
    hide Fits, CodeBits, InPlace, Rank, CountLt;
    forall j | 0 <= j < |u| && u[j] <= MAXBITS ensures Housed(t, root, kind, j, CodeBits(u, j)) {
      CodedRank(u, j);
      assert Settled(t, root, kind, j, CodeBits(u, j), next, curr, PrefixOf(CodeBits(u, i), root));
    }
  }

  /** The first turn. */
  lemma FirstTurn(t: seq<Entry>, root: nat, kind: Kind, u: seq<int>, i: nat, min: nat, max: nat)
    requires Symbols(u, kind) && Bounds(u, min, max) && max >= 1 && min <= root && Pow2(root) <= |t|
    requires i < |u| && Rank(u, i) == 0 && u[i] <= MAXBITS
    ensures u[i] <= root ==> Turn(t, root, kind, u, i, 0, u[i], 0, root, 0, -1)
  {
    hide Fits, Code, Pow2, LsbVal, Settled;
    FirstCode(u, i);
    ZeroBits(u[i]);
    assert forall j :: 0 <= j < |u| ==> Rank(u, j) >= 0;
  }

  lemma {:induction false} ZeroBits(n: nat)
    ensures LsbVal(BitsOf(0, n)) == 0
  {
    BitsShifted(0, 0, n);
    assert 0 * Pow2(n) == 0;
    assert BitsOf(0, 0) == [];
    assert [] + Falses(n) == Falses(n);
    LsbFalses(n);
  }

  /** The first symbol has the shortest length. */
  lemma FirstLength(u: seq<int>, i: nat, min: nat, max: nat, k: nat)
    requires Bounds(u, min, max) && i < |u| && Rank(u, i) == 0 && u[i] <= MAXBITS && k < |u| && u[k] <= MAXBITS
    ensures u[i] <= u[k]
  {
    hide CountEq, CountLt;
    RankOrder(u, k, i);
  }

  /** The last code counted up wraps to zero exactly if no code space is left. */
  lemma LastHuff(u: seq<int>, kind: Kind, i: nat)
    requires Symbols(u, kind) && i < |u| && u[i] <= MAXBITS && Rank(u, i) + 1 == Coded(u)
    ensures Val(CodeBits(u, i)) + 1 >= Pow2(u[i]) <==> End(u, MAXBITS) == Pow2(MAXBITS)
    ensures Val(CodeBits(u, i)) + 1 < Pow2(u[i]) && u[i] == 1 ==> LsbVal(BitsOf(Val(CodeBits(u, i)) + 1, 1)) == 1
  {
    hide Rank, Code, LsbVal, Val, BitsOf, Pow2, Fits, Coded, End;
    CountOfCoded(u);
    LastCode(u, i);
    CodeFits(u, i, MAXBITS);
    WholeCode(u, i);
    Pow2Sum(u[i], MAXBITS - u[i]);
    SameFactor(Val(CodeBits(u, i)) + 1, Pow2(u[i]), Pow2(MAXBITS - u[i]));
    assert Pow2(1) == 2 by { PowZero(); PowNext(0); }
    OneBit();
  }

  lemma CountOfCoded(u: seq<int>)
    ensures Coded(u) == CountLt(u, |u|, MAXBITS + 1)
  {
  }

  lemma OneBit()
    ensures LsbVal(BitsOf(1, 1)) == 1
  {
    assert BitsOf(1, 1) == [true];
    LsbOne();
  }

  lemma SameFactor(a: nat, b: nat, p: nat)
    requires p >= 1 && a <= b
    ensures a >= b <==> a * p == b * p
  {
    if a < b { MulDifference(b, a, p); MulAtLeast(b - a, p); }
  }

  /** A single code of one bit leaves one entry, which is marked as invalid. */
  lemma MarkedInvalid(t: seq<Entry>, kind: Kind, u: seq<int>)
    requires Symbols(u, kind) && Built(t, 1, kind, u) && |t| >= 2
    requires forall i :: 0 <= i < |u| && u[i] <= MAXBITS ==> u[i] == 1 && Code(u, i) == 0
    ensures Built(t[1 := Entry(64, 1, 0)], 1, kind, u)
  {
    hide Fits, Code, EntryOf;
    var t' := t[1 := Entry(64, 1, 0)];
    forall i | 0 <= i < |u| && u[i] <= MAXBITS ensures Housed(t', 1, kind, i, CodeBits(u, i)) {
      assert Housed(t, 1, kind, i, CodeBits(u, i));
      assert CodeBits(u, i) == [false];
      forall w: seq<bool> | |w| == 1 && [false] <= w ensures At(t', 0 + LsbVal(w)) == EntryOf(kind, i, 1) {
        assert w == [false] && LsbVal(w) == 0;
      }
    }
  }

  /** Symbol j = work[k] comes after symbol i. */
  ghost predicate NextIs(work: seq<nat>, lens: seq<nat>, u: seq<int>, kind: Kind, i: nat, k: nat, max: nat, left: seq<int>)
    requires Symbols(u, kind)
  {
    && i < |u| && 1 <= u[i] <= MAXBITS < |left| && k < Coded(u) && k < |work| && work[k] < |u| == |lens|
    && Rank(u, work[k]) == k && u[i] <= u[work[k]] == lens[work[k]] <= max <= MAXBITS
    && (left[u[i]] != 0 ==> u[work[k]] == u[i]) && Remaining(left, u, work[k])
    && Val(CodeBits(u, i)) + 1 < Pow2(u[i])
    && LsbVal(CodeBits(u, work[k])) == LsbVal(BitsOf(Val(CodeBits(u, i)) + 1, u[i]))
  }

  /** What symbol comes after symbol i. */
  lemma FollowingSymbol(count: seq<int>, work: seq<nat>, lens: seq<nat>, kind: Kind, i: nat, min: nat, max: nat, left: seq<int>)
    requires CodeLengths(lens) && Symbols(Used(lens), kind) && Sorted(work, Used(lens), |lens|) && Bounds(Used(lens), min, max) && max >= 1
    requires var u := Used(lens);
             Remaining(count, u, i) && (count[u[i]] != 1 || u[i] != max) && left == count[u[i] := count[u[i]] - 1]
    ensures i < |Used(lens)| && NextIs(work, lens, Used(lens), kind, i, Rank(Used(lens), i) + 1, max, left)
  {
    hide Fits, Code, CountEq, LsbVal, Val, BitsOf, Pow2, Coded;
    var u := Used(lens);
    NotLast(count, u, i, min, max);
    SortedAt(work, u, Rank(u, i) + 1);
    var j := work[Rank(u, i) + 1];
    NextRemaining(count, u, i, j);
    CodeFits(u, i, MAXBITS);
    CodeFits(u, j, MAXBITS);
    NextHuff(u, i, j);
  }

  lemma StartFacts(lens: seq<nat>, work: seq<nat>, count: seq<int>, t: seq<Entry>, kind: Kind, root: nat, min: nat, max: nat)
    requires CodeLengths(lens) && Symbols(Used(lens), kind) && Sorted(work, Used(lens), |lens|)
    requires Bounds(Used(lens), min, max) && 1 <= min <= root <= max && Counted(count, Used(lens), |lens|)
    requires Pow2(root) <= |t| && exists k :: 0 <= k < |lens| && lens[k] == min
    ensures var u := Used(lens);
            && |work| > 0 && work[0] < |u| && Rank(u, work[0]) == 0 < Coded(u) && u[work[0]] == min
            && Turn(t, root, kind, u, work[0], 0, min, 0, root, 0, -1) && Remaining(count, u, work[0])
  {
    hide Fits, CountLt, Turn, CodeBits, Pow2;
    var u := Used(lens);
    var k :| 0 <= k < |lens| && lens[k] == min;
    CodedRank(u, k);
    SortedAt(work, u, 0);
    FirstLength(u, work[0], min, max, k);
    FirstTurn(t, root, kind, u, work[0], min, max);
  }

  lemma TurnFacts(t: seq<Entry>, root: nat, kind: Kind, u: seq<int>, i: nat, huff: nat, len: nat, next: nat, curr: nat, drop: nat, low: int)
    requires Symbols(u, kind) && Turn(t, root, kind, u, i, huff, len, next, curr, drop, low)
    ensures i < |u| && 1 <= u[i] == len <= MAXBITS && huff == LsbVal(CodeBits(u, i))
  {
  }

  lemma MakeTurn(t: seq<Entry>, root: nat, kind: Kind, u: seq<int>, i: nat, huff: nat, len: nat, next: nat, curr: nat, drop: nat, low: int)
    requires Symbols(u, kind) && i < |u| && u[i] >= 0 && Entered(t, root, kind, u, i, len, next, curr, drop, low, Rank(u, i))
    requires huff == LsbVal(CodeBits(u, i))
    ensures Turn(t, root, kind, u, i, huff, len, next, curr, drop, low)
  {
  }

  lemma RemainingFacts(count: seq<int>, u: seq<int>, i: nat)
    requires Remaining(count, u, i)
    ensures |count| == MAXBITS + 1
  {
  }

  lemma HuffPositive(u: seq<int>, i: nat)
    requires i < |u| && u[i] >= 0
    ensures var v := Val(CodeBits(u, i)) + 1; v < Pow2(u[i]) ==> LsbVal(BitsOf(v, u[i])) != 0
  {
    hide CodeBits, LsbVal, Val, BitsOf, Pow2;
    var v, n := Val(CodeBits(u, i)) + 1, u[i];
    if v < Pow2(n) && LsbVal(BitsOf(v, n)) == 0 {
      ValOfBits(v, n);
      LsbFalses(n);
      LsbInjective(BitsOf(v, n), Falses(n));
      ValFalses(n);
    }
  }

  lemma HuffPrefix(u: seq<int>, j: nat, root: nat)
    requires j < |u| && u[j] >= 0
    ensures u[j] > root ==> LsbVal(CodeBits(u, j)) % Pow2(root) == LsbVal(CodeBits(u, j)[..root])
  {
    hide CodeBits, LsbVal, Pow2;
    if u[j] > root { LsbSplit(CodeBits(u, j), root); }
  }

  /** On to symbol j, which needs a table of its own or goes into the current one. */
  method NextTurn(table: array<Entry>, start: nat, kind: Kind, count: array<int>, root: nat, max: nat, ghost min: nat,
                  ghost u: seq<int>, ghost i: nat, ghost j: nat, huff: nat, len: nat, low: int,
                  next: nat, curr: nat, drop: nat, used: nat)
      returns (ok: bool, next': nat, curr': nat, drop': nat, low': int, used': nat)
    requires Symbols(u, kind) && Bounds(u, min, max) && start <= table.Length && (kind.Codes? ==> max <= root)
    requires j < |u| && i < |u| && Rank(u, j) == Rank(u, i) + 1 && u[i] <= u[j] == len <= max <= MAXBITS
    requires Entered(table[start..], root, kind, u, i, u[i], next, curr, drop, low, Rank(u, j))
    requires huff == LsbVal(CodeBits(u, j)) && Remaining(count[..], u, j) && Coded(u) <= |u| && Rank(u, j) < Coded(u)
    requires used == next + Pow2(curr) <= Enough(kind) && used == SpaceUpTo(u, kind, root, Rank(u, j)) && start + Enough(kind) <= table.Length
    modifies table
    ensures table[..start] == old(table[..start])
    ensures used' == SpaceUpTo(u, kind, root, Rank(u, j) + 1) && (ok <==> used' <= Enough(kind)) && (kind.Codes? ==> ok)
    ensures ok ==> used' == next' + Pow2(curr') && Turn(table[start..], root, kind, u, j, huff, len, next', curr', drop', low')
  {
    hide Fits, CodeBits, LsbVal, Pow2, Rank, Remaining, Bounds, Turn, Coded, Prefix, SubBits, SpaceUpTo, Covers, AllSettled, Placing, End;
    HuffPrefix(u, j, root);
    SpaceNext(u, kind, root, i, j);
    ok, next', curr', drop', low', used' := true, next, curr, drop, low, used;
    if len > root && huff % Pow2(root) != low {
      ok, next', curr', low', used' := StartSubTable(table, start, kind, count, root, max, min, u, i, j, huff, len, low, next, curr, drop, used);
      if !ok { return; }
      drop' := root;
    } else {
      SameTable(table[start..], root, kind, u, i, j, next, curr, drop, low);
    }
    MakeTurn(table[start..], root, kind, u, j, huff, len, next', curr', drop', low');
  }

  /** The loop: all codes are entered, in sorted order. */
  method EnterAll(table: array<Entry>, start: nat, kind: Kind, lens: array<nat>, work: array<nat>, count: array<int>,
                  root: nat, min: nat, max: nat)
      returns (ok: bool, used: nat, huff: nat)
    requires start + Enough(kind) <= table.Length && CodeLengths(lens[..]) && Symbols(Used(lens[..]), kind)
    requires var u := Used(lens[..]);
             && Bounds(u, min, max) && 1 <= min <= root <= max && (kind.Codes? ==> root == max)
             && Sorted(work[..], u, |u|) && Counted(count[..], u, |u|)
    requires work != lens && Pow2(root) <= Enough(kind) && (exists k :: 0 <= k < lens.Length && lens[k] == min)
    modifies table, count
    ensures table[..start] == old(table[..start]) && (kind.Codes? ==> ok)
    ensures !kind.Codes? ==> (ok <==> Space(lens[..], kind, root) <= Enough(kind))
    ensures ok ==> used == Space(lens[..], kind, root)
    ensures var u := Used(lens[..]);
            ok ==> used <= Enough(kind) && Built(table[start..], root, kind, u)
                   && (huff == 0 <==> End(u, MAXBITS) == Pow2(MAXBITS)) && (max == 1 && huff != 0 ==> huff == 1)
  {
    hide Fits, CodeBits, LsbVal, Pow2, Rank, Sorted, Counted, Remaining, End, Bounds, Turn, Entered, Coded, Val, BitsOf, Built,
         SpaceUpTo;
    ghost var u := Used(lens[..]);
    StartFacts(lens[..], work[..], count[..], table[start..], kind, root, min, max);
    SpaceFirst(u, kind, root, work[0]);
    huff := 0;
    var sym: nat := 0;
    var len: nat := min;
    var next: nat := 0;
    var curr: nat := root;
    var drop: nat := 0;
    var low: int := -1;
    used := Pow2(root);
    ghost var i := work[0];
    while true
      invariant sym < |work[..]| && i == work[sym] < |u| && Rank(u, i) == sym < Coded(u) && u[i] == len
      invariant Turn(table[start..], root, kind, u, i, huff, len, next, curr, drop, low)
      invariant used == next + Pow2(curr) <= Enough(kind) && Remaining(count[..], u, i)
      invariant Coded(u) <= |u| && used == SpaceUpTo(u, kind, root, sym + 1)
      invariant table[..start] == old(table[..start])
      decreases Coded(u) - sym
    {
      TurnFacts(table[start..], root, kind, u, i, huff, len, next, curr, drop, low);
      RemainingFacts(count[..], u, i);
      EnterCode(table, start, kind, u, work[sym], root, huff, len, next, curr, drop, low);
      huff := CountUp(huff, len, CodeBits(u, i));
      sym := sym + 1;
      ghost var c := count[..];
      count[len] := count[len] - 1;
      assert count[..] == c[len := c[len] - 1];
      if count[len] == 0 {
        if len == max {
          LastOfAll(c, u, i, min, max);
          LastHuff(u, kind, i);
          AllBuilt(table[start..], root, kind, u, i, len, next, curr, drop, low);
          HuffPositive(u, i);
          ok := true;
          return;
        }
      }
      FollowingSymbol(c, work[..], lens[..], kind, i, min, max, count[..]);
      if count[len] == 0 { len := lens[work[sym]]; }
      ghost var j := work[sym];
      ok, next, curr, drop, low, used := NextTurn(table, start, kind, count, root, max, min, u, i, j, huff, len, low, next, curr, drop, used);
      SpaceGrows(u, kind, root, sym + 1, Coded(u));
      if !ok { return; }
      i := j;
    }
  }

  // ---------------------------------------------------------------- what the tables mean

  /** Symbol i has a code, and the bits begin with it. */
  ghost predicate Begins(lens: seq<nat>, i: nat, b: seq<bool>)
    requires i < |lens|
  {
    lens[i] != 0 && CodeBits(Used(lens), i) <= Peek(b, lens[i])
  }

  /** The symbol whose code the bits begin with (section 3.2.2 of RFC 1951). */
  ghost function Decoded(lens: seq<nat>, b: seq<bool>): (r: Option<nat>)
    ensures r.Some? ==> r.value < |lens| && Begins(lens, r.value, b)
    ensures r.None? ==> forall i :: 0 <= i < |lens| ==> !Begins(lens, i, b)
  {
    if exists i :: 0 <= i < |lens| && Begins(lens, i, b) then
      var i :| 0 <= i < |lens| && Begins(lens, i, b);
      Some(i)
    else None
  }

  /** What looking up the bits b should give: the entry of the symbol and the length of its
      code, or an invalid code. */
  ghost function Answer(kind: Kind, lens: seq<nat>, b: seq<bool>): (f: Found)
    requires |lens| <= Alphabet(kind)
    ensures f.total >= 1
  {
    match Decoded(lens, b)
    case Some(i) => Found(EntryOf(kind, i, 0).op, EntryOf(kind, i, 0).val, lens[i])
    case None => Found(64, 0, 1)
  }

  /** The tables decode the code. */
  ghost predicate Decodes(t: seq<Entry>, root: nat, kind: Kind, lens: seq<nat>)
    requires |lens| <= Alphabet(kind)
  {
    forall b: seq<bool> :: Lookup(t, root, b) == Answer(kind, lens, b)
  }

  /** Lengths inflate_table refuses: over-subscribed, or incomplete, except that lengths and
      distances may have a single code of one bit. */
  ghost predicate Refused(kind: Kind, lens: seq<nat>)
    requires CodeLengths(lens)
  {
    && (exists i :: 0 <= i < |lens| && lens[i] != 0)
    && (KraftSum(lens) > Pow2(MAXBITS)
        || (KraftSum(lens) < Pow2(MAXBITS) && (kind.Codes? || exists i :: 0 <= i < |lens| && lens[i] > 1)))
  }

  /** With no code space left, some code is found in any bits. */
  lemma {:induction false} SomeCode(u: seq<int>, kind: Kind, w: seq<bool>, n: nat)
    requires Symbols(u, kind) && End(u, MAXBITS) == Pow2(MAXBITS) && |w| == MAXBITS && n <= MAXBITS
    requires First(u, n) <= Val(w[..n])
    ensures exists i :: 0 <= i < |u| && u[i] <= MAXBITS && CodeBits(u, i) <= w
    decreases MAXBITS - n
  {
    hide First, CountEq, CountLt, Val, BitsOf, Pow2, Fits;
    CountsStep(u, |u|, n);
    if Val(w[..n]) < End(u, n) {
      var i := Link(u, CountLt(u, |u|, n) + Val(w[..n]) - First(u, n));
      AtLength(u, i, n, Val(w[..n]) - First(u, n));
      RankIs(u, i);
      BitsOfVal(w[..n]);
      assert CodeBits(u, i) == w[..n];
    } else {
      ValBound(w[..n]);
      if n < MAXBITS {
        FirstNext(u, n);
        ValSnoc(w[..n], w[n]);
        assert w[..n] + [w[n]] == w[..n + 1];
        SomeCode(u, kind, w, n + 1);
      }
    }
  }

  /** Which symbol has a given rank. */
  lemma AtLength(u: seq<int>, i: nat, n: nat, k: nat)
    requires i < |u| && Rank(u, i) == CountLt(u, |u|, n) + k && k < CountEq(u, |u|, n)
    ensures u[i] == n && CountEq(u, i, n) == k
  {
    hide CountEq, CountLt;
    CountsStep(u, |u|, n);
    RankBelowNextSymbol(u, i);
    if u[i] < n { CountLtMonotone(u, |u|, u[i] + 1, n); }
    if u[i] > n { CountLtMonotone(u, |u|, n + 1, u[i]); }
  }

  lemma CodeThere(lens: seq<nat>, i: nat, b: seq<bool>)
    requires i < |lens| && 1 <= lens[i] <= MAXBITS && CodeBits(Used(lens), i) <= Peek(b, MAXBITS)
    ensures Begins(lens, i, b)
  {
    hide CodeBits;
    assert Peek(b, MAXBITS)[..lens[i]] == Peek(b, lens[i]);
  }

  /** A complete code. */
  lemma CompleteDecodes(t: seq<Entry>, root: nat, kind: Kind, lens: seq<nat>)
    requires CodeLengths(lens) && Symbols(Used(lens), kind) && End(Used(lens), MAXBITS) == Pow2(MAXBITS)
    requires Built(t, root, kind, Used(lens))
    ensures Decodes(t, root, kind, lens)
  {
    hide Fits, CodeBits, InPlace, Lookup, EntryOf, End, Begins, Peek;
    forall b: seq<bool> ensures Lookup(t, root, b) == Answer(kind, lens, b) {
      SomeBegins(lens, kind, b);
      var i := Decoded(lens, b).value;
      assert Housed(t, root, kind, i, CodeBits(Used(lens), i)) && CodeBits(Used(lens), i) <= Peek(b, lens[i]) by { BeginsMeans(lens, i, b); }
      InPlaceFound(t, root, kind, i, CodeBits(Used(lens), i), b);
    }
  }

  lemma BeginsMeans(lens: seq<nat>, i: nat, b: seq<bool>)
    requires i < |lens| && Begins(lens, i, b)
    ensures lens[i] != 0 && CodeBits(Used(lens), i) <= Peek(b, lens[i])
  {
  }

  lemma SomeBegins(lens: seq<nat>, kind: Kind, b: seq<bool>)
    requires CodeLengths(lens) && Symbols(Used(lens), kind) && End(Used(lens), MAXBITS) == Pow2(MAXBITS)
    ensures Decoded(lens, b).Some?
  {
    hide Fits, CodeBits, End, Begins, CountEq, CountLt;
    var w := Peek(b, MAXBITS);
    assert w[..0] == [] && Val([]) == 0;
    FirstNext(Used(lens), 0);
    SomeCode(Used(lens), kind, w, 0);
    var i :| 0 <= i < |lens| && Used(lens)[i] <= MAXBITS && CodeBits(Used(lens), i) <= w;
    CodeThere(lens, i, b);
  }

  /** A single code of one bit. */
  lemma SingleDecodes(t: seq<Entry>, kind: Kind, lens: seq<nat>)
    requires CodeLengths(lens) && Symbols(Used(lens), kind) && Built(t, 1, kind, Used(lens))
    requires |t| >= 2 && t[1] == Entry(64, 1, 0)
    requires exists i :: 0 <= i < |lens| && lens[i] == 1
    requires forall i :: 0 <= i < |lens| && lens[i] != 0 ==> lens[i] == 1 && Code(Used(lens), i) == 0
    ensures Decodes(t, 1, kind, lens)
  {
    hide Fits, Code, InPlace, EntryOf;
    forall b: seq<bool> ensures Lookup(t, 1, b) == Answer(kind, lens, b) {
      if Decoded(lens, b).Some? {
        var i := Decoded(lens, b).value;
        assert Housed(t, 1, kind, i, CodeBits(Used(lens), i));
        InPlaceFound(t, 1, kind, i, CodeBits(Used(lens), i), b);
      } else {
        var i :| 0 <= i < |lens| && lens[i] == 1;
        assert !Begins(lens, i, b);
        assert CodeBits(Used(lens), i) == [false];
        var w := Peek(b, 1);
        assert w == [w[0]];
        assert [false] <= w <==> !w[0];
        LsbOne();
      }
    }
  }

  /** Every lookup stays within the tables. */
  ghost predicate Safe(t: seq<Entry>, root: nat) {
    && Pow2(root) <= |t|
    && forall w: seq<bool> :: |w| == root ==> SafeLink(At(t, LsbVal(w)), root, |t|)
  }

  ghost predicate SafeLink(e: Entry, root: nat, size: nat) {
    IsLink(e) ==> e.bits == root && e.val + Pow2(e.op) <= size
  }

  lemma CompleteSafe(t: seq<Entry>, root: nat, kind: Kind, lens: seq<nat>)
    requires CodeLengths(lens) && Symbols(Used(lens), kind) && End(Used(lens), MAXBITS) == Pow2(MAXBITS)
    requires Built(t, root, kind, Used(lens))
    ensures Safe(t, root)
  {
    hide Fits, CodeBits, EntryOf, End, Begins, Peek;
    forall w: seq<bool> | |w| == root ensures SafeLink(At(t, LsbVal(w)), root, |t|) {
      SomeBegins(lens, kind, w);
      var i := Decoded(lens, w).value;
      var c := CodeBits(Used(lens), i);
      BeginsMeans(lens, i, w);
      assert Housed(t, root, kind, i, c);
      if |c| <= root {
        PeekLonger(w, c, root);
        PeekAll(w);
        assert At(t, 0 + LsbVal(w)) == EntryOf(kind, i, |c|);
        NotALink(kind, i, |c|);
      } else {
        PeekPadded(w, |c|);
        assert c[..root] == w;
      }
    }
  }

  lemma PeekAll(w: seq<bool>)
    ensures Peek(w, |w|) == w
  {
  }

  lemma PeekPadded(w: seq<bool>, n: nat)
    requires |w| <= n
    ensures Peek(w, n)[..|w|] == w
  {
  }

  lemma SingleSafe(t: seq<Entry>, kind: Kind, u: seq<int>)
    requires Symbols(u, kind) && Built(t, 1, kind, u) && |t| >= 2 && t[1] == Entry(64, 1, 0)
    requires exists i :: 0 <= i < |u| && u[i] == 1 && Code(u, i) == 0
    ensures Safe(t, 1)
  {
    hide Fits, Code, EntryOf;
    var i :| 0 <= i < |u| && u[i] == 1 && Code(u, i) == 0;
    assert Housed(t, 1, kind, i, CodeBits(u, i));
    assert CodeBits(u, i) == [false];
    assert Pow2(1) == 2;
    forall w: seq<bool> | |w| == 1 ensures SafeLink(At(t, LsbVal(w)), 1, |t|) {
      if w[0] {
        assert w == [true];
        LsbOne();
      } else {
        assert w == [false];
        assert At(t, 0 + LsbVal(w)) == EntryOf(kind, i, 1);
        NotALink(kind, i, 1);
      }
    }
  }

  /** No code at all. */
  lemma EmptyDecodes(t: seq<Entry>, kind: Kind, lens: seq<nat>)
    requires |lens| <= Alphabet(kind) && forall i :: 0 <= i < |lens| ==> lens[i] == 0
    requires |t| >= 2 && t[0] == Entry(64, 1, 0) && t[1] == Entry(64, 1, 0)
    ensures Decodes(t, 1, kind, lens) && Safe(t, 1)
  {
    assert Pow2(1) == 2;
    forall w: seq<bool> | |w| == 1 ensures SafeLink(At(t, LsbVal(w)), 1, |t|) { LsbBound(w); }
    forall b: seq<bool> ensures Lookup(t, 1, b) == Answer(kind, lens, b) {
      LsbBound(Peek(b, 1));
      assert Pow2(1) == 2;
    }
  }

  lemma UsedSymbols(kind: Kind, lens: seq<nat>)
    requires CodeLengths(lens) && |lens| <= Alphabet(kind) && KraftSum(lens) <= Pow2(MAXBITS)
    ensures Symbols(Used(lens), kind)
  {
    hide Fits, Pow2, KraftSum;
    FitsIffSum(lens);
  }

  /** All codes have one bit and there is space left: there is one code. */
  lemma SingleCode(lens: seq<nat>, kind: Kind, i: nat, j: nat)
    requires CodeLengths(lens) && Symbols(Used(lens), kind) && End(Used(lens), MAXBITS) < Pow2(MAXBITS)
    requires i < |lens| && lens[i] == 1 && forall k :: 0 <= k < |lens| ==> lens[k] <= 1
    ensures Code(Used(lens), i) == 0
  {
    hide CountEq, Fits, BitsOf;
    var u := Used(lens);
    CodeInRange(u, i);
    EndGrows(u, 1, MAXBITS);
    NoneEqual(u, |u|, 0);
    FirstNext(u, 0);
    assert Pow2(1) == 2 && Pow2(15) == 2 * Pow2(14);
    if End(u, 1) >= 2 { Scaled(2, End(u, 1), Pow2(14)); }
  }

  lemma SpareSpace(lens: seq<nat>, kind: Kind, t: seq<Entry>, max: nat, min: nat)
    requires CodeLengths(lens) && Symbols(Used(lens), kind) && End(Used(lens), MAXBITS) < Pow2(MAXBITS)
    requires Built(t, 1, kind, Used(lens)) && Bounds(Used(lens), min, 1) && |t| >= 2
    ensures Decodes(t[1 := Entry(64, 1, 0)], 1, kind, lens) && Safe(t[1 := Entry(64, 1, 0)], 1)
  {
    hide CodeBits, Fits, Code, Built, Decodes, End, Pow2, Safe;
    var u := Used(lens);
    forall i | 0 <= i < |u| && u[i] <= MAXBITS ensures u[i] == 1 && Code(u, i) == 0 {
      SingleCode(lens, kind, i, i);
    }
    MarkedInvalid(t, kind, u);
    var k :| 0 <= k < |u| && u[k] == 1;
    assert lens[k] == 1;
    SingleDecodes(t[1 := Entry(64, 1, 0)], kind, lens);
    SingleSafe(t[1 := Entry(64, 1, 0)], kind, u);
  }

  /** The code is usable, and what has been found out about it holds. */
  ghost predicate Fillable(lens: seq<nat>, counts: seq<int>, kind: Kind, root: nat, min: nat, max: nat) {
    && CodeLengths(lens) && Symbols(Used(lens), kind)
    && var u := Used(lens);
       && Bounds(u, min, max) && 1 <= min <= root <= max && (kind.Codes? ==> root == max <= 7)
       && Counted(counts, u, |u|) && (exists k :: 0 <= k < |lens| && lens[k] == min)
       && (End(u, MAXBITS) < Pow2(MAXBITS) ==> max == 1) && End(u, MAXBITS) <= Pow2(MAXBITS)
  }

  /** Once the code is known to be usable. */
  method FillTables(kind: Kind, lens: array<nat>, count: array<int>, table: array<Entry>, start: nat, root: nat, min: nat, max: nat)
      returns (ret: int, used: nat)
    requires start + Enough(kind) <= table.Length && Fillable(lens[..], count[..], kind, root, min, max)
    modifies table, count
    ensures table[..start] == old(table[..start]) && 0 <= ret <= 1
    ensures ret == 1 <==> !kind.Codes? && Space(lens[..], kind, root) > Enough(kind)
    ensures ret == 0 ==> used == Space(lens[..], kind, root) <= Enough(kind) && Decodes(table[start..], root, kind, lens[..]) && Safe(table[start..], root)
  {
    hide Fits, Pow2, Sorted, Counted, End, Bounds, Built, Decodes, Safe, Used, Symbols, SpaceUpTo;
    var work := SortSymbols(lens, count);
    RootFits(root, max, Enough(kind));
    SpaceAtLeast(lens[..], kind, root);
    used := 0;
    if (kind.Lens? && Pow2(root) > ENOUGH_LENS) || (kind.Dists? && Pow2(root) > ENOUGH_DISTS) { return 1, 0; }
    var ok, huff;
    ok, used, huff := EnterAll(table, start, kind, lens, work, count, root, min, max);
    if !ok { return 1, used; }
    if huff != 0 {
      ghost var t := table[start..];
      table[start + huff] := Entry(64, 1, 0);
      assert table[start..] == t[1 := Entry(64, 1, 0)];
      SpareSpace(lens[..], kind, t, max, min);
    } else {
      CompleteDecodes(table[start..], root, kind, lens[..]);
      CompleteSafe(table[start..], root, kind, lens[..]);
    }
    ret := 0;
  }

  lemma SpaceAtLeast(lens: seq<nat>, kind: Kind, root: nat)
    requires CodeLengths(lens) && Symbols(Used(lens), kind)
    ensures Space(lens, kind, root) >= Pow2(root)
  {
    CodedSize(Used(lens));
    hide SpaceUpTo, Pow2;
  }

  /** There is a code. */
  ghost predicate AnyCode(lens: seq<nat>) { exists i :: 0 <= i < |lens| && lens[i] != 0 }

  /** The root table has the size asked for, as far as the lengths of the codes allow. */
  ghost predicate RootFor(lens: seq<nat>, bits: nat, root: nat) {
    && (root < bits ==> root in lens && forall i :: 0 <= i < |lens| ==> lens[i] <= root)
    && (root > bits ==> root in lens && forall i :: 0 <= i < |lens| ==> lens[i] == 0 || lens[i] >= root)
  }

  lemma RootWithin(lens: seq<nat>, min: nat, max: nat, bits: nat)
    requires CodeLengths(lens) && Bounds(Used(lens), min, max) && max >= 1 && exists k :: 0 <= k < |lens| && lens[k] == min
    ensures var r := if bits > max then max else bits; RootFor(lens, bits, if r < min then min else r)
  {
    hide RootFor;
    var k :| 0 <= k < |Used(lens)| && Used(lens)[k] == max;
    assert lens[k] == max;
    var j :| 0 <= j < |lens| && lens[j] == min;
    forall i | 0 <= i < |lens| ensures lens[i] <= max && (lens[i] == 0 || lens[i] >= min) { assert Used(lens)[i] >= 0; }
    RootIs(lens, min, max, bits);
  }

  lemma RootIs(lens: seq<nat>, min: nat, max: nat, bits: nat)
    requires min <= max && min in lens && max in lens && forall i :: 0 <= i < |lens| ==> lens[i] <= max && (lens[i] == 0 || lens[i] >= min)
    ensures var r := if bits > max then max else bits; RootFor(lens, bits, if r < min then min else r)
  {
  }

  /** A code that is not refused has symbols of its alphabet. */
  ghost predicate TooLarge(kind: Kind, lens: seq<nat>, root: nat) {
    CodeLengths(lens) && Symbols(Used(lens), kind) && !kind.Codes? && Space(lens, kind, root) > Enough(kind)
  }

  /** inflate_table.  The result is 0, 1 if the space for the tables is not enough, or -1. */
  method InflateTable(kind: Kind, lens: array<nat>, table: array<Entry>, start: nat, bits: nat)
      returns (ret: int, root: nat, used: nat)
    requires CodeLengths(lens[..]) && lens.Length <= Alphabet(kind) && start + Enough(kind) <= table.Length
    requires kind.Codes? ==> bits <= 7 && forall i :: 0 <= i < lens.Length ==> lens[i] <= bits
    modifies table
    ensures table[..start] == old(table[..start]) && -1 <= ret <= 1
    ensures ret == -1 <==> Refused(kind, lens[..])
    ensures ret == 1 <==> AnyCode(lens[..]) && !Refused(kind, lens[..]) && TooLarge(kind, lens[..], root)
    ensures if AnyCode(lens[..]) then RootFor(lens[..], bits, root) else root == 1
    ensures ret == 0 ==> used <= Enough(kind) && root <= MAXBITS && Decodes(table[start..], root, kind, lens[..]) && Safe(table[start..], root)
  {
    hide Fits, Pow2, Counted, End, Bounds, Decodes, Safe, KraftSum, Symbols, RootFor, Space;
    ghost var u := Used(lens[..]);
    var count := CountLengths(lens);
    CountedLength(count[..], u);
    root := bits;
    used := 0;
    var max := LongestLength(count, u);
    if root > max { root := max; }
    if max == 0 {
      table[start] := Entry(64, 1, 0);
      table[start + 1] := Entry(64, 1, 0);
      EmptyDecodes(table[start..], kind, lens[..]);
      return 0, 1, 2;
    }
    var min := ShortestLength(count, u, max);
    if root < min { root := min; }
    RootWithin(lens[..], min, max, bits);
    var left := SpaceLeft(count, u);
    KraftIsEnd(lens[..]);
    FitsIffSum(lens[..]);
    MaxFacts(lens[..], min, max);
    if left < 0 { return -1, root, used; }
    if left > 0 && (kind.Codes? || max != 1) { return -1, root, used; }
    UsedSymbols(kind, lens[..]);
    ret, used := FillTables(kind, lens, count, table, start, root, min, max);
  }

  lemma CountedLength(count: seq<int>, u: seq<int>)
    requires Counted(count, u, |u|)
    ensures |count| == MAXBITS + 1
  {
  }

  lemma MaxFacts(lens: seq<nat>, min: nat, max: nat)
    requires CodeLengths(lens) && Bounds(Used(lens), min, max) && max >= 1
    ensures 1 <= min <= max <= MAXBITS && exists i :: 0 <= i < |lens| && lens[i] != 0
    ensures max != 1 <==> exists i :: 0 <= i < |lens| && lens[i] > 1
  {
  }

  lemma RootFits(root: nat, max: nat, enough: nat)
    ensures root <= 7 ==> Pow2(root) <= 128
  {
    if root <= 7 {
      Pow2Grows(root, 7);
      assert Pow2(7) == 128;
    }
  }
}
