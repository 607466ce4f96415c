/** The steps of the table building loop of inflate_table: replicating an entry, counting a
    reversed code up, going on to the next symbol, and sizing a sub-table. */
module InflateSteps {
  import opened Bits
  import opened LsbBits
  import opened Counting
  import opened HuffmanCodes
  import opened InverseTransform
  import opened InflateCodes
  import opened InflateEntries
  import opened InflateSettled
  import opened InflateCounts

  // ---------------------------------------------------------------- replicating

  /** As Replicated, down to the index fill. */
  ghost predicate PartlyReplicated(t': seq<Entry>, t: seq<Entry>, off: nat, k: nat, n: nat, h: nat, here: Entry, fill: nat) {
    && |t'| == |t| && off + Pow2(k) <= |t|
    && forall x: nat :: x < |t| ==> t'[x] == if Hit(x, off, k, n, h) && x >= off + fill then here else t[x]
  }

  /** One index in each stretch of 2^n is hit. */
  lemma HitOnce(x: nat, off: nat, k: nat, n: nat, h: nat, m: nat, low: nat)
    requires m >= 1 && low == (m - 1) * Pow2(n) && low + Pow2(n) <= Pow2(k) && h < Pow2(n)
    requires off + low <= x < off + low + Pow2(n)
    ensures Hit(x, off, k, n, h) <==> x == off + low + h
  {
    hide Pow2;
    DivUnique(x - off, Pow2(n), m - 1, x - off - low);
  }

  lemma StretchBelow(m: nat, p: nat)
    requires m >= 1
    ensures (m - 1) * p >= 0 && (m - 1) * p + p == m * p
  {
    MulDifference(m, 1, p);
  }

  lemma ReplicateStep(t': seq<Entry>, t: seq<Entry>, off: nat, k: nat, n: nat, h: nat, here: Entry, m: nat)
    requires m >= 1 && m * Pow2(n) <= Pow2(k) && h < Pow2(n)
    requires PartlyReplicated(t', t, off, k, n, h, here, m * Pow2(n))
    ensures off + (m - 1) * Pow2(n) + h < |t'| && (m - 1) * Pow2(n) + Pow2(n) == m * Pow2(n)
    ensures PartlyReplicated(t'[off + (m - 1) * Pow2(n) + h := here], t, off, k, n, h, here, (m - 1) * Pow2(n))
  {
    hide Pow2, Hit;
    StretchBelow(m, Pow2(n));
    var low, top := (m - 1) * Pow2(n), m * Pow2(n);
    LowerFill(t', t, off, k, n, h, here, m, low, top);
  }

  lemma LowerFill(t': seq<Entry>, t: seq<Entry>, off: nat, k: nat, n: nat, h: nat, here: Entry, m: nat, low: nat, top: nat)
    requires m >= 1 && top <= Pow2(k) && h < Pow2(n) && low == (m - 1) * Pow2(n) && top == m * Pow2(n) == low + Pow2(n)
    requires PartlyReplicated(t', t, off, k, n, h, here, top)
    ensures off + low + h < |t'|
    ensures PartlyReplicated(t'[off + low + h := here], t, off, k, n, h, here, low)
  {
    hide Pow2, Hit;
    forall x: nat | x < |t| && off + low <= x < off + top ensures Hit(x, off, k, n, h) <==> x == off + low + h {
      HitOnce(x, off, k, n, h, m, low);
    }
  }

  lemma ReplicateStart(t: seq<Entry>, off: nat, k: nat, n: nat, h: nat, here: Entry)
    requires off + Pow2(k) <= |t| && n <= k
    ensures PartlyReplicated(t, t, off, k, n, h, here, Pow2(k)) && Pow2(k) == Pow2(k - n) * Pow2(n)
  {
    Pow2Sum(k - n, n);
  }

  /** An entry is put at all indices of a table with the low bits h. */
  method Replicate(table: array<Entry>, start: nat, off: nat, k: nat, ghost n: nat, incr: nat, h: nat, here: Entry)
    requires start <= table.Length && start + off + Pow2(k) <= table.Length && n <= k && incr == Pow2(n) && h < incr
    modifies table
    ensures table[..start] == old(table[..start])
    ensures Replicated(table[start..], old(table[start..]), off, k, n, h, here)
  {
    hide PartlyReplicated, Hit, Pow2;
    ghost var t := table[start..];
    var fill := Pow2(k);
    ghost var m := Pow2(k - n);
    ReplicateStart(t, off, k, n, h, here);
    while true
      invariant m >= 1 && fill == m * incr && fill <= Pow2(k)
      invariant table[..start] == old(table[..start])
      invariant PartlyReplicated(table[start..], t, off, k, n, h, here, fill)
      decreases m
    {
      ghost var before := table[start..];
      ReplicateStep(before, t, off, k, n, h, here, m);
      fill := fill - incr;
      table[start + off + h + fill] := here;
      m := m - 1;
      assert table[start..] == before[off + m * incr + h := here];
      if fill == 0 { break; }
      if m == 0 { Vanishes(incr); }
    }
    ReplicateEnd(table[start..], t, off, k, n, h, here);
  }

  lemma Vanishes(p: nat)
    ensures 0 * p == 0
  {
  }

  lemma ReplicateEnd(t': seq<Entry>, t: seq<Entry>, off: nat, k: nat, n: nat, h: nat, here: Entry)
    requires PartlyReplicated(t', t, off, k, n, h, here, 0)
    ensures Replicated(t', t, off, k, n, h, here)
  {
  }

  // ---------------------------------------------------------------- the next code

  /** The len-bit code huff is counted up, backwards. */
  method CountUp(huff: nat, len: nat, ghost c: seq<bool>) returns (r: nat)
    requires len >= 1 && |c| == len && huff == LsbVal(c)
    ensures Val(c) + 1 < Pow2(len) ==> r == LsbVal(BitsOf(Val(c) + 1, len))
    ensures Val(c) + 1 >= Pow2(len) ==> r == 0
  {
    hide Pow2, LsbVal, Val, BitsOf;
    var incr := Pow2(len - 1);
    ghost var p := len;
    assert c[len..] == Trues(0);
    while incr != 0 && (huff / incr) % 2 == 1
      invariant p <= len && incr == (if p == 0 then 0 else Pow2(p - 1))
      invariant c[p..] == Trues(len - p)
      decreases incr
    {
      LsbBit(c, p - 1);
      HalfPow(p - 1);
      incr := incr / 2;
      p := p - 1;
      assert c[p..] == [c[p]] + c[p + 1..];
      assert c[p..] == Trues(len - p);
    }
    if incr != 0 {
      LsbBit(c, p - 1);
      CountedUp(c, p);
      r := huff % incr;
      r := r + incr;
    } else {
      assert c == c[0..];
      ValTrues(len);
      r := 0;
    }
  }

  lemma HalfPow(k: nat)
    ensures Pow2(k) / 2 == if k == 0 then 0 else Pow2(k - 1)
  {
  }

  lemma CountedUp(c: seq<bool>, p: nat)
    requires 1 <= p <= |c| && !c[p - 1] && c[p..] == Trues(|c| - p)
    ensures Val(c) + 1 < Pow2(|c|) && LsbVal(c) % Pow2(p - 1) + Pow2(p - 1) == LsbVal(BitsOf(Val(c) + 1, |c|))
  {
    hide Pow2, LsbVal, Val, BitsOf;
    var pre, n := c[..p - 1], |c| - p;
    var d := pre + [true] + Falses(n);
    assert c == pre + [false] + Trues(n);
    ValSuccessor(pre, n);
    ValBound(d);
    BitsOfVal(d);
    LsbSplit(c, p - 1);
    LsbPadded(pre + [true], n);
    LsbConcat(pre, [true]);
    LsbOne();
  }

  lemma LsbOne()
    ensures LsbVal([true]) == 1
  {
  }

  lemma {:induction false} BitsShifted(v: nat, n: nat, d: nat)
    ensures BitsOf(v * Pow2(d), n + d) == BitsOf(v, n) + Falses(d)
  {
    if d == 0 {
      assert Falses(0) == [];
    } else {
      BitsShifted(v, n, d - 1);
      Twice(v, Pow2(d - 1));
      assert Falses(d) == Falses(d - 1) + [false];
    }
  }

  lemma Cancelled(a: nat, b: nat, p: nat)
    requires a * p < b * p
    ensures a < b
  {
    if b <= a { Scaled(b, a, p); }
  }

  /** The reversed code of the next symbol is the number that counting up gives. */
  lemma NextHuff(u: seq<int>, i: nat, j: nat)
    requires i < |u| && j < |u| && 0 <= u[i] && 0 <= u[j] && Rank(u, j) == Rank(u, i) + 1
    requires Code(u, i) < Pow2(u[i]) && Code(u, j) < Pow2(u[j])
    ensures Val(CodeBits(u, i)) == Code(u, i) && Code(u, i) + 1 < Pow2(u[i])
    ensures LsbVal(CodeBits(u, j)) == LsbVal(BitsOf(Code(u, i) + 1, u[i]))
  {
    hide Code, Rank, LsbVal, Val, BitsOf;
    NextCode(u, i, j);
    WholeCode(u, i);
    var d := u[j] - u[i];
    Pow2Sum(u[i], d);
    Cancelled(Code(u, i) + 1, Pow2(u[i]), Pow2(d));
    BitsShifted(Code(u, i) + 1, u[i], d);
    LsbPadded(BitsOf(Code(u, i) + 1, u[i]), d);
  }

  // ---------------------------------------------------------------- the next symbol

  /** How many symbols have a code. */
  ghost function Coded(u: seq<int>): nat { CountLt(u, |u|, MAXBITS + 1) }

  lemma CodedRank(u: seq<int>, i: nat)
    requires i < |u|
    ensures u[i] <= MAXBITS <==> Rank(u, i) < Coded(u)
  {
    hide CountEq, CountLt;
    if u[i] <= MAXBITS {
      RankBelowNextSymbol(u, i);
      CountLtMonotone(u, |u|, u[i] + 1, MAXBITS + 1);
    } else {
      CountLtMonotone(u, |u|, MAXBITS + 1, u[i]);
    }
  }

  /** What the sorted list holds at place r. */
  lemma SortedAt(work: seq<nat>, u: seq<int>, r: nat)
    requires Sorted(work, u, |u|) && r < Coded(u)
    ensures r < |u| && work[r] < |u| && Rank(u, work[r]) == r && u[work[r]] <= MAXBITS
  {
    hide CountEq, CountLt, Rank;
    CountsStep(u, |u|, MAXBITS);
    CountsStep(u, |u|, MAXBITS + 1);
    var i := Link(u, r);
    CodedRank(u, i);
  }

  /** The counts of the codes still to be entered, from symbol i on. */
  ghost predicate Remaining(count: seq<int>, u: seq<int>, i: nat) {
    && i < |u| && 1 <= u[i] <= MAXBITS && |count| == MAXBITS + 1
    && count[u[i]] == CountEq(u, |u|, u[i]) - CountEq(u, i, u[i])
    && forall n :: u[i] < n <= MAXBITS ==> count[n] == CountEq(u, |u|, n)
  }

  lemma {:induction false} NoneBetween(u: seq<int>, k: nat, a: int, b: int)
    requires k <= |u| && a <= b && forall i :: 0 <= i < |u| ==> u[i] < a || u[i] >= b
    ensures CountLt(u, k, a) == CountLt(u, k, b)
  {
    if k > 0 { NoneBetween(u, k - 1, a, b); }
  }

  /** Symbol i was the last one of the greatest length: then of all. */
  lemma LastOfAll(count: seq<int>, u: seq<int>, i: nat, min: nat, max: nat)
    requires Remaining(count, u, i) && Bounds(u, min, max) && u[i] == max && count[max] == 1
    ensures Rank(u, i) + 1 == Coded(u)
  {
    hide CountEq, CountLt;
    CountsStep(u, |u|, max);
    NoneBetween(u, |u|, max + 1, MAXBITS + 1);
  }

  /** Otherwise there is a next one, and its length is known. */
  lemma NotLast(count: seq<int>, u: seq<int>, i: nat, min: nat, max: nat)
    requires Remaining(count, u, i) && Bounds(u, min, max) && max >= 1 && (count[u[i]] != 1 || u[i] != max)
    ensures Rank(u, i) + 1 < Coded(u)
  {
    hide CountEq, CountLt;
    CountsStep(u, |u|, u[i]);
    CountEqGrows(u, i, |u|, u[i]);
    CountLtMonotone(u, |u|, u[i] + 1, MAXBITS + 1);
    if count[u[i]] == 1 {
      var k :| 0 <= k < |u| && u[k] == max;
      RankOrder(u, i, k);
      CodedRank(u, k);
    }
  }

  lemma NextRemaining(count: seq<int>, u: seq<int>, i: nat, j: nat)
    requires Remaining(count, u, i) && j < |u| && Rank(u, j) == Rank(u, i) + 1 && u[j] <= MAXBITS
    ensures u[j] == u[i] <==> count[u[i]] != 1
    ensures u[j] >= u[i] && Remaining(count[u[i] := count[u[i]] - 1], u, j)
  {
    hide CountEq, CountLt;
    RankOrder(u, i, j);
    CountsStep(u, |u|, u[i]);
    CountEqGrows(u, i, |u|, u[i]);
    RankBelowNextSymbol(u, j);
    if u[j] > u[i] { CountLtMonotone(u, |u|, u[i] + 1, u[j]); }
  }

  // ---------------------------------------------------------------- sizing a sub-table

  ghost function Before(u: seq<int>, j: nat, n: nat): nat
    requires j < |u| && u[j] >= 0
  {
    if n == u[j] then Code(u, j) else First(u, n)
  }

  ghost predicate NoneLongerThan(u: seq<int>, n: int) {
    forall k :: 0 <= k < |u| ==> u[k] > MAXBITS || u[k] <= n
  }

  /** The size of the sub-table with the prefix p, if codes of curr bits after it must fit: the
      least for which no codes are left that are longer, or the prefix is used up. */
  ghost function SubBits(u: seq<int>, p: nat, root: nat, curr: nat): (c: nat)
    ensures c >= curr
    decreases MAXBITS - curr
  {
    if curr + root >= MAXBITS || NoneLongerThan(u, curr + root) || (p + 1) * Pow2(curr) <= End(u, curr + root) then curr
    else SubBits(u, p, root, curr + 1)
  }

  lemma LongerLeft(u: seq<int>, min: nat, max: nat, n: nat)
    requires Bounds(u, min, max) && max >= 1
    ensures n < max <==> n < MAXBITS && !NoneLongerThan(u, n)
  {
    if n < max {
      var k :| 0 <= k < |u| && u[k] == max;
      assert !(u[k] > MAXBITS || u[k] <= n);
    }
  }

  /** How many bits the sub-table for symbol j needs: all longer codes that do not fit have
      another prefix. */
  method TableBits(count: array<int>, len: nat, root: nat, max: nat, ghost min: nat, ghost u: seq<int>, ghost j: nat) returns (curr: nat)
    requires Bounds(u, min, max) && Remaining(count[..], u, j) && u[j] == len && root < len <= max <= MAXBITS
    requires Code(u, j) == Prefix(u, j, root) * Pow2(len - root)
    ensures len - root <= curr <= max - root
    ensures curr + root == max || (Prefix(u, j, root) + 1) * Pow2(curr) <= End(u, curr + root)
    ensures curr == SubBits(u, Prefix(u, j, root), root, len - root)
  {
    hide First, CountEq, Pow2, Prefix, End, NoneLongerThan, Bounds;
    ghost var p := Prefix(u, j, root);
    curr := len - root;
    var left: int := Pow2(curr);
    Plus(p, Pow2(curr));
    while curr + root < max
      invariant len - root <= curr <= max - root
      invariant left == (p + 1) * Pow2(curr) - Before(u, j, curr + root)
      invariant SubBits(u, p, root, curr) == SubBits(u, p, root, len - root)
    {
      LongerLeft(u, min, max, curr + root);
      EndIs(count[..], u, j, curr + root);
      left := left - count[curr + root];
      if left <= 0 { break; }
      FirstNext(u, curr + root);
      PowNext(curr);
      Twice(p + 1, Pow2(curr));
      curr := curr + 1;
      left := 2 * left;
    }
    LongerLeft(u, min, max, curr + root);
  }

  lemma EndIs(count: seq<int>, u: seq<int>, j: nat, n: nat)
    requires Remaining(count, u, j) && u[j] <= n <= MAXBITS
    ensures Before(u, j, n) + count[n] == End(u, n)
  {
    hide First, CountEq;
  }

  lemma Plus(a: nat, p: nat)
    ensures (a + 1) * p == a * p + p
  {
  }

  /** All codes with the prefix fit into the sub-table. */
  ghost predicate Covers(u: seq<int>, root: nat, p: seq<bool>, curr: nat)
    requires forall i :: 0 <= i < |u| ==> u[i] >= 0
  {
    forall j :: 0 <= j < |u| && root < u[j] <= MAXBITS && CodeBits(u, j)[..root] == p ==> u[j] - root <= curr
  }

  lemma TableCovers(u: seq<int>, kind: Kind, i: nat, root: nat, max: nat, curr: nat, min: nat)
    requires Symbols(u, kind) && Bounds(u, min, max) && i < |u| && root < u[i] <= max && u[i] - root <= curr <= max - root
    requires curr + root == max || (Prefix(u, i, root) + 1) * Pow2(curr) <= End(u, curr + root)
    ensures Covers(u, root, CodeBits(u, i)[..root], curr)
  {
    hide Fits, End, Prefix, CodeBits;
    forall j | 0 <= j < |u| && root < u[j] <= MAXBITS && CodeBits(u, j)[..root] == CodeBits(u, i)[..root] ensures u[j] - root <= curr {
      if u[j] > curr + root && curr + root < max {
        LongerAbove(u, j, root, curr + root, Prefix(u, i, root));
        PrefixBits(u, kind, i, root);
        PrefixBits(u, kind, j, root);
      }
    }
  }
}
