/** Building the inverse-transform tables in the decoder (decompress.c, bzlib_private.h):
    cftab, the packed vector tt of the fast decoder, and the 20-bit table ll16/ll4 of the
    small one, whose links are obtained by reversing pointers in place. */
module DecodeTables {
  import opened Counting
  import opened Rotations
  import opened InverseTransform

  /** cftab[c] is the first rank of symbol c; entry 256 closes the table. */
  ghost predicate IsCumulative(cf: seq<int>, col: seq<int>) {
    |cf| == 257 && forall c :: 0 <= c <= 256 ==> cf[c] == CountLt(col, |col|, c)
  }

  method BuildCftab(unzftab: array<int>, cftab: array<int>, ghost col: seq<int>)
    requires unzftab.Length == 256 && cftab.Length == 257 && unzftab != cftab
    requires IsColumn(col)
    requires forall c :: 0 <= c < 256 ==> unzftab[c] == CountEq(col, |col|, c)
    modifies cftab
    ensures IsCumulative(cftab[..], col)
  {
    cftab[0] := 0;
    for i := 1 to 257
      invariant cftab[0] == 0
      invariant forall c :: 1 <= c < i ==> cftab[c] == unzftab[c - 1]
    {
      cftab[i] := unzftab[i - 1];
    }
    CountLtEnds(col, |col|);
    for i := 1 to 257
      invariant forall c :: 0 <= c < i ==> cftab[c] == CountLt(col, |col|, c)
      invariant forall c :: i <= c <= 256 ==> cftab[c] == unzftab[c - 1]
    {
      CountsStep(col, |col|, i - 1);
      cftab[i] := cftab[i] + cftab[i - 1];
    }
  }

  /** Entry p of tt once the first i columns have been linked in. */
  ghost function Packed(col: seq<int>, i: nat, p: nat): int
    requires p < |col|
  {
    col[p] + 256 * (if Link(col, p) < i then Link(col, p) else 0)
  }

  ghost predicate Cursors(cf: seq<int>, col: seq<int>, i: nat)
    requires i <= |col|
  {
    |cf| == 257 && forall c :: 0 <= c < 256 ==> cf[c] == CountLt(col, |col|, c) + CountEq(col, i, c)
  }

  lemma CursorsStep(cf: seq<int>, col: seq<int>, i: nat)
    requires i < |col| && IsColumn(col) && Cursors(cf, col, i)
    ensures cf[col[i]] == Rank(col, i) < |col|
    ensures Cursors(cf[col[i] := cf[col[i]] + 1], col, i + 1)
  {
    RankBelowNextSymbol(col, i);
  }

  lemma PackedStep(col: seq<int>, i: nat)
    requires i < |col|
    ensures Rank(col, i) < |col|
    ensures forall p :: 0 <= p < |col| ==>
              Packed(col, i + 1, p) == Packed(col, i, p) + (if p == Rank(col, i) then 256 * i else 0)
  {
    LinkOfRank(col, i);
  }

  lemma PackedEnds(col: seq<int>)
    ensures forall p :: 0 <= p < |col| ==> Packed(col, 0, p) == col[p]
    ensures forall p :: 0 <= p < |col| ==> Packed(col, |col|, p) == col[p] + 256 * Link(col, p)
  {
  }

  lemma PackedLow(col: seq<int>, i: nat, p: nat)
    requires IsColumn(col) && p < |col|
    ensures Packed(col, i, p) % 256 == col[p] && 0 <= col[p] < 256
  {
  }

  ghost predicate Holds(tt: array<int>, nblock: nat, col: seq<int>, i: nat)
    reads tt
  {
    |col| == nblock <= tt.Length && forall p :: 0 <= p < nblock ==> tt[p] == Packed(col, i, p)
  }

  /** One round of "compute the T^(-1) vector": the low byte of tt keeps the column, and the
      upper bits, still clear when i << 8 is or-ed in, receive the link. */
  method LinkIn(tt: array<int>, cftab: array<int>, nblock: nat, i: nat, ghost col: seq<int>)
    requires i < nblock && cftab.Length == 257 && tt != cftab
    requires IsColumn(col) && Holds(tt, nblock, col, i) && Cursors(cftab[..], col, i)
    modifies tt, cftab
    ensures Holds(tt, nblock, col, i + 1) && Cursors(cftab[..], col, i + 1)
  {
    hide IsColumn, Packed, Cursors, Rank;
    PackedLow(col, i, i);
    var uc := tt[i] % 256;
    CursorsStep(cftab[..], col, i);
    PackedStep(col, i);
    var j := cftab[uc];
    tt[j] := tt[j] + i * 256;
    ghost var cf := cftab[..];
    cftab[uc] := j + 1;
    assert cftab[..] == cf[uc := j + 1];
  }

  method BuildFast(tt: array<int>, cftab: array<int>, nblock: nat)
    requires nblock <= tt.Length && cftab.Length == 257 && tt != cftab
    requires IsColumn(tt[..nblock]) && IsCumulative(cftab[..], tt[..nblock])
    modifies tt, cftab
    ensures var col := old(tt[..nblock]);
            forall p :: 0 <= p < nblock ==> tt[p] == col[p] + 256 * Link(col, p)
  {
    ghost var col := tt[..nblock];
    PackedEnds(col);
    hide Packed;
    for i := 0 to nblock
      invariant Holds(tt, nblock, col, i) && Cursors(cftab[..], col, i)
    {
      LinkIn(tt, cftab, nblock, i, col);
    }
  }

  // ---------------------------------------------------------------- the small decoder

  /** Which half of ll4[i >> 1] entry i uses. */
  function Nibble(x: int, i: nat): int {
    if i % 2 == 0 then x % 16 else x / 16
  }

  ghost predicate Packs(ll16: array<int>, ll4: array<int>, nblock: nat) {
    && nblock <= ll16.Length && (nblock + 1) / 2 <= ll4.Length && ll16 != ll4
  }

  function GetLL(ll16: array<int>, ll4: array<int>, i: nat): int
    requires i < ll16.Length && i / 2 < ll4.Length
    reads ll16, ll4
  {
    ll16[i] + 65536 * Nibble(ll4[i / 2], i)
  }

  /** The packed table holds the 20-bit entries v. */
  ghost predicate Table(ll16: array<int>, ll4: array<int>, v: seq<int>)
    reads ll16, ll4
  {
    && Packs(ll16, ll4, |v|)
    && (forall i :: 0 <= i < (|v| + 1) / 2 ==> 0 <= ll4[i] < 256)
    && (forall i :: 0 <= i < |v| ==> GetLL(ll16, ll4, i) == v[i])
  }

  method SetLL(ll16: array<int>, ll4: array<int>, i: nat, n: int)
    requires Packs(ll16, ll4, i + 1) && 0 <= n < 0x100000
    requires 0 <= ll4[i / 2] < 256
    modifies ll16, ll4
    ensures GetLL(ll16, ll4, i) == n && 0 <= ll4[i / 2] < 256
    ensures forall k :: 0 <= k < ll16.Length && k != i ==> ll16[k] == old(ll16[k])
    ensures forall k :: 0 <= k < ll4.Length && k != i / 2 ==> ll4[k] == old(ll4[k])
    ensures forall k :: 0 <= k && k / 2 == i / 2 && k != i ==>
              Nibble(ll4[i / 2], k) == Nibble(old(ll4[i / 2]), k)
  {
    ll16[i] := n % 0x10000;
    var x, hi := ll4[i / 2], n / 0x10000;
    ll4[i / 2] := if i % 2 == 0 then x / 16 * 16 + hi else x % 16 + hi * 16;
  }

  method SetEntry(ll16: array<int>, ll4: array<int>, i: nat, n: int, ghost v: seq<int>)
    requires Table(ll16, ll4, v) && i < |v| && 0 <= n < 0x100000
    modifies ll16, ll4
    ensures Table(ll16, ll4, v[i := n])
  {
    SetLL(ll16, ll4, i, n);
    forall k | 0 <= k < |v| && k != i ensures GetLL(ll16, ll4, k) == v[k] {
      assert old(GetLL(ll16, ll4, k)) == v[k];
    }
  }

  /** BZ2_indexIntoF: binary search in cftab for the symbol whose ranks include indx. */
  method IndexIntoF(indx: int, cftab: array<int>) returns (nb: nat)
    requires cftab.Length == 257 && cftab[0] <= indx < cftab[256]
    ensures nb < 256 && cftab[nb] <= indx < cftab[nb + 1]
  {
    nb := 0;
    var na := 256;
    while na - nb != 1
      invariant 0 <= nb < na <= 256
      invariant cftab[nb] <= indx < cftab[na]
    {
      var mid := (nb + na) / 2;
      if indx >= cftab[mid] { nb := mid; } else { na := mid; }
    }
  }

  /** The bracket IndexIntoF finds is the symbol the fast decoder reads from tt. */
  lemma IndexIsLinkedSymbol(col: seq<int>, p: nat, c: int)
    requires p < |col| && CountLt(col, |col|, c) <= p < CountLt(col, |col|, c + 1)
    ensures col[Link(col, p)] == c
  {
    var i := Link(col, p);
    RankBelowNextSymbol(col, i);
    if col[i] < c {
      CountLtMonotone(col, |col|, col[i] + 1, c);
    } else if col[i] > c {
      CountLtMonotone(col, |col|, c + 1, col[i]);
    }
  }

  lemma IndexBracket(cf: seq<int>, col: seq<int>)
    requires IsCumulative(cf, col) && IsColumn(col)
    ensures cf[0] == 0 && cf[256] == |col|
    ensures forall p: nat, c: nat {:trigger col[Link(col, p)], cf[c]} ::
              p < |col| && c < 256 && cf[c] <= p < cf[c + 1] ==> col[Link(col, p)] == c
  {
    CountLtEnds(col, |col|);
    forall p: nat, c: nat | p < |col| && c < 256 && cf[c] <= p < cf[c + 1] ensures col[Link(col, p)] == c {
      IndexIsLinkedSymbol(col, p, c);
    }
  }

  /** The ranks of the first i columns, in the packed table. */
  ghost predicate RanksSoFar(ll16: array<int>, ll4: array<int>, col: seq<int>, i: nat)
    reads ll16, ll4
  {
    && i <= |col| && Packs(ll16, ll4, |col|)
    && (forall k :: 0 <= k < (i + 1) / 2 ==> 0 <= ll4[k] < 256)
    && (forall k :: 0 <= k < i ==> GetLL(ll16, ll4, k) == Rank(col, k))
    && (forall k :: i <= k < |col| ==> ll16[k] == col[k])
  }

  /** One round of "compute the T vector". */
  method RankIn(ll16: array<int>, ll4: array<int>, cftab: array<int>, i: nat, ghost col: seq<int>)
    requires cftab.Length == 257 && cftab != ll16 && cftab != ll4
    requires IsColumn(col) && i < |col| <= 900000
    requires RanksSoFar(ll16, ll4, col, i) && Cursors(cftab[..], col, i)
    requires 0 <= ll4[i / 2] < 256
    modifies ll16, ll4, cftab
    ensures RanksSoFar(ll16, ll4, col, i + 1) && Cursors(cftab[..], col, i + 1)
    ensures forall k :: i / 2 < k < ll4.Length ==> ll4[k] == old(ll4[k])
  {
    hide Cursors, Rank, Nibble;
    var uc := ll16[i] % 256;
    CursorsStep(cftab[..], col, i);
    SetLL(ll16, ll4, i, cftab[uc]);
    forall k | 0 <= k < i ensures GetLL(ll16, ll4, k) == Rank(col, k) {
      assert old(GetLL(ll16, ll4, k)) == Rank(col, k);
    }
    ghost var cf := cftab[..];
    cftab[uc] := cftab[uc] + 1;
    assert cftab[..] == cf[uc := cf[uc] + 1];
  }

  method BuildRanks(ll16: array<int>, ll4: array<int>, cftab: array<int>, nblock: nat)
    requires Packs(ll16, ll4, nblock) && cftab.Length == 257 && cftab != ll16 && cftab != ll4
    requires IsColumn(ll16[..nblock]) && IsCumulative(cftab[..], ll16[..nblock]) && nblock <= 900000
    requires forall k :: 0 <= k < (nblock + 1) / 2 ==> 0 <= ll4[k] < 256
    modifies ll16, ll4, cftab
    ensures Table(ll16, ll4, Ranks(old(ll16[..nblock])))
  {
    ghost var col := ll16[..nblock];
    assert Cursors(cftab[..], col, 0);
    hide Cursors, IsColumn;
    for i := 0 to nblock
      invariant RanksSoFar(ll16, ll4, col, i) && Cursors(cftab[..], col, i)
      invariant forall k :: (i + 1) / 2 <= k < (nblock + 1) / 2 ==> 0 <= ll4[k] < 256
    {
      RankIn(ll16, ll4, cftab, i, col);
    }
  }

  // ---------------------------------------------------------------- pointer reversal

  /** Part-way through the reversal: xs is the path walked so far along the permutation r,
      the links of xs[1..] point backwards, and all others are as they were. */
  ghost predicate Reversing(r: seq<int>, v: seq<int>, xs: seq<int>) {
    && |v| == |r| && |xs| >= 1
    && (forall k :: 0 <= k < |xs| ==> 0 <= xs[k] < |r|)
    && (forall k :: 1 <= k < |xs| ==> xs[k] == r[xs[k - 1]] && v[xs[k]] == xs[k - 1])
    && (forall a, b :: 1 <= a < b < |xs| ==> xs[a] != xs[b])
    && (forall b :: 1 <= b < |xs| - 1 ==> xs[0] != xs[b])
    && (forall p :: 0 <= p < |r| && p !in xs[1..] ==> v[p] == r[p])
  }

  lemma Injective(r: seq<int>, a: int, b: int)
    requires IsPermutation(r, |r|) && 0 <= a < |r| && 0 <= b < |r| && r[a] == r[b]
    ensures a == b
  {
  }

  lemma NextIsUntouched(r: seq<int>, v: seq<int>, xs: seq<int>)
    requires IsPermutation(r, |r|) && Reversing(r, v, xs)
    requires |xs| == 1 || xs[|xs| - 1] != xs[0]
    ensures var j := r[xs[|xs| - 1]]; 0 <= j < |r| && j !in xs[1..] && v[j] == r[j]
  {
    var last := xs[|xs| - 1];
    var j := r[last];
    if j in xs[1..] {
      var k :| 1 <= k < |xs| && xs[k] == j;
      Injective(r, xs[k - 1], last);
      assert false;
    }
  }

  lemma ReverseStep(r: seq<int>, v: seq<int>, xs: seq<int>)
    requires IsPermutation(r, |r|) && Reversing(r, v, xs)
    requires |xs| == 1 || xs[|xs| - 1] != xs[0]
    ensures var last := xs[|xs| - 1];
            var j := r[last];
            0 <= j < |r| && v[j] == r[j] && Reversing(r, v[j := last], xs + [j])
  {
    NextIsUntouched(r, v, xs);
    var last := xs[|xs| - 1];
    var ys := xs + [r[last]];
    assert ys[1..] == xs[1..] + [r[last]];
    assert forall a :: 1 <= a < |xs| ==> xs[a] == xs[1..][a - 1];
  }

  lemma PathIsShort(r: seq<int>, v: seq<int>, xs: seq<int>)
    requires Reversing(r, v, xs)
    ensures |xs| <= |r| + 1
  {
    var tail := xs[1..];
    DistinctSetSize(tail);
    var s := set x | x in tail;
    assert s <= Range(|r|);
    assert |Range(|r|)| == |s| + |Range(|r|) - s|;
  }

  /** cyc is closed under the links, and the table holds the link of each of its rows. */
  ghost predicate LinkedCycle(col: seq<int>, v: seq<int>, cyc: set<int>) {
    && |v| == |col|
    && forall p :: p in cyc ==> 0 <= p < |col| && v[p] == Link(col, p) && Link(col, p) in cyc
  }

  lemma CycleStep(col: seq<int>, v: seq<int>, cyc: set<int>, p: int)
    requires LinkedCycle(col, v, cyc) && p in cyc
    ensures 0 <= p < |col| == |v| && v[p] == Link(col, p) && Link(col, p) in cyc
  {
  }

  lemma CycleReversed(col: seq<int>, v: seq<int>, xs: seq<int>)
    requires Reversing(Ranks(col), v, xs)
    requires |xs| > 1 && xs[|xs| - 1] == xs[0]
    ensures LinkedCycle(col, v, set x | x in xs)
  {
    forall p | p in xs ensures v[p] == Link(col, p) && Link(col, p) in xs {
      var k :| 0 <= k < |xs| && xs[k] == p;
      var m := if k == 0 then |xs| - 1 else k;
      assert xs[m] == p && p == Rank(col, xs[m - 1]);
      LinkOfRank(col, xs[m - 1]);
    }
  }

  /** The pointers are reversed in place: it terminates, and afterwards every row on
      the cycle of origPtr holds the same link the fast decoder stores. */
  method ReverseLinks(ll16: array<int>, ll4: array<int>, origPtr: nat, ghost col: seq<int>)
    returns (ghost v: seq<int>, ghost cyc: set<int>)
    requires origPtr < |col| <= 900000 && Table(ll16, ll4, Ranks(col))
    modifies ll16, ll4
    ensures Table(ll16, ll4, v) && LinkedCycle(col, v, cyc) && origPtr in cyc && |v| == |col|
  {
    hide Table, Link, Rank, IsPermutation, Reversing, LinkedCycle;
    ghost var r := Ranks(col);
    RanksPermute(col);
    v := r;
    ghost var xs := [origPtr];
    FirstStep(r, origPtr);
    var i: int := origPtr;
    EntryOf(ll16, ll4, v, i);
    var j := GetLL(ll16, ll4, i);
    while true
      invariant Table(ll16, ll4, v) && Reversing(r, v, xs)
      invariant 0 <= i < |col| && 0 <= j < |col| && |v| == |col|
      invariant |xs| >= 1 && xs[0] == origPtr && xs[|xs| - 1] == i && j == r[i]
      invariant |xs| == 1 || i != origPtr
      invariant |xs| <= |r| + 1
      decreases |r| + 2 - |xs|
    {
      ReverseStep(r, v, xs);
      EntryOf(ll16, ll4, v, j);
      var tmp := GetLL(ll16, ll4, j);
      SetEntry(ll16, ll4, j, i, v);
      v, xs := v[j := i], xs + [j];
      PathIsShort(r, v, xs);
      i, j := j, tmp;
      RankInRange(r, i);
      if i == origPtr {
        CycleReversed(col, v, xs);
        cyc := set x | x in xs;
        assert xs[0] in cyc;
        break;
      }
    }
  }

  lemma FirstStep(r: seq<int>, x: int)
    requires IsPermutation(r, |r|) && 0 <= x < |r|
    ensures Reversing(r, r, [x]) && 0 <= r[x] < |r|
  {
  }

  lemma RankInRange(r: seq<int>, x: int)
    requires IsPermutation(r, |r|) && 0 <= x < |r|
    ensures 0 <= r[x] < |r|
  {
  }

  lemma EntryOf(ll16: array<int>, ll4: array<int>, v: seq<int>, i: int)
    requires Table(ll16, ll4, v) && 0 <= i < |v|
    ensures i < ll16.Length && i / 2 < ll4.Length && GetLL(ll16, ll4, i) == v[i]
  {
  }

  /** All the tables of the fast decoder, from the column and its symbol counts. */
  method PrepareFast(tt: array<int>, unzftab: array<int>, nblock: nat) returns (cftab: array<int>)
    requires nblock <= tt.Length && unzftab != tt && unzftab.Length == 256
    requires IsColumn(tt[..nblock])
    requires forall c :: 0 <= c < 256 ==> unzftab[c] == CountEq(tt[..nblock], nblock, c)
    modifies tt
    ensures fresh(cftab)
    ensures var col := old(tt[..nblock]);
            forall p :: 0 <= p < nblock ==> tt[p] == col[p] + 256 * Link(col, p)
  {
    hide Link, CountEq, CountLt, IsColumn, IsCumulative;
    ghost var col := tt[..nblock];
    cftab := new int[257];
    BuildCftab(unzftab, cftab, col);
    assert tt[..nblock] == col;
    BuildFast(tt, cftab, nblock);
  }

  /** All the tables of the small decoder, from the column and its symbol counts. */
  method PrepareSmall(ll16: array<int>, ll4: array<int>, unzftab: array<int>, nblock: nat, origPtr: nat)
    returns (cftab: array<int>, ghost v: seq<int>, ghost cyc: set<int>)
    requires origPtr < nblock <= 900000
    requires Packs(ll16, ll4, nblock) && unzftab != ll16 && unzftab != ll4 && unzftab.Length == 256
    requires forall k :: 0 <= k < (nblock + 1) / 2 ==> 0 <= ll4[k] < 256
    requires IsColumn(ll16[..nblock])
    requires forall c :: 0 <= c < 256 ==> unzftab[c] == CountEq(ll16[..nblock], nblock, c)
    modifies ll16, ll4
    ensures fresh(cftab) && cftab.Length == 257 && |v| == nblock
    ensures var col := old(ll16[..nblock]);
            && IsCumulative(cftab[..], col) && Table(ll16, ll4, v)
            && LinkedCycle(col, v, cyc) && origPtr in cyc
  {
    hide CountEq, CountLt, IsColumn, IsCumulative, Rank, Table, LinkedCycle, Link;
    ghost var col := ll16[..nblock];
    cftab := new int[257];
    BuildCftab(unzftab, cftab, col);
    ghost var cf := cftab[..];
    var cftabCopy := new int[257];
    forall i | 0 <= i < 257 { cftabCopy[i] := cftab[i]; }
    assert cftabCopy[..] == cf && ll16[..nblock] == col;
    BuildRanks(ll16, ll4, cftabCopy, nblock);
    v, cyc := ReverseLinks(ll16, ll4, origPtr, col);
    assert cftab[..] == cf;
  }
}
