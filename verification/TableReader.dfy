/** Receiving the tables of a block (decompress.c): which bytes are in use, the selectors and
    the code lengths.  Every bit is a point where the decoder may have to stop and go on
    later; the decoding tables are built when the last length has arrived. */
module TableReader {
  import opened Bits
  import opened HuffmanCodes
  import opened HuffmanTables
  import opened Mtf
  import opened MtfEncode
  import opened BlockFormat

  datatype Wait =
    | Mapping1 | Mapping2 | Selector1 | Selector2 | Selector3 | Coding1 | Coding2 | Coding3
    | Ready | Failed | Overrun

  /** The byte map of the decoder, makeMaps_d. */
  method MakeMapsD(inUse: seq<bool>) returns (seqToUnseq: seq<int>)
    requires |inUse| == 256
    ensures seqToUnseq == UsedBytes(inUse, 256)
  {
    seqToUnseq := [];
    for i := 0 to 256
      invariant seqToUnseq == UsedBytes(inUse, i)
    {
      if inUse[i] { seqToUnseq := seqToUnseq + [i]; }
    }
  }

  /** One rank more, followed down the list. */
  lemma SelectedMore(nGroups: nat, ranks: seq<int>, i: nat)
    requires i < |ranks| && RanksWithin(ranks, nGroups)
    ensures RanksWithin(ranks[..i], nGroups) && RanksWithin(ranks[..i + 1], nGroups) && 0 <= ranks[i] < nGroups
    ensures |ListOf(Identity(nGroups), ranks[..i])| == nGroups
    ensures var l := ListOf(Identity(nGroups), ranks[..i]);
            && ListOf(Identity(nGroups), ranks[..i + 1]) == ToFront(l, ranks[i])
            && Selected(nGroups, ranks[..i + 1]) == Selected(nGroups, ranks[..i]) + [l[ranks[i]]]
  {
    hide ListOf, SymbolsOf;
    FollowSnoc(Identity(nGroups), ranks[..i], ranks[i]);
    assert ranks[..i + 1] == ranks[..i] + [ranks[i]];
  }

  /** The n selectors, from their places in the list. */
  method UndoSelectors(nGroups: nat, selectorMtf: array<int>, selector: array<int>, n: nat)
    requires selectorMtf != selector && n <= selectorMtf.Length && n <= selector.Length && RanksWithin(selectorMtf[..n], nGroups)
    modifies selector
    ensures selector[..n] == Selected(nGroups, selectorMtf[..n])
  {
    ghost var ranks := selectorMtf[..n];
    var pos := new int[nGroups](i => i);
    assert ranks[..0] == [] && pos[..] == Identity(nGroups);
    for i := 0 to n
      modifies selector, pos
      invariant selectorMtf[..n] == ranks
      invariant RanksWithin(ranks[..i], nGroups)
      invariant pos[..] == ListOf(Identity(nGroups), ranks[..i])
      invariant selector[..i] == Selected(nGroups, ranks[..i])
    {
      hide ListOf, Selected, ToFront;
      assert ranks[i] == selectorMtf[i];
      SelectedMore(nGroups, ranks, i);
      ghost var done := selector[..i];
      selector[i] := RotateTo(pos, selectorMtf[i]);
      assert selector[..i + 1] == done + [selector[i]];
    }
    assert ranks[..n] == ranks;
  }

  /** Entry v comes to the front. */
  method RotateTo(pos: array<int>, v: nat) returns (tmp: int)
    requires v < pos.Length
    modifies pos
    ensures tmp == old(pos[v]) && pos[..] == ToFront(old(pos[..]), v)
  {
    ghost var l := pos[..];
    tmp := pos[v];
    var k := v;
    while k > 0
      invariant 0 <= k <= v
      invariant forall m :: 0 <= m <= k && m < v ==> pos[m] == l[m]
      invariant forall m :: k < m <= v ==> pos[m] == l[m - 1]
      invariant forall m :: v < m < pos.Length ==> pos[m] == l[m]
    {
      pos[k] := pos[k - 1];
      k := k - 1;
    }
    pos[0] := tmp;
  }

  /** The decoding tables for one list of lengths. */
  method BuildTable(len: seq<int>) returns (table: Tables, top: nat)
    requires 0 < |len| <= MAX_ALPHA_SIZE && LengthsOf(len, |len|)
    ensures TablesFor(table, len, top)
  {
    var minLen, maxLen := 32, 0;
    for i := 0 to |len|
      invariant forall k :: 0 <= k < i ==> minLen <= len[k] <= maxLen
      invariant if i == 0 then minLen == 32 && maxLen == 0 else 1 <= minLen <= maxLen <= 20
    {
      if len[i] > maxLen { maxLen := len[i]; }
      if len[i] < minLen { minLen := len[i]; }
    }
    var length := new int[|len|](i requires 0 <= i < |len| => len[i]);
    var limit, base, perm := new int[MAX_ALPHA_SIZE], new int[MAX_ALPHA_SIZE], new int[MAX_ALPHA_SIZE];
    assert length[..|len|] == len;
    HbCreateDecodeTables(limit, base, perm, length, minLen, maxLen, |len|);
    table, top := Tables(minLen, limit[..], base[..], perm[..]), maxLen;
  }

  class HeaderReader {
    const max: nat
    var state: Wait
    var inUse16: seq<bool>
    var inUse: seq<bool>
    var seqToUnseq: seq<int>
    var nGroups: nat
    var nSelectors: nat
    /** The ranks of the selectors received so far, i of them, and then the selectors. */
    const selectorMtf: array<int>
    const selector: array<int>
    /** The complete tables (t of them) and the lengths so far of the next (i of them). */
    var len: seq<seq<int>>
    var part: seq<int>
    var curr: int
    var i: nat
    var j: nat
    var tables: seq<Tables>
    ghost var tops: seq<nat>

    ghost predicate MapKnown()
      reads this
    {
      |inUse| == 256 && seqToUnseq == UsedBytes(inUse, 256) && |seqToUnseq| >= 1
    }

    ghost function Selectors(): seq<int>
      reads this, selector
    {
      if nSelectors <= selector.Length then selector[..nSelectors] else []
    }

    ghost function F(): Frame
      reads this, selector
    {
      Frame(max, inUse, Selectors(), nGroups)
    }

    ghost function H(): Header
      reads this, selector
    {
      Header(inUse, Selectors(), len)
    }

    ghost predicate Coding()
      reads this, selector
    {
      MapKnown() && 2 <= nGroups <= 6 && nSelectors <= MAX_SELECTORS && ValidTables(F(), len)
    }

    /** Both arrays have the size the program gives them. */
    ghost predicate Sized() {
      selectorMtf.Length == selector.Length == MAX_SELECTORS && selectorMtf != selector
    }

    ghost predicate Valid()
      reads this, selectorMtf, selector
    {
      && Sized()
      && match state
      case Mapping1 => |inUse16| == 16 && i < 16
      case Mapping2 =>
        && |inUse16| == 16 && |inUse| == 256 && i < 16 && j < 16 && inUse16[i]
        && forall k :: 16 * i + j <= k < 256 ==> !inUse[k]
      case Selector1 => MapKnown()
      case Selector2 => MapKnown() && 2 <= nGroups <= 6
      case Selector3 =>
        && MapKnown() && 2 <= nGroups <= 6 && j < nGroups
        && i < nSelectors && i <= MAX_SELECTORS && RanksWithin(selectorMtf[..i], nGroups)
      case Coding1 => Coding() && |len| < nGroups
      case Coding2 =>
        && Coding() && |len| < nGroups && ValidPart(F(), part) && |part| < |seqToUnseq| + 2
        && 1 <= curr <= 20
      case Coding3 =>
        && Coding() && |len| < nGroups && ValidPart(F(), part) && |part| < |seqToUnseq| + 2
        && 1 <= curr <= 20
      case Ready =>
        && MapKnown() && nSelectors <= MAX_SELECTORS && ValidHeader(H()) && |tables| == |tops| == |len|
        && forall t :: 0 <= t < |len| ==> TablesFor(tables[t], len[t], tops[t])
      case Failed => true
      case Overrun => true
    }

    predicate Waiting()
      reads this
    {
      state != Ready && state != Failed && state != Overrun
    }

    /** What the decoder makes of the bits to come. */
    ghost function Outcome(bits: seq<bool>): Parse<seq<int>>
      requires Valid()
      reads this, selectorMtf, selector
    {
      match state
      case Mapping1 => ReadUsed16(max, inUse16[..i], bits)
      case Mapping2 => ReadUsed(max, inUse16, inUse[..16 * i + j], bits)
      case Selector1 => ReadGroups(max, inUse, bits)
      case Selector2 => ReadCount(max, inUse, nGroups, bits)
      case Selector3 => ReadSelectors(max, inUse, nGroups, nSelectors, selectorMtf[..i], j, bits)
      case Coding1 => ReadTables(F(), len, bits)
      case Coding2 => ReadLengths(F(), len, part, curr, bits)
      case Coding3 => ReadDelta(F(), len, part, curr, bits)
      case Ready => ReadData(H(), max, DataStart(inUse), bits)
      case Failed => Bad
      case Overrun => Beyond
    }

    constructor (max: nat)
      ensures Valid() && this.max == max && state == Mapping1
      ensures forall rest :: Outcome(rest) == ReadBlock(max, rest)
      ensures fresh(selectorMtf) && fresh(selector)
    {
      this.max := max;
      state, i, j, curr, nGroups, nSelectors := Mapping1, 0, 0, 0, 0, 0;
      inUse16 := seq(16, _ => false);
      inUse, seqToUnseq, len, part, tables, tops := [], [], [], [], [], [];
      selectorMtf, selector := new int[MAX_SELECTORS], new int[MAX_SELECTORS];
    }

    ghost function Need(): nat
      reads this
    {
      match state case Selector1 => 3 case Selector2 => 15 case Coding1 => 5 case _ => 1
    }

    method Needed() returns (n: nat)
      ensures n == Need() && 1 <= n <= 15
    {
      n := match state case Selector1 => 3 case Selector2 => 15 case Coding1 => 5 case _ => 1;
    }

    /** With fewer bits than it needs the reader has to wait. */
    lemma Starved(bits: seq<bool>)
      requires Valid() && Waiting() && |bits| < Need()
      ensures Outcome(bits) == Short
    {
      hide ReadData, UsedBytes, SymbolsOf, Val;
      if state == Mapping2 { assert (16 * i + j) / 16 == i; }
    }

    /** The bits waited for have arrived. */
    method Feed(v: nat)
      requires Valid() && Waiting() && v < Pow2(Need())
      modifies this, selectorMtf, selector
      ensures Valid()
      ensures forall rest :: Outcome(rest) == old(Outcome(BitsOf(v, Need()) + rest))
    {
      assert state != Ready && state != Failed && state != Overrun;
      hide *;
      match state
      case Mapping1 => FeedMapping1(v);
      case Mapping2 => FeedMapping2(v);
      case Selector1 => FeedSelector1(v);
      case Selector2 => FeedSelector2(v);
      case Selector3 => FeedSelector3(v);
      case Coding1 => FeedCoding1(v);
      case Coding2 => FeedCoding2(v);
      case Coding3 => FeedCoding3(v);
    }

    method FeedMapping1(v: nat)
      requires Valid() && state == Mapping1 && v < Pow2(Need())
      modifies this, selectorMtf, selector
      ensures Valid()
      ensures forall rest :: Outcome(rest) == old(Outcome(BitsOf(v, Need()) + rest))
    {
      hide ReadUsed, Val, BitsOf;
      OneBit(v);
      inUse16 := inUse16[i := v == 1];
      assert inUse16[..i + 1] == old(inUse16[..i]) + [v == 1];
      i := i + 1;
      if i == 16 {
        inUse := seq(256, _ => false);
        assert inUse16[..16] == inUse16 && inUse[..16 * 0] == [];
        assert forall rest :: ReadUsed16(max, inUse16, rest) == ReadUsed(max, inUse16, [], rest);
        i := 0;
        FindMapping();
      }
    }

    /** Go to the next sixteen bytes of which some are in use. */
    method FindMapping()
      requires Sized() && |inUse16| == 16 && |inUse| == 256 && i <= 16
      requires forall k :: 16 * i <= k < 256 ==> !inUse[k]
      modifies this
      ensures Valid()
      ensures forall rest :: Outcome(rest) == old(ReadUsed(max, inUse16, inUse[..16 * i], rest))
    {
      hide ReadGroups, UsedBytes, ReadUsed;
      while i < 16 && !inUse16[i]
        invariant i <= 16 && |inUse16| == 16 && |inUse| == 256 && forall k :: 16 * i <= k < 256 ==> !inUse[k]
        invariant forall rest ::
          ReadUsed(max, inUse16, inUse[..16 * i], rest) == old(ReadUsed(max, inUse16, inUse[..16 * i], rest))
        decreases 16 - i
      {
        forall rest { SkipUnused(max, inUse16, inUse, 16 * i, 16 * i + 16, rest); }
        i := i + 1;
      }
      if i < 16 {
        j, state := 0, Mapping2;
      } else {
        assert inUse[..256] == inUse;
        forall rest { EndOfMapping(max, inUse16, inUse, rest); }
        seqToUnseq := MakeMapsD(inUse);
        state := if |seqToUnseq| == 0 then Failed else Selector1;
      }
    }

    method FeedMapping2(v: nat)
      requires Valid() && state == Mapping2 && v < Pow2(Need())
      modifies this, selectorMtf, selector
      ensures Valid()
      ensures forall rest :: Outcome(rest) == old(Outcome(BitsOf(v, Need()) + rest))
    {
      hide ReadGroups, Val, BitsOf, UsedBytes;
      OneBit(v);
      ghost var was := inUse;
      if v == 1 { inUse := inUse[16 * i + j := true]; }
      j := j + 1;
      assert inUse[..16 * i + j] == was[..16 * i + j - 1] + [v == 1];
      assert (16 * i + j - 1) / 16 == i;
      if j == 16 {
        i := i + 1;
        FindMapping();
      }
    }

    method FeedSelector1(v: nat)
      requires Valid() && state == Selector1 && v < Pow2(Need())
      modifies this, selectorMtf, selector
      ensures Valid()
      ensures forall rest :: Outcome(rest) == old(Outcome(BitsOf(v, Need()) + rest))
    {
      hide ReadCount, Val, BitsOf, UsedBytes, Pow2;
      SomeBits(v, 3);
      nGroups := v;
      state := if nGroups < 2 || nGroups > 6 then Failed else Selector2;
    }

    method FeedSelector2(v: nat)
      requires Valid() && state == Selector2 && v < Pow2(Need())
      modifies this, selectorMtf, selector
      ensures Valid()
      ensures forall rest :: Outcome(rest) == old(Outcome(BitsOf(v, Need()) + rest))
    {
      hide ReadSelectors, Val, BitsOf, UsedBytes, Pow2;
      SomeBits(v, 15);
      nSelectors := v;
      i, j := 0, 0;
      assert selectorMtf[..0] == [];
      state := if nSelectors < 1 then Failed else Selector3;
    }

    method FeedSelector3(v: nat)
      requires Valid() && state == Selector3 && v < Pow2(Need())
      modifies this, selectorMtf, selector
      ensures Valid()
      ensures forall rest :: Outcome(rest) == old(Outcome(BitsOf(v, Need()) + rest))
    {
      hide ReadTables, Val, BitsOf, UsedBytes, SymbolsOf;
      OneBit(v);
      if v == 0 {
        if i >= MAX_SELECTORS {
          state := Overrun;
          return;
        }
        ghost var ranks := selectorMtf[..i];
        selectorMtf[i] := j;
        assert selectorMtf[..i + 1] == ranks + [j];
        i, j := i + 1, 0;
        if i == nSelectors { EndSelectors(); }
      } else {
        j := j + 1;
        if j >= nGroups { state := Failed; }
      }
    }

    method EndSelectors()
      requires Sized() && MapKnown() && 2 <= nGroups <= 6 && i == nSelectors <= MAX_SELECTORS && RanksWithin(selectorMtf[..i], nGroups)
      modifies this, selector
      ensures Valid()
      ensures forall rest :: Outcome(rest) == old(ReadSelectors(max, inUse, nGroups, nSelectors, selectorMtf[..i], 0, rest))
    {
      hide ReadTables, UsedBytes, SymbolsOf;
      SelectedRange(nGroups, selectorMtf[..i]);
      UndoSelectors(nGroups, selectorMtf, selector, nSelectors);
      len, state := [], Coding1;
      assert F() == Frame(max, inUse, Selected(nGroups, selectorMtf[..i]), nGroups);
    }

    method FeedCoding1(v: nat)
      requires Valid() && state == Coding1 && v < Pow2(Need())
      modifies this, selectorMtf, selector
      ensures Valid()
      ensures forall rest :: Outcome(rest) == old(Outcome(BitsOf(v, Need()) + rest))
    {
      hide ReadLengths, ReadData, Val, BitsOf, UsedBytes, Pow2;
      SomeBits(v, 5);
      curr, part := v, [];
      NextLength();
    }

    method FeedCoding2(v: nat)
      requires Valid() && state == Coding2 && v < Pow2(Need())
      modifies this, selectorMtf, selector
      ensures Valid()
      ensures forall rest :: Outcome(rest) == old(Outcome(BitsOf(v, Need()) + rest))
    {
      hide ReadTables, ReadDelta, Val, BitsOf, UsedBytes, ValidTables;
      OneBit(v);
      if v == 0 {
        part := part + [curr];
        NextLength();
      } else {
        state := Coding3;
      }
    }

    method FeedCoding3(v: nat)
      requires Valid() && state == Coding3 && v < Pow2(Need())
      modifies this, selectorMtf, selector
      ensures Valid()
      ensures forall rest :: Outcome(rest) == old(Outcome(BitsOf(v, Need()) + rest))
    {
      hide ReadTables, ReadLengths, Val, BitsOf, UsedBytes, ValidTables;
      OneBit(v);
      if v == 0 { curr := curr + 1; } else { curr := curr - 1; }
      NextLength();
    }

    /** Before the next bit of a code length: the table may be complete, or curr out of range. */
    method NextLength()
      requires Sized() && Coding() && |len| < nGroups && ValidPart(F(), part)
      modifies this
      ensures Valid()
      ensures forall rest :: Outcome(rest) == old(ReadLengths(F(), len, part, curr, rest))
    {
      hide ReadTables, ReadDelta, UsedBytes;
      if |part| == |seqToUnseq| + 2 {
        len := len + [part];
        NextTable();
      } else if curr < 1 || curr > 20 {
        state := Failed;
      } else {
        state := Coding2;
      }
    }

    method NextTable()
      requires Sized() && Coding()
      modifies this
      ensures Valid()
      ensures forall rest :: Outcome(rest) == old(ReadTables(F(), len, rest))
    {
      hide ReadLengths, UsedBytes, TablesFor;
      if |len| < nGroups {
        state := Coding1;
        return;
      }
      tables, tops := [], [];
      var t := 0;
      while t < nGroups
        invariant t == |tables| == |tops| <= nGroups == |len| && Coding() && len == old(len) && F() == old(F())
        invariant forall k :: 0 <= k < t ==> TablesFor(tables[k], len[k], tops[k])
      {
        var table, top := BuildTable(len[t]);
        tables, tops := tables + [table], tops + [top];
        t := t + 1;
      }
      state := Ready;
    }
  }

  lemma OneBit(v: nat)
    requires v < Pow2(1)
    ensures v == 0 || v == 1
    ensures forall rest :: var b := BitsOf(v, 1) + rest; |b| > 0 && b[1..] == rest && b[0] == (v == 1)
  {
    assert BitsOf(v, 1) == [v % 2 == 1];
  }

  lemma SomeBits(v: nat, n: nat)
    requires v < Pow2(n)
    ensures forall rest :: var b := BitsOf(v, n) + rest; |b| >= n && Val(b[..n]) == v && b[n..] == rest
  {
    ValOfBits(v, n);
    assert forall rest :: (BitsOf(v, n) + rest)[..n] == BitsOf(v, n);
  }

  /** Bytes of an unused sixteen are not in the stream. */
  lemma {:induction false} SkipUnused(max: nat, u16: seq<bool>, used: seq<bool>, k: nat, m: nat, rest: seq<bool>)
    requires |u16| == 16 && |used| == 256 && k <= m <= 256 && m % 16 == 0 && m - 16 <= k && (k < m ==> !u16[k / 16])
    requires forall x :: k <= x < m ==> !used[x]
    ensures ReadUsed(max, u16, used[..k], rest) == ReadUsed(max, u16, used[..m], rest)
    decreases m - k
  {
    if k < m {
      hide ReadGroups, UsedBytes;
      assert used[..k] + [false] == used[..k + 1];
      SkipUnused(max, u16, used, k + 1, m, rest);
    }
  }

  lemma EndOfMapping(max: nat, u16: seq<bool>, used: seq<bool>, rest: seq<bool>)
    requires |u16| == 16 && |used| == 256
    ensures ReadUsed(max, u16, used, rest) == if |UsedBytes(used, 256)| == 0 then Bad else ReadGroups(max, used, rest)
  {
  }
}
