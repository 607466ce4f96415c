/** Receiving the MTF values (decompress.c): symbols are fetched bit by bit with the tables of
    the current group, runs are accumulated, and the column is written and counted.  The
    reader can stop before any bit and go on later. */
module SymbolReader {
  import opened Bits
  import opened Counting
  import InverseTransform
  import opened HuffmanCodes
  import opened Mtf
  import opened MtfEncode
  import opened MtfSegments
  import opened BlockFormat

  /** The list holds numbers below n in its first n places. */
  ghost predicate Numbers(list: seq<int>, n: nat) {
    n <= |list| && forall k :: 0 <= k < n ==> 0 <= list[k] < n
  }

  /** The bytes the first entries of the list stand for. */
  ghost function Bytes(names: seq<int>, list: seq<int>): (l: seq<int>)
    requires Numbers(list, |names|)
    ensures |l| == |names| && forall k :: 0 <= k < |l| ==> l[k] == names[list[k]]
  {
    seq(|names|, k requires 0 <= k < |names| => names[list[k]])
  }

  lemma BytesAtStart(names: seq<int>)
    requires |names| <= 256
    ensures Numbers(seq(256, i => i), |names|) && Bytes(names, seq(256, i => i)) == names
  {
  }

  lemma BytesMove(names: seq<int>, list: seq<int>, j: nat)
    requires Numbers(list, |names|) && j < |names|
    ensures Numbers(ToFront(list, j), |names|)
    ensures Bytes(names, ToFront(list, j)) == ToFront(Bytes(names, list), j)
  {
    var m := ToFront(list, j);
    assert forall k :: 0 <= k < |list| ==> m[k] == if k == 0 then list[j] else if k <= j then list[k - 1] else list[k];
  }

  /** unzftab counts the bytes of the column. */
  ghost predicate Tallied(unz: seq<int>, col: seq<int>) {
    && |unz| == 256 && IsColumn(col)
    && forall c :: 0 <= c < 256 ==> unz[c] == CountEq(col, |col|, c)
  }

  lemma TalliedSnoc(unz: seq<int>, col: seq<int>, x: int)
    requires Tallied(unz, col) && 0 <= x < 256
    ensures Tallied(unz[x := unz[x] + 1], col + [x])
  {
    forall c | 0 <= c < 256 ensures CountEq(col + [x], |col|, c) == CountEq(col, |col|, c) {
      CountEqPrefix(col, x, |col|, c);
    }
  }

  /** Where the reader waits: before the first symbol, inside a run, after a symbol; in each
      case for the shortest code (A) or for one more bit (B). */
  datatype Wait = FirstA | FirstB | RunA | RunB | NextA | NextB | Done | Failed

  class MtfReader {
    // the tables of the block
    const max: nat
    const seqToUnseq: seq<int>
    const selector: seq<int>
    const tables: seq<Tables>
    ghost const h: Header
    ghost const tops: seq<nat>

    // tt or ll16, whichever the decoder uses, and the symbol counts
    const cells: array<int>
    const unzftab: array<int>
    const mtf: MtfList
    var nblock: nat

    // what is saved when input runs out
    var state: Wait
    var groupNo: int
    var groupPos: int
    var es: int
    var N: nat
    var zn: nat
    var zvec: nat

    ghost predicate Fixed() {
      && ValidHeader(h) && seqToUnseq == UsedBytes(h.used, 256) && 1 <= |seqToUnseq| <= 256
      && selector == h.sel && max <= cells.Length && unzftab.Length == 256
      && |tables| == |h.lens| == |tops|
      && (forall i :: 0 <= i < |selector| ==> 0 <= selector[i] < |tables|)
      && (forall t :: 0 <= t < |tables| ==> TablesFor(tables[t], h.lens[t], tops[t]))
      && unzftab != cells && mtf.mtfa !in {cells, unzftab} && mtf.mtfbase !in {cells, unzftab}
    }

    /** The list and the column with its counts. */
    ghost predicate Kept()
      requires Fixed()
      reads this`nblock, cells, unzftab, mtf.mtfa, mtf.mtfbase
      ensures Kept() ==> nblock <= max
    {
      && mtf.Valid() && Numbers(mtf.List(), |seqToUnseq|)
      && nblock <= max && Tallied(unzftab[..], cells[..nblock])
    }

    /** The data phase, with symbols fetched, run and weight as given. */
    ghost function At(count: nat, run: nat, weight: nat): (d: Data)
      requires Fixed() && Kept()
      reads this`nblock, cells, unzftab, mtf.mtfa, mtf.mtfbase
      ensures ValidData(h, d) && d.count == count && d.run == run && d.weight == weight
    {
      Data(count, Bytes(seqToUnseq, mtf.List()), cells[..nblock], run, weight)
    }

    predicate InRun() reads this`state { state == RunA || state == RunB }

    ghost predicate Waiting() reads this`state { state != Done && state != Failed }

    ghost predicate Shortest() reads this`state { state == FirstA || state == RunA || state == NextA }

    /** Symbols whose fetching has begun. */
    ghost function Count(): int
      reads this`groupNo, this`groupPos
    {
      G_SIZE * (groupNo + 1) - groupPos
    }

    ghost predicate Grouped()
      reads this`groupNo, this`groupPos
    {
      -1 <= groupNo < |selector| && 0 <= groupPos < G_SIZE && (groupNo == -1 ==> groupPos == 0)
    }

    /** The code lengths in force and the table made from them. */
    ghost predicate CodePart(g: int)
      requires Fixed() && 0 <= g < |selector|
      reads this`state, this`zn, this`zvec
    {
      var t := selector[g];
      && (Shortest() ==> zn == tables[t].minLen)
      && (!Shortest() ==> tables[t].minLen < zn && First(h.lens[t], zn) <= 2 * zvec && (zn > tops[t] ==> zvec >= 1))
    }

    ghost predicate Valid()
      reads this, cells, unzftab, mtf.mtfa, mtf.mtfbase
    {
      && Fixed() && (state != Failed ==> Kept())
      && (Waiting() ==> Grouped() && groupNo >= 0 && CodePart(groupNo))
      && (InRun() ==> es >= 0 && N >= 1)
    }

    ghost function Now(): (d: Data)
      requires Fixed() && Kept() && Grouped() && groupNo >= 0 && (InRun() ==> es >= -1)
      reads this`state, this`groupNo, this`groupPos, this`es, this`N, this`nblock, cells, unzftab, mtf.mtfa, mtf.mtfbase
      ensures ValidData(h, d) && d.count / G_SIZE == groupNo
    {
      At(Count() - 1, if InRun() then es + 1 else 0, if InRun() then N else 1)
    }

    /** zn bits of a code have been read as z. */
    ghost predicate Comparing(z: nat)
      reads this`state, this`groupNo, this`groupPos, this`es, this`N, this`nblock, this`zn, cells, unzftab, mtf.mtfa, mtf.mtfbase
    {
      && Fixed() && Kept() && Waiting() && Grouped() && groupNo >= 0 && (InRun() ==> es >= 0 && N >= 1)
      && tables[selector[groupNo]].minLen <= zn && First(h.lens[selector[groupNo]], zn) <= z
      && (zn > tops[selector[groupNo]] ==> z >= 1)
    }

    /** What the decoder makes of the bits to come then. */
    ghost function Compared(z: nat, bits: seq<bool>): Parse<seq<int>>
      requires Comparing(z)
      reads this`state, this`groupNo, this`groupPos, this`es, this`N, this`nblock, this`zn, cells, unzftab, mtf.mtfa, mtf.mtfbase
    {
      hide TablesFor, Kept, ReadFrom, First, ValidData, Now;
      ReadFrom(h, max, Now(), zn, z, bits)
    }

    /** What the decoder makes of the bits to come. */
    ghost function Outcome(bits: seq<bool>): Parse<seq<int>>
      requires Valid()
      reads this, cells, unzftab, mtf.mtfa, mtf.mtfbase
    {
      hide TablesFor, Kept, ReadData, ReadMore, First, ValidData, Now;
      if state == Failed then Bad
      else if state == Done then Got(cells[..nblock], bits)
      else if Shortest() then ReadData(h, max, Now(), bits)
      else
        ReadMore(h, max, Now(), zn, zvec, bits)
    }

    constructor (max: nat, seqToUnseq: seq<int>, selector: seq<int>, tables: seq<Tables>,
                 cells: array<int>, ghost h: Header, ghost tops: seq<nat>)
      requires ValidHeader(h) && seqToUnseq == UsedBytes(h.used, 256)
      requires selector == h.sel && max <= cells.Length && |tables| == |h.lens| == |tops|
      requires forall t :: 0 <= t < |tables| ==> TablesFor(tables[t], h.lens[t], tops[t])
      ensures Valid() && this.cells == cells && this.max == max
      ensures fresh(unzftab) && fresh(mtf) && fresh(mtf.mtfa) && fresh(mtf.mtfbase)
      ensures forall rest :: Outcome(rest) == ReadData(h, max, DataStart(h.used), rest)
    {
      hide TablesFor, UsedBytes, ReadData, CountEq;
      this.max, this.seqToUnseq, this.selector, this.tables := max, seqToUnseq, selector, tables;
      this.cells, this.h, this.tops := cells, h, tops;
      unzftab := new int[256](_ => 0);
      mtf := new MtfList();
      nblock, groupNo, groupPos, es, N, zn, zvec, state := 0, -1, 0, 0, 1, 0, 0, FirstA;
      new;
      BytesAtStart(seqToUnseq);
      NothingTallied(unzftab[..]);
      assert cells[..0] == [];
      BeginSymbol(FirstA);
    }

    /** The start of GET_MTF_VAL: at the end of a group the next table is selected. */
    method BeginSymbol(site: Wait)
      requires Fixed() && Kept() && Grouped() && (site == FirstA || site == RunA || site == NextA) && (site == RunA ==> es >= 0 && N >= 1)
      modifies this`groupNo, this`groupPos, this`zn, this`state
      ensures Valid()
      ensures forall rest :: Outcome(rest) == old(ReadData(h, max, At(Count(), if site == RunA then es + 1 else 0,
                                                       if site == RunA then N else 1), rest))
    {
      hide TablesFor, At, Kept, ReadData, ValidHeader;
      ghost var d := At(Count(), if site == RunA then es + 1 else 0, if site == RunA then N else 1);
      var more := SelectGroup();
      if !more {
        forall rest { NoMoreGroups(h, max, d, rest); }
        state := Failed;
        return;
      }
      OpenSymbol(site);
    }

    method OpenSymbol(site: Wait)
      requires Fixed() && Kept() && 0 <= groupNo < |selector| && 0 < groupPos <= G_SIZE
      requires (site == FirstA || site == RunA || site == NextA) && (site == RunA ==> es >= 0 && N >= 1)
      modifies this`groupPos, this`zn, this`state
      ensures Valid()
      ensures forall rest :: Outcome(rest) == old(ReadData(h, max, At(Count(), if site == RunA then es + 1 else 0,
                                                       if site == RunA then N else 1), rest))
    {
      hide TablesFor, At, Kept, ReadData, ValidHeader;
      state := site;
      groupPos := groupPos - 1;
      zn := tables[selector[groupNo]].minLen;
    }

    method SelectGroup() returns (more: bool)
      requires Grouped()
      modifies this`groupNo, this`groupPos
      ensures old(Count()) == if more then Count() else G_SIZE * |selector|
      ensures more ==> 0 <= groupNo < |selector| && 0 < groupPos <= G_SIZE
    {
      if groupPos == 0 {
        groupNo := groupNo + 1;
        if groupNo >= |selector| { return false; }
        groupPos := G_SIZE;
      }
      more := true;
    }

    /** How many bits the reader waits for. */
    method Needed() returns (n: nat)
      requires Valid() && Waiting()
      ensures n == Need() && 1 <= n <= 20
    {
      n := if state == FirstA || state == RunA || state == NextA then zn else 1;
    }

    ghost function Need(): nat
      reads this`state, this`zn
    {
      if Shortest() then zn else 1
    }

    /** The column is complete and counted. */
    lemma Finished()
      requires Valid() && state == Done
      ensures nblock <= max <= cells.Length && unzftab != cells && Tallied(unzftab[..], cells[..nblock])
      ensures forall bits :: Outcome(bits) == Got(cells[..nblock], bits)
    {
    }

    /** With fewer bits than it needs the reader has to wait. */
    lemma Starved(bits: seq<bool>)
      requires Valid() && Waiting() && |bits| < Need()
      ensures Outcome(bits) == Short
    {
      hide TablesFor, At, Kept, First, ReadFrom;
      if Shortest() {
          StarvedSymbol(tables[selector[groupNo]], h.lens[selector[groupNo]], tops[selector[groupNo]], bits);
      }
    }

    /** What the bits waited for do: as many as the shortest code has, or one more. */
    lemma FirstBits(v: nat)
      requires Valid() && Waiting() && Shortest() && v < Pow2(zn)
      ensures Comparing(v) && forall rest :: Outcome(BitsOf(v, zn) + rest) == Compared(v, rest)
    {
      hide TablesFor, At, Kept, ReadData, ReadFrom, ValidHeader, First, Pow2, BitsOf;
      ShortestRead(h, max, Now(), tables[selector[groupNo]], tops[selector[groupNo]], v);
    }

    lemma NextBit(v: nat)
      requires Valid() && Waiting() && !Shortest() && v < Pow2(1)
      ensures Comparing(zvec * 2 + v) && forall rest :: Outcome(BitsOf(v, 1) + rest) == Compared(zvec * 2 + v, rest)
    {
      hide TablesFor, At, Kept, ReadData, ReadFrom, ValidHeader, First, Pow2, BitsOf;
      OneBit(v);
    }

    /** The bits waited for have arrived. */
    method Feed(v: nat)
      requires Valid() && Waiting() && v < Pow2(Need())
      modifies this, cells, unzftab, mtf.mtfa, mtf.mtfbase
      ensures Valid()
      ensures forall rest :: Outcome(rest) == old(Outcome(BitsOf(v, Need()) + rest))
    {
      hide Valid, Comparing, Compared, Outcome, Pow2, BitsOf;
      if state == FirstA || state == RunA || state == NextA {
        FirstBits(v);
        zvec := v;
      } else {
        NextBit(v);
        zvec := zvec * 2 + v;
      }
      Compare();
    }

    /** zn bits of a code have been read as zvec: either they are a code or one more is needed. */
    method Compare()
      requires Comparing(zvec)
      modifies this, cells, unzftab, mtf.mtfa, mtf.mtfbase
      ensures Valid()
      ensures forall rest :: Outcome(rest) == old(Compared(zvec, rest))
    {
      hide TablesFor, At, Kept, ReadData, ReadAfter, ReadFrom, ReadMore, ValidHeader, First;
      var t := tables[selector[groupNo]];
      CompareStep(h, max, Now(), t, tops[selector[groupNo]], zn, zvec);
      if zn > 20 {
        state := Failed;
        return;
      }
      if zvec <= t.limit[zn] {
        var k := zvec - t.base[zn];
        // the source's range check on k never fires
        if k < 0 || k >= MAX_ALPHA_SIZE { assert false; }
        Take(t.perm[k]);
      } else {
        OneMore();
      }
    }

    /** One more bit of the code is needed. */
    method OneMore()
      requires Fixed() && Kept() && Waiting() && Grouped() && groupNo >= 0 && (InRun() ==> es >= 0 && N >= 1)
      requires tables[selector[groupNo]].minLen <= zn && First(h.lens[selector[groupNo]], zn + 1) <= 2 * zvec
      requires zn + 1 > tops[selector[groupNo]] ==> zvec >= 1
      modifies this`zn, this`state
      ensures Valid()
      ensures forall rest :: Outcome(rest) == old(ReadMore(h, max, Now(), zn + 1, zvec, rest))
    {
      hide TablesFor, At, Kept, ReadData, ReadMore, ValidHeader, First;
      zn := zn + 1;
      state := if state == FirstA || state == FirstB then FirstB else if InRun() then RunB else NextB;
    }

    /** A symbol has been fetched. */
    method Take(sym: int)
      requires Fixed() && Kept() && Waiting() && Grouped() && groupNo >= 0 && (InRun() ==> es >= 0 && N >= 1)
      requires 0 <= sym < |seqToUnseq| + 2
      modifies this, cells, unzftab, mtf.mtfa, mtf.mtfbase
      ensures Valid()
      ensures forall rest :: Outcome(rest) == old(ReadAfter(h, max, Now().(count := Count()), sym, rest))
    {
      hide TablesFor, Kept, ReadData, ReadAfter, ValidHeader;
      if InRun() {
        ghost var d := Now().(count := Count());
        if sym == RUNA || sym == RUNB {
          Digit(sym);
        } else {
          forall rest { AfterRun(h, max, d, sym, rest); }
          assert |d.out| == nblock;
          var ok := EndRun();
          if !ok {
            state := Failed;
            return;
          }
          Top(sym);
        }
      } else {
        Top(sym);
      }
    }

    /** The top of the loop over symbols, no run being open. */
    method Top(sym: int)
      requires Fixed() && Kept() && Grouped() && groupNo >= 0 && 0 <= sym < |seqToUnseq| + 2
      modifies this, cells, unzftab, mtf.mtfa, mtf.mtfbase
      ensures Valid()
      ensures forall rest :: Outcome(rest) == old(ReadAfter(h, max, At(Count(), 0, 1), sym, rest))
    {
      hide TablesFor, Kept, ReadData, ReadAfter, ValidHeader;
      ghost var d := At(Count(), 0, 1);
      if sym == |seqToUnseq| + 1 {
        forall rest { AfterNoRun(h, max, d, sym, rest); }
        state := Done;
      } else if sym == RUNA || sym == RUNB {
        es, N := -1, 1;
        Digit(sym);
      } else {
        Single(sym);
      }
    }

    /** One digit of a run length. */
    method Digit(sym: int)
      requires Fixed() && Kept() && Grouped() && groupNo >= 0 && es >= -1 && N >= 1 && (sym == RUNA || sym == RUNB)
      modifies this`state, this`es, this`N, this`groupNo, this`groupPos, this`zn
      ensures Valid()
      ensures forall rest :: Outcome(rest) == old(ReadAfter(h, max, At(Count(), es + 1, N), sym, rest))
    {
      hide TablesFor, Kept, ReadData, ValidHeader, UsedBytes;
      if N >= RUN_LIMIT {
        state := Failed;
        return;
      }
      if sym == RUNA { es := es + (0 + 1) * N; } else if sym == RUNB { es := es + (1 + 1) * N; }
      N := N * 2;
      BeginSymbol(RunA);
    }

    /** The run is over: its byte fills es more places of the column. */
    method EndRun() returns (ok: bool)
      requires Fixed() && Kept() && es >= 0
      modifies this`nblock, this`es, cells, unzftab
      ensures ok <==> old(nblock + es + 1) <= max
      ensures ok ==> Kept() && mtf.List() == old(mtf.List())
      ensures ok ==> cells[..nblock] == old(cells[..nblock]) + Copies(old(Bytes(seqToUnseq, mtf.List())[0]), old(es + 1))
    {
      es := es + 1;
      var front := mtf.Front();
      var uc := seqToUnseq[front];
      ghost var col := cells[..nblock];
      ghost var run := es;
      unzftab[uc] := unzftab[uc] + es;
      assert unzftab[..][uc := unzftab[uc] - es] == old(unzftab[..]);
      ok := true;
      while es > 0
        invariant 0 <= es <= run && nblock <= max && nblock + es == |col| + run && 0 <= uc < 256
        invariant cells[..nblock] == col + Copies(uc, run - es)
        invariant Tallied(unzftab[..][uc := unzftab[uc] - es], cells[..nblock])
        decreases es
      {
        if nblock >= max { return false; }
        TalliedSnoc(unzftab[..][uc := unzftab[uc] - es], cells[..nblock], uc);
        cells[nblock] := uc;
        nblock := nblock + 1;
        es := es - 1;
        assert cells[..nblock] == cells[..nblock - 1] + [uc];
        assert Copies(uc, run - es) == Copies(uc, run - es - 1) + [uc];
        assert unzftab[..][uc := unzftab[uc] - es] == unzftab[..][uc := unzftab[uc] - es - 1][uc := unzftab[uc] - es];
      }
      assert unzftab[..][uc := unzftab[uc] - es] == unzftab[..];
    }

    /** A symbol that is not part of a run. */
    method Single(sym: int)
      requires Fixed() && Kept() && Grouped() && groupNo >= 0 && 2 <= sym <= |seqToUnseq|
      modifies this, cells, unzftab, mtf.mtfa, mtf.mtfbase
      ensures Valid()
      ensures forall rest :: Outcome(rest) == old(ReadAfter(h, max, At(Count(), 0, 1), sym, rest))
    {
      hide TablesFor, ReadData, ReadAfter, ValidHeader, Kept;
      forall rest { AfterSingle(h, max, At(Count(), 0, 1), sym, rest); }
      assert |At(Count(), 0, 1).out| == nblock;
      if nblock >= max {
        state := Failed;
        return;
      }
      Store(sym - 1);
      BeginSymbol(NextA);
    }

    method Store(nn: nat)
      requires Fixed() && Kept() && nn < |seqToUnseq| && nblock < max
      modifies this`nblock, cells, unzftab, mtf.mtfa, mtf.mtfbase
      ensures Kept() && Bytes(seqToUnseq, mtf.List()) == ToFront(old(Bytes(seqToUnseq, mtf.List())), nn)
      ensures cells[..nblock] == old(cells[..nblock]) + [old(Bytes(seqToUnseq, mtf.List()))[nn]]
    {
      BytesMove(seqToUnseq, mtf.List(), nn);
      var uc := mtf.Fetch(nn);
      TalliedSnoc(unzftab[..], cells[..nblock], seqToUnseq[uc]);
      ghost var unz := unzftab[..];
      unzftab[seqToUnseq[uc]] := unzftab[seqToUnseq[uc]] + 1;
      assert unzftab[..] == unz[seqToUnseq[uc] := unz[seqToUnseq[uc]] + 1];
      cells[nblock] := seqToUnseq[uc];
      nblock := nblock + 1;
      assert cells[..nblock] == cells[..nblock - 1] + [seqToUnseq[uc]];
    }
  }

  /** Reading a symbol with the table, one comparison at a time. */
  lemma TableUsed(t: Tables, lens: seq<int>, top: nat, n: nat, zvec: nat)
    requires TablesFor(t, lens, top) && t.minLen <= n <= 20
    requires First(lens, n) <= zvec && (n > top ==> zvec >= 1)
    ensures |t.limit| == |t.base| == |t.perm| == MAX_ALPHA_SIZE
    ensures zvec <= t.limit[n] ==>
              var k := zvec - t.base[n];
              && 0 <= k < MAX_ALPHA_SIZE && 0 <= t.perm[k] < |lens|
              && forall rest :: Symbol(lens, n, zvec, rest) == Got(t.perm[k], rest)
    ensures zvec > t.limit[n] ==>
              && First(lens, n + 1) <= 2 * zvec && (n >= top ==> zvec >= 1)
              && forall rest :: Symbol(lens, n, zvec, rest)
                   == if |rest| == 0 then Short else Symbol(lens, n + 1, 2 * zvec + Bit(rest[0]), rest[1..])
  {
    hide First, CountEq, CountLt, InverseTransform.Link, InverseTransform.Rank;
    TableStep(t, lens, top, n, zvec);
  }

  /** The loop of GET_MTF_VAL goes round once. */
  lemma CompareStep(h: Header, max: nat, d: Data, t: Tables, top: nat, n: nat, zvec: nat)
    requires ValidHeader(h) && ValidData(h, d) && d.count / G_SIZE < |h.sel|
    requires TablesFor(t, h.lens[h.sel[d.count / G_SIZE]], top) && t.minLen <= n
    requires First(h.lens[h.sel[d.count / G_SIZE]], n) <= zvec && (n > top ==> zvec >= 1)
    ensures |t.limit| == |t.base| == |t.perm| == MAX_ALPHA_SIZE
    ensures n > 20 ==> forall rest :: ReadFrom(h, max, d, n, zvec, rest) == Bad
    ensures n <= 20 && zvec <= t.limit[n] ==>
              var k := zvec - t.base[n];
              && 0 <= k < MAX_ALPHA_SIZE && 0 <= t.perm[k] < |UsedBytes(h.used, 256)| + 2
              && forall rest :: ReadFrom(h, max, d, n, zvec, rest)
                             == ReadAfter(h, max, d.(count := d.count + 1), t.perm[k], rest)
    ensures n <= 20 && zvec > t.limit[n] ==>
              && First(h.lens[h.sel[d.count / G_SIZE]], n + 1) <= 2 * zvec && (n >= top ==> zvec >= 1)
              && forall rest :: ReadFrom(h, max, d, n, zvec, rest) == ReadMore(h, max, d, n + 1, zvec, rest)
  {
    var len := h.lens[h.sel[d.count / G_SIZE]];
    if n <= 20 {
      hide Symbol, First, ReadAfter, TablesFor;
      TableUsed(t, len, top, n, zvec);
      LengthCount(h, h.sel[d.count / G_SIZE]);
    }
  }

  lemma StarvedSymbol(t: Tables, lens: seq<int>, top: nat, bits: seq<bool>)
    requires TablesFor(t, lens, top) && |bits| < t.minLen
    ensures ReadSymbol(lens, bits) == Short
  {
    hide First, CountEq, CountLt, InverseTransform.Rank, Symbol, Val;
    SymbolCollects(lens, t.minLen, 0, bits, bits);
    assert bits[..0] == [] && bits[0..] == bits;
    EmptyVal();
  }

  /** As many bits as the shortest code has. */
  lemma ShortestRead(h: Header, max: nat, d: Data, t: Tables, top: nat, v: nat)
    requires ValidHeader(h) && ValidData(h, d) && d.count / G_SIZE < |h.sel|
    requires TablesFor(t, h.lens[h.sel[d.count / G_SIZE]], top) && v < Pow2(t.minLen)
    ensures First(h.lens[h.sel[d.count / G_SIZE]], t.minLen) == 0 && t.minLen <= top
    ensures forall rest :: ReadData(h, max, d, BitsOf(v, t.minLen) + rest) == ReadFrom(h, max, d, t.minLen, v, rest)
  {
    var len := h.lens[h.sel[d.count / G_SIZE]];
    hide First, CountEq, CountLt, InverseTransform.Rank, Symbol, ReadAfter, Val, BitsOf, Pow2;
    assert t.minLen <= len[0] <= top;
    ValOfBits(v, t.minLen);
    assert Val([]) == 0 by { EmptyVal(); }
    SymbolCollects(len, t.minLen, 0, [], []);
    forall rest ensures ReadData(h, max, d, BitsOf(v, t.minLen) + rest) == ReadFrom(h, max, d, t.minLen, v, rest) {
      var all := BitsOf(v, t.minLen) + rest;
      assert all[..t.minLen] == BitsOf(v, t.minLen) && all[t.minLen..] == rest && all[..0] == [] && all[0..] == all;
      SymbolCollects(len, t.minLen, 0, all, all);
    }
  }

  lemma EmptyVal()
    ensures Val([]) == 0
  {
  }

  lemma OneBit(v: nat)
    requires v < Pow2(1)
    ensures forall rest :: var b := BitsOf(v, 1) + rest; |b| > 0 && b[1..] == rest && Bit(b[0]) == v
  {
    assert BitsOf(v, 1) == [v % 2 == 1];
  }

  lemma AfterSingle(h: Header, max: nat, d: Data, sym: int, bits: seq<bool>)
    requires ValidHeader(h) && ValidData(h, d) && 2 <= sym <= InUse(h.used) && d.run == 0
    ensures ReadAfter(h, max, d, sym, bits)
         == if |d.out| >= max then Bad
            else ReadData(h, max, Data(d.count, ToFront(d.list, sym - 1), d.out + [d.list[sym - 1]], 0, 1), bits)
  {
    hide ReadData, InUse;
    assert Flushed(d).out == d.out;
  }

  lemma LengthCount(h: Header, t: int)
    requires ValidHeader(h) && 0 <= t < |h.lens|
    ensures |h.lens[t]| == |UsedBytes(h.used, 256)| + 2
  {
  }

  lemma AfterRun(h: Header, max: nat, d: Data, sym: int, bits: seq<bool>)
    requires ValidHeader(h) && ValidData(h, d) && 2 <= sym < InUse(h.used) + 2 && d.run > 0
    ensures ReadAfter(h, max, d, sym, bits)
         == if |d.out| + d.run > max then Bad
            else ReadAfter(h, max, Data(d.count, d.list, d.out + Copies(d.list[0], d.run), 0, 1), sym, bits)
  {
    hide ReadData, InUse;
    var f := Flushed(d);
    assert Flushed(f) == f;
  }

  lemma AfterNoRun(h: Header, max: nat, d: Data, sym: int, bits: seq<bool>)
    requires ValidHeader(h) && ValidData(h, d) && sym == InUse(h.used) + 1 && d.run == 0
    ensures ReadAfter(h, max, d, sym, bits) == Got(d.out, bits)
  {
    hide ReadData, InUse;
    assert Flushed(d).out == d.out;
  }

  lemma NoMoreGroups(h: Header, max: nat, d: Data, bits: seq<bool>)
    requires ValidHeader(h) && ValidData(h, d) && d.count >= G_SIZE * |h.sel|
    ensures ReadData(h, max, d, bits) == Bad
  {
  }

  lemma NothingTallied(unz: seq<int>)
    requires |unz| == 256 && forall c :: 0 <= c < 256 ==> unz[c] == 0
    ensures Tallied(unz, [])
  {
  }
}
