/** Emitting a decoded block (bzlib.c): the inverse transform is walked one symbol at a
    time, run lengths are expanded, and the output stops wherever the caller's buffer ends.
    The fast and the small decoder have different control flow and meet one contract. */
module BlockOutput {
  import opened Counting
  import opened InverseTransform
  import opened RunLength
  import opened BlockCrc
  import opened DecodeTables

  class DState {
    const blockSize100k: nat
    const tt: array<int>
    const ll16: array<int>
    const ll4: array<int>
    const cftab: array<int>
    const saveNblock: nat
    var tPos: int
    var k0: int
    var nblockUsed: nat
    var stateOutCh: int
    var stateOutLen: nat
    var calculatedBlockCRC: CrcWord

    /** The last column, the row whose successor is read next, and (small decoder) the
        reversed table with its cycle. */
    ghost const col: seq<int>
    ghost const table: seq<int>
    ghost const cyc: set<int>
    ghost var pos: int

    ghost predicate Framed()
      reads `pos
    {
      && |col| == saveNblock && 0 < saveNblock <= 100000 * blockSize100k
      && IsColumn(col) && 0 <= pos < |col|
    }

    ghost predicate FastTable()
      reads tt
    {
      && saveNblock == |col| <= tt.Length
      && (forall p :: 0 <= p < |col| ==> tt[p] == col[p] + 256 * Link(col, p))
    }

    ghost predicate SmallTable()
      reads ll16, ll4, cftab
    {
      && Table(ll16, ll4, table) && |table| == saveNblock
      && cftab.Length == 257 && IsCumulative(cftab[..], col)
      && LinkedCycle(col, table, cyc)
    }

    lemma FastEntry(p: nat)
      requires FastTable() && IsColumn(col) && p < |col|
      ensures p < tt.Length && tt[p] % 256 == col[p] && tt[p] / 256 == Link(col, p)
      ensures 0 <= col[p] < 256
    {
      hide Link, Rank;
      PackedByte(col, p, Link(col, p));
    }

    ghost predicate FastReady()
      reads `pos, `tPos, tt
      ensures FastReady() ==> Framed()
    {
      && Framed() && FastTable()
      && tPos == Link(col, pos)
    }

    ghost predicate SmallReady()
      reads `pos, `tPos, ll16, ll4, cftab
      ensures SmallReady() ==> Framed()
    {
      && Framed() && SmallTable()
      && pos in cyc && tPos == pos
    }

    /** The end of BZ2_decompress for the fast decoder: cftab, the links, the first symbol. */
    constructor StartFast(tt: array<int>, unzftab: array<int>, nblock: nat, origPtr: nat, blockSize100k: nat)
      requires origPtr < nblock <= 100000 * blockSize100k && nblock <= tt.Length && unzftab != tt
      requires IsColumn(tt[..nblock]) && unzftab.Length == 256
      requires forall c :: 0 <= c < 256 ==> unzftab[c] == CountEq(tt[..nblock], nblock, c)
      modifies tt
      ensures FastReady() && saveNblock == nblock
      ensures this.tt == tt && fresh(this.ll16) && fresh(this.ll4) && fresh(cftab)
      ensures Remaining() == Spelt(Walk(old(tt[..nblock]), origPtr, nblock), SymbolAfter(old(tt[..nblock]), origPtr, nblock))
      ensures calculatedBlockCRC == INITIAL
    {
      hide Link, Walk, CountEq, CountLt, IsColumn, Spelt, SymbolAfter, Rank;
      ghost var col := tt[..nblock];
      var cftab := PrepareFast(tt, unzftab, nblock);
      this.tt, this.cftab, this.saveNblock, this.blockSize100k := tt, cftab, nblock, blockSize100k;
      ll16, ll4 := new int[0], new int[0];
      this.col, table, cyc := col, [], {};
      tPos := tt[origPtr] / 256;
      PackedByte(col, origPtr, Link(col, origPtr));
      pos, nblockUsed, k0 := origPtr, 0, 0;
      stateOutLen, stateOutCh, calculatedBlockCRC := 0, 0, INITIAL;
      new;
      assert FastReady();
      hide FastReady;
      var bad;
      assert Tail() == Walk(col, origPtr, nblock);
      k0, bad := TakeFast();
      NothingPending(stateOutCh, Coming());
    }

    /** The end of BZ2_decompress for the small decoder: cftab, T, pointer reversal, the first
        symbol. */
    constructor StartSmall(ll16: array<int>, ll4: array<int>, unzftab: array<int>, nblock: nat, origPtr: nat,
                           blockSize100k: nat)
      requires origPtr < nblock <= 100000 * blockSize100k && blockSize100k <= 9
      requires Packs(ll16, ll4, nblock) && unzftab != ll16 && unzftab != ll4
      requires forall k :: 0 <= k < (nblock + 1) / 2 ==> 0 <= ll4[k] < 256
      requires IsColumn(ll16[..nblock]) && unzftab.Length == 256
      requires forall c :: 0 <= c < 256 ==> unzftab[c] == CountEq(ll16[..nblock], nblock, c)
      modifies ll16, ll4
      ensures SmallReady() && saveNblock == nblock
      ensures this.ll16 == ll16 && this.ll4 == ll4 && fresh(this.tt) && fresh(cftab)
      ensures Remaining() == Spelt(Walk(old(ll16[..nblock]), origPtr, nblock), SymbolAfter(old(ll16[..nblock]), origPtr, nblock))
      ensures calculatedBlockCRC == INITIAL
    {
      hide Link, Walk, CountEq, CountLt, IsColumn, Spelt, SymbolAfter, Rank, Table, LinkedCycle, IsCumulative;
      ghost var col := ll16[..nblock];
      ghost var v, cyc;
      var cftab;
      cftab, v, cyc := PrepareSmall(ll16, ll4, unzftab, nblock, origPtr);
      this.ll16, this.ll4, this.cftab := ll16, ll4, cftab;
      this.saveNblock, this.blockSize100k := nblock, blockSize100k;
      tt := new int[0];
      this.col, table, this.cyc := col, v, cyc;
      tPos := origPtr;
      pos, nblockUsed, k0 := origPtr, 0, 0;
      stateOutLen, stateOutCh, calculatedBlockCRC := 0, 0, INITIAL;
      new;
      assert SmallReady();
      hide SmallReady;
      var bad;
      assert Tail() == Walk(col, origPtr, nblock);
      k0, bad := TakeSmall();
      NothingPending(stateOutCh, Coming());
    }

    /** BZ_GET_FAST_C: bad reports the range check on tPos. */
    method GetFast() returns (c: int, bad: bool)
      requires FastReady()
      modifies this`tPos, this`pos
      ensures FastReady() && !bad
      ensures pos == Link(col, old(pos)) && c == col[pos]
    {
      hide Link, FastTable, IsColumn, Rank;
      if tPos >= 100000 * blockSize100k { return 0, true; }
      var q;
      c, q := Unpack(tPos);
      pos := Link(col, pos);
      tPos := q;
      bad := false;
    }

    method Unpack(p: nat) returns (c: int, q: int)
      requires FastTable() && IsColumn(col) && p < |col|
      ensures c == col[p] && q == Link(col, p)
    {
      hide Link, FastTable, IsColumn, Rank;
      FastEntry(p);
      c, q := tt[p] % 256, tt[p] / 256;
    }

    /** BZ_GET_SMALL. */
    method GetSmall() returns (c: int, bad: bool)
      requires SmallReady()
      modifies this`tPos, this`pos
      ensures SmallReady() && !bad
      ensures pos == Link(col, old(pos)) && c == col[pos]
    {
      hide Link, SmallTable, IsColumn, Rank;
      if tPos >= 100000 * blockSize100k { return 0, true; }
      var q;
      c, q := Lookup(tPos);
      tPos := q;
      pos := Link(col, pos);
      bad := false;
    }

    method Lookup(p: nat) returns (c: int, q: int)
      requires SmallTable() && IsColumn(col) && p in cyc && p < |col|
      ensures q == Link(col, p) && q in cyc && c == col[Link(col, p)]
    {
      hide Link, IsCumulative, IsColumn, LinkedCycle, Table, Nibble, GetLL, Rank;
      IndexBracket(cftab[..], col);
      CycleStep(col, table, cyc, p);
      EntryOf(ll16, ll4, table, p);
      c := IndexIntoF(p, cftab);
      q := GetLL(ll16, ll4, p);
    }

    /** The symbols of the block that follow k0. */
    ghost function Tail(): seq<int>
      reads `pos, `nblockUsed
      requires Framed()
    {
      if nblockUsed > saveNblock then [] else Walk(col, pos, saveNblock - nblockUsed)
    }

    /** The symbols from k0 on. */
    ghost function Rest(): seq<int>
      reads `pos, `nblockUsed, `k0
      requires Framed()
    {
      if nblockUsed > saveNblock then [] else [k0] + Tail()
    }

    /** The symbol that follows the last of the block, where there is none. */
    ghost function Beyond(): int
      reads `pos, `nblockUsed
      requires Framed()
    {
      if nblockUsed > saveNblock then 0 else SymbolAfter(col, pos, saveNblock - nblockUsed)
    }

    /** What the symbols from k0 on stand for. */
    ghost function Coming(): Text
      reads `pos, `nblockUsed, `k0
      requires Framed()
    {
      if nblockUsed > saveNblock + 1 then Text([], false) else Spelt(Rest(), Beyond())
    }

    /** The bytes still to be written, and whether the block is whole. */
    ghost function Remaining(): Text
      reads `pos, `nblockUsed, `k0, `stateOutCh, `stateOutLen
      requires Framed()
    {
      Led(Rep(stateOutCh, stateOutLen), Coming())
    }

    /** What is coming once the rest of the symbols is known, or that there is none. */
    lemma ComingIs(rest: seq<int>, next: int, over: bool)
      requires Framed() && if over then nblockUsed > saveNblock + 1 else nblockUsed <= saveNblock + 1 && Rest() == rest
      requires nblockUsed <= saveNblock ==> Beyond() == next
      ensures Coming() == if over then Text([], false) else Spelt(rest, next)
    {
    }

    method TakeFast() returns (c: int, bad: bool)
      requires FastReady()
      modifies this`tPos, this`pos, this`nblockUsed
      ensures FastReady() && !bad && 0 <= c < 256
      ensures nblockUsed == old(nblockUsed) + 1
      ensures old(Tail()) == if nblockUsed > saveNblock then [] else [c] + Tail()
      ensures nblockUsed <= saveNblock ==> Beyond() == old(Beyond())
      ensures nblockUsed == saveNblock + 1 ==> c == old(Beyond())
    {
      hide Link, IsColumn, FastTable, SymbolAfter;
      ColumnByte(col);
      if nblockUsed <= saveNblock { SymbolAfterStep(col, pos, saveNblock - nblockUsed); }
      hide FastReady;
      c, bad := GetFast();
      nblockUsed := nblockUsed + 1;
    }

    method TakeSmall() returns (c: int, bad: bool)
      requires SmallReady()
      modifies this`tPos, this`pos, this`nblockUsed
      ensures SmallReady() && !bad && 0 <= c < 256
      ensures nblockUsed == old(nblockUsed) + 1
      ensures old(Tail()) == if nblockUsed > saveNblock then [] else [c] + Tail()
      ensures nblockUsed <= saveNblock ==> Beyond() == old(Beyond())
      ensures nblockUsed == saveNblock + 1 ==> c == old(Beyond())
    {
      hide Link, IsColumn, SmallTable, SymbolAfter;
      ColumnByte(col);
      if nblockUsed <= saveNblock { SymbolAfterStep(col, pos, saveNblock - nblockUsed); }
      hide SmallReady;
      c, bad := GetSmall();
      nblockUsed := nblockUsed + 1;
    }

    /** j equal symbols of the run s have been read: look at the next.  (For the first of the
        three looks the source tests the two conditions in the other order; k0 is then dead.) */
    method ExtendRunFast(j: nat, ghost s: seq<int>) returns (over: bool, bad: bool)
      requires FastReady() && nblockUsed <= saveNblock
      requires j >= 1 && s == Rep(k0, j) + Tail()
      modifies this`tPos, this`pos, this`nblockUsed, this`k0
      ensures FastReady() && !bad
      ensures over ==> nblockUsed <= saveNblock + 1 && EndsRun(old(k0), j, s, Rest())
      ensures nblockUsed <= saveNblock ==> Beyond() == old(Beyond())
      ensures !over ==> k0 == old(k0) && nblockUsed <= saveNblock && s == Rep(k0, j + 1) + Tail()
    {
      hide FastReady, Walk, Rep;
      var k1;
      ghost var c, t := k0, Tail();
      k1, bad := TakeFast();
      if bad { return false, true; }
      if nblockUsed == saveNblock + 1 {
        over := true;
        assert Rest() == t;
      } else if k1 != k0 {
        k0, over := k1, true;
        assert Rest() == t;
      } else {
        over := false;
        RepSucc(c, j);
      }
    }

    /** Begin the next run: second half of the loop of unRLE_obuf_to_output_FAST. */
    method StartRunFast() returns (bad: bool)
      requires FastReady() && nblockUsed <= saveNblock
      modifies this`tPos, this`pos, this`nblockUsed, this`k0, this`stateOutCh, this`stateOutLen
      ensures FastReady() && !bad && stateOutLen >= 1
      ensures Remaining() == Spelt(old(Rest()), old(Beyond()))
    {
      hide Walk, FastReady, Spelt, SymbolAfter, Rep, EndsRun;
      ghost var s, next := Rest(), Beyond();
      var over;
      RepOne(k0);
      stateOutCh, stateOutLen := k0, 1;
      over, bad := ExtendRunFast(1, s);
      if bad || over { ShortRunDone(stateOutCh, 1, s, Rest(), next, Beyond()); return; }
      stateOutLen := 2;
      over, bad := ExtendRunFast(2, s);
      if bad || over { ShortRunDone(stateOutCh, 2, s, Rest(), next, Beyond()); return; }
      stateOutLen := 3;
      over, bad := ExtendRunFast(3, s);
      if bad || over { ShortRunDone(stateOutCh, 3, s, Rest(), next, Beyond()); return; }
      bad := CountedRunFast(s);
    }

    /** Four equal symbols have been read: the next is a count, the one after starts a run. */
    method CountedRunFast(ghost s: seq<int>) returns (bad: bool)
      requires FastReady() && nblockUsed <= saveNblock
      requires s == Rep(stateOutCh, 4) + Tail()
      modifies this`tPos, this`pos, this`nblockUsed, this`k0, this`stateOutLen
      ensures FastReady() && !bad && stateOutLen >= 1
      ensures Remaining() == Spelt(s, old(Beyond()))
    {
      hide Walk, FastReady, Spelt, SymbolAfter, Rep;
      var k1;
      ghost var t, next := Tail(), Beyond();
      k1, bad := TakeFast();
      if bad { return; }
      stateOutLen := k1 + 4;
      k0, bad := TakeFast();
      if bad { return; }
      ComingIs(if |t| == 0 then [] else t[1..], next, |t| == 0);
      CountDone(stateOutCh, k1, s, t, next, Coming());
    }

    /** j equal symbols of the run s have been read: look at the next.  (For the first of the
        three looks the source tests the two conditions in the other order; k0 is then dead.) */
    method ExtendRunSmall(j: nat, ghost s: seq<int>) returns (over: bool, bad: bool)
      requires SmallReady() && nblockUsed <= saveNblock
      requires j >= 1 && s == Rep(k0, j) + Tail()
      modifies this`tPos, this`pos, this`nblockUsed, this`k0
      ensures SmallReady() && !bad
      ensures over ==> nblockUsed <= saveNblock + 1 && EndsRun(old(k0), j, s, Rest())
      ensures nblockUsed <= saveNblock ==> Beyond() == old(Beyond())
      ensures !over ==> k0 == old(k0) && nblockUsed <= saveNblock && s == Rep(k0, j + 1) + Tail()
    {
      hide SmallReady, Walk, Rep;
      var k1;
      ghost var c, t := k0, Tail();
      k1, bad := TakeSmall();
      if bad { return false, true; }
      if nblockUsed == saveNblock + 1 {
        over := true;
        assert Rest() == t;
      } else if k1 != k0 {
        k0, over := k1, true;
        assert Rest() == t;
      } else {
        over := false;
        RepSucc(c, j);
      }
    }

    /** Begin the next run: second half of the loop of unRLE_obuf_to_output_SMALL. */
    method StartRunSmall() returns (bad: bool)
      requires SmallReady() && nblockUsed <= saveNblock
      modifies this`tPos, this`pos, this`nblockUsed, this`k0, this`stateOutCh, this`stateOutLen
      ensures SmallReady() && !bad && stateOutLen >= 1
      ensures Remaining() == Spelt(old(Rest()), old(Beyond()))
    {
      hide Walk, SmallReady, Spelt, SymbolAfter, Rep, EndsRun;
      ghost var s, next := Rest(), Beyond();
      var over;
      RepOne(k0);
      stateOutCh, stateOutLen := k0, 1;
      over, bad := ExtendRunSmall(1, s);
      if bad || over { ShortRunDone(stateOutCh, 1, s, Rest(), next, Beyond()); return; }
      stateOutLen := 2;
      over, bad := ExtendRunSmall(2, s);
      if bad || over { ShortRunDone(stateOutCh, 2, s, Rest(), next, Beyond()); return; }
      stateOutLen := 3;
      over, bad := ExtendRunSmall(3, s);
      if bad || over { ShortRunDone(stateOutCh, 3, s, Rest(), next, Beyond()); return; }
      bad := CountedRunSmall(s);
    }

    /** Four equal symbols have been read: the next is a count, the one after starts a run. */
    method CountedRunSmall(ghost s: seq<int>) returns (bad: bool)
      requires SmallReady() && nblockUsed <= saveNblock
      requires s == Rep(stateOutCh, 4) + Tail()
      modifies this`tPos, this`pos, this`nblockUsed, this`k0, this`stateOutLen
      ensures SmallReady() && !bad && stateOutLen >= 1
      ensures Remaining() == Spelt(s, old(Beyond()))
    {
      hide Walk, SmallReady, Spelt, SymbolAfter, Rep;
      var k1;
      ghost var t, next := Tail(), Beyond();
      k1, bad := TakeSmall();
      if bad { return; }
      stateOutLen := k1 + 4;
      k0, bad := TakeSmall();
      if bad { return; }
      ComingIs(if |t| == 0 then [] else t[1..], next, |t| == 0);
      CountDone(stateOutCh, k1, s, t, next, Coming());
    }

    /** Write what is left of the current run, as far as the caller's buffer allows (fast). */
    method DrainFast(availOut: nat) returns (w: seq<int>, stopped: bool)
      requires stateOutLen > 0
      modifies this`stateOutLen, this`calculatedBlockCRC
      ensures w == Rep(stateOutCh, |w|) && |w| <= availOut
      ensures if stopped then |w| == availOut && stateOutLen == old(stateOutLen) - |w| > 0
              else |w| == old(stateOutLen)
      ensures calculatedBlockCRC == Fold(old(calculatedBlockCRC), w)
    {
      hide Update, Rep;
      RepZero(stateOutCh);
      w := [];
      while true
        invariant stateOutLen > 0 && stateOutLen + |w| == old(stateOutLen)
        invariant |w| <= availOut && w == Rep(stateOutCh, |w|)
        invariant calculatedBlockCRC == Fold(old(calculatedBlockCRC), w)
        decreases stateOutLen
      {
        if |w| == availOut { return w, true; }
        if stateOutLen == 1 { break; }
        w := Emit(w, old(calculatedBlockCRC));
        stateOutLen := stateOutLen - 1;
      }
      w := Emit(w, old(calculatedBlockCRC));
      stopped := false;
    }

    method Emit(w: seq<int>, ghost crc0: CrcWord) returns (w': seq<int>)
      requires w == Rep(stateOutCh, |w|) && calculatedBlockCRC == Fold(crc0, w)
      modifies this`calculatedBlockCRC
      ensures w' == Rep(stateOutCh, |w| + 1) && |w'| == |w| + 1
      ensures calculatedBlockCRC == Fold(crc0, w')
    {
      hide Update, Rep;
      FoldStep(crc0, w, stateOutCh);
      RepSucc(stateOutCh, |w|);
      w' := w + [stateOutCh];
      calculatedBlockCRC := Update(calculatedBlockCRC, stateOutCh);
    }

    /** Write what is left of the current run, as far as the caller's buffer allows (small). */
    method DrainSmall(availOut: nat) returns (w: seq<int>, stopped: bool)
      modifies this`stateOutLen, this`calculatedBlockCRC
      ensures w == Rep(stateOutCh, |w|) && |w| <= availOut
      ensures stateOutLen + |w| == old(stateOutLen)
      ensures if stopped then |w| == availOut else stateOutLen == 0
      ensures calculatedBlockCRC == Fold(old(calculatedBlockCRC), w)
    {
      hide Update, Rep;
      RepZero(stateOutCh);
      w := [];
      while true
        invariant stateOutLen + |w| == old(stateOutLen)
        invariant |w| <= availOut && w == Rep(stateOutCh, |w|)
        invariant calculatedBlockCRC == Fold(old(calculatedBlockCRC), w)
        decreases stateOutLen
      {
        if |w| == availOut { return w, true; }
        if stateOutLen == 0 { break; }
        w := Emit(w, old(calculatedBlockCRC));
        stateOutLen := stateOutLen - 1;
      }
      stopped := false;
    }

    method WriteFast(ghost r0: Text, ghost crc0: CrcWord, out: seq<int>, availOut: nat)
      returns (out': seq<int>, stopped: bool)
      requires FastReady() && |out| <= availOut && stateOutLen > 0
      requires Follows(r0, out, Remaining()) && calculatedBlockCRC == Fold(crc0, out)
      modifies this`stateOutLen, this`calculatedBlockCRC
      ensures FastReady() && |out| <= |out'| <= availOut && calculatedBlockCRC == Fold(crc0, out')
      ensures stopped ==> Wrote(r0, out', availOut, Remaining())
      ensures stopped ==> stateOutLen == 0 ==> (Remaining() == Text([], true) ==> nblockUsed == saveNblock + 1)
      ensures stopped ==> stateOutLen > 0 ==> Remaining() != Text([], true)
      ensures !stopped ==> Follows(r0, out', Coming()) && |out'| > |out|
    {
      hide FastReady, Spelt, SymbolAfter, Rep, Update, Walk, Wrote, Follows;
      ghost var len, coming := stateOutLen, Coming();
      var w;
      w, stopped := DrainFast(availOut - |out|);
      FoldConcat(crc0, out, w);
      RunWritten(r0, out, stateOutCh, len, |w|, coming);
      out' := out + w;
      if stopped { BufferFull(r0, out', availOut, Remaining()); StillPending(stateOutCh, stateOutLen, coming, Rest(), Beyond(), nblockUsed, saveNblock); }
    }

    method WriteSmall(ghost r0: Text, ghost crc0: CrcWord, out: seq<int>, availOut: nat)
      returns (out': seq<int>, stopped: bool)
      requires SmallReady() && |out| <= availOut
      requires Follows(r0, out, Remaining()) && calculatedBlockCRC == Fold(crc0, out)
      modifies this`stateOutLen, this`calculatedBlockCRC
      ensures SmallReady() && |out| <= |out'| <= availOut && calculatedBlockCRC == Fold(crc0, out')
      ensures stopped ==> Wrote(r0, out', availOut, Remaining())
      ensures stopped ==> stateOutLen == 0 ==> (Remaining() == Text([], true) ==> nblockUsed == saveNblock + 1)
      ensures stopped ==> stateOutLen > 0 ==> Remaining() != Text([], true)
      ensures !stopped ==> Follows(r0, out', Coming()) && stateOutLen == 0
      ensures !stopped && old(stateOutLen) > 0 ==> |out'| > |out|
    {
      hide SmallReady, Spelt, SymbolAfter, Rep, Update, Walk, Wrote, Follows;
      ghost var len, coming := stateOutLen, Coming();
      var w;
      w, stopped := DrainSmall(availOut - |out|);
      FoldConcat(crc0, out, w);
      RunWritten(r0, out, stateOutCh, len, |w|, coming);
      out' := out + w;
      if stopped { BufferFull(r0, out', availOut, Remaining()); StillPending(stateOutCh, stateOutLen, coming, Rest(), Beyond(), nblockUsed, saveNblock); }
    }

    /** The run is written: stop at the end of the block, report a block cut short, or go on. */
    method NextRunFast(ghost r0: Text, ghost out: seq<int>, ghost availOut: nat)
      returns (done: bool, corrupt: bool)
      requires FastReady() && |out| <= availOut && Follows(r0, out, Coming())
      modifies this`tPos, this`pos, this`nblockUsed, this`k0, this`stateOutCh, this`stateOutLen
      ensures FastReady() && (corrupt ==> r0 == Text(out, false))
      ensures done ==> !corrupt && Wrote(r0, out, availOut, Remaining()) && nblockUsed == saveNblock + 1 && stateOutLen == 0
      ensures !done && !corrupt ==> stateOutLen > 0 && Follows(r0, out, Remaining())
    {
      hide FastReady, Walk, Rep, Led;
      done, corrupt := false, false;
      if nblockUsed > saveNblock + 1 {
        CutShort(r0, out);
        corrupt := true;
        return;
      }
      if nblockUsed == saveNblock + 1 {
        stateOutLen, done := 0, true;
        NothingPending(stateOutCh, Coming());
        return;
      }
      corrupt := StartRunFast();
    }

    /** The run is written: stop at the end of the block, report a block cut short, or go on. */
    method NextRunSmall(ghost r0: Text, ghost out: seq<int>, ghost availOut: nat)
      returns (done: bool, corrupt: bool)
      requires SmallReady() && |out| <= availOut && Follows(r0, out, Coming())
      modifies this`tPos, this`pos, this`nblockUsed, this`k0, this`stateOutCh, this`stateOutLen
      ensures SmallReady() && (corrupt ==> r0 == Text(out, false))
      ensures done ==> !corrupt && Wrote(r0, out, availOut, Remaining()) && nblockUsed == saveNblock + 1 && stateOutLen == 0
      ensures !done && !corrupt ==> stateOutLen > 0 && Follows(r0, out, Remaining())
    {
      hide SmallReady, Walk, Rep, Led;
      done, corrupt := false, false;
      if nblockUsed == saveNblock + 1 {
        stateOutLen, done := 0, true;
        NothingPending(stateOutCh, Coming());
        return;
      }
      if nblockUsed > saveNblock + 1 {
        CutShort(r0, out);
        corrupt := true;
        return;
      }
      corrupt := StartRunSmall();
    }

    /** When the last run is written, nothing remains. */
    lemma Drained()
      requires Framed() && nblockUsed == saveNblock + 1 && stateOutLen == 0
      ensures Remaining() == Text([], true)
    {
      NothingPending(stateOutCh, Coming());
    }

    /** unRLE_obuf_to_output_FAST: whatever the size of the caller's buffer, the bytes written
        are the next bytes of the block, and a block cut short is reported in the end.  What was
        written in that last call is then not reported to the caller: next_out is not updated. */
    method UnRleFast(availOut: nat) returns (out: seq<int>, corrupt: bool)
      requires FastReady()
      modifies this`tPos, this`pos, this`nblockUsed, this`k0, this`stateOutCh, this`stateOutLen, this`calculatedBlockCRC
      ensures FastReady() && |out| <= availOut
      ensures corrupt ==> !old(Remaining()).whole && out == [] && |old(Remaining()).bytes| <= availOut
      ensures !corrupt ==> Wrote(old(Remaining()), out, availOut, Remaining())
      ensures !corrupt && Remaining() == Text([], true) ==> nblockUsed == saveNblock + 1 && stateOutLen == 0
      ensures !corrupt ==> calculatedBlockCRC == Fold(old(calculatedBlockCRC), out)
    {
      hide FastReady, Spelt, SymbolAfter, Rep, Update, Walk, Wrote, Follows, Led;
      ghost var r0 := Remaining();
      out, corrupt := [], false;
      NothingWritten(r0);
      while true
        invariant FastReady() && !corrupt
        invariant |out| <= availOut && Follows(r0, out, Remaining())
        invariant calculatedBlockCRC == Fold(old(calculatedBlockCRC), out)
        decreases availOut - |out|, if stateOutLen > 0 then 0 else 1
      {
        NothingPending(stateOutCh, Coming());
        if stateOutLen > 0 {
          var stopped;
          out, stopped := WriteFast(r0, old(calculatedBlockCRC), out, availOut);
          if stopped { return; }
        }
        var done;
        done, corrupt := NextRunFast(r0, out, availOut);
        if corrupt { return [], true; }
        if done { return; }
      }
    }

    /** unRLE_obuf_to_output_SMALL: whatever the size of the caller's buffer, the bytes written
        are the next bytes of the block, and a block cut short is reported in the end. */
    method UnRleSmall(availOut: nat) returns (out: seq<int>, corrupt: bool)
      requires SmallReady()
      modifies this`tPos, this`pos, this`nblockUsed, this`k0, this`stateOutCh, this`stateOutLen, this`calculatedBlockCRC
      ensures SmallReady() && |out| <= availOut
      ensures corrupt ==> old(Remaining()) == Text(out, false)
      ensures !corrupt ==> Wrote(old(Remaining()), out, availOut, Remaining())
      ensures !corrupt && Remaining() == Text([], true) ==> nblockUsed == saveNblock + 1 && stateOutLen == 0
      ensures calculatedBlockCRC == Fold(old(calculatedBlockCRC), out)
    {
      hide SmallReady, Spelt, SymbolAfter, Rep, Update, Walk, Wrote, Follows, Led;
      ghost var r0 := Remaining();
      out, corrupt := [], false;
      NothingWritten(r0);
      while true
        invariant SmallReady() && !corrupt
        invariant |out| <= availOut && Follows(r0, out, Remaining())
        invariant calculatedBlockCRC == Fold(old(calculatedBlockCRC), out)
        decreases availOut - |out|, if stateOutLen > 0 then 0 else 1
      {
        var stopped;
        out, stopped := WriteSmall(r0, old(calculatedBlockCRC), out, availOut);
        if stopped { return; }
        var done;
        done, corrupt := NextRunSmall(r0, out, availOut);
        if done || corrupt { return; }
      }
    }

  }

  /** r0 is what was to be written, out has been written, r1 is still to come. */
  ghost predicate Follows(r0: Text, out: seq<int>, r1: Text) { r0 == Led(out, r1) }

  /** Moreover the caller's buffer is full or nothing is left. */
  ghost predicate Wrote(r0: Text, out: seq<int>, avail: nat, r1: Text) {
    && |out| <= avail && Follows(r0, out, r1)
    && (|out| == avail || r1 == Text([], true))
  }

  /** Where the caller's buffers end cannot be seen in the bytes written: two calls with
      room for a and b bytes write what one call with room for a + b bytes writes. */
  lemma SplitInvisible(r0: Text, o1: seq<int>, a: nat, r1: Text, o2: seq<int>, b: nat,
                       r2: Text, o: seq<int>, r: Text)
    requires Wrote(r0, o1, a, r1) && Wrote(r1, o2, b, r2)
    requires Wrote(r0, o, a + b, r)
    ensures o == o1 + o2 && r == r2
  {
    assert r0.bytes == (o1 + o2) + r2.bytes;
    assert r0.bytes == o + r.bytes;
    assert |o| == |o1 + o2|;
    assert o == r0.bytes[..|o|] && o1 + o2 == r0.bytes[..|o|];
    assert r.bytes == r0.bytes[|o|..] && r2.bytes == r0.bytes[|o|..];
  }

  lemma NothingWritten(r0: Text)
    ensures Follows(r0, [], r0)
  {
  }

  lemma CutShort(r0: Text, out: seq<int>)
    requires Follows(r0, out, Text([], false))
    ensures r0 == Text(out, false)
  {
    assert out + [] == out;
  }

  lemma BufferFull(r0: Text, out: seq<int>, avail: nat, r1: Text)
    requires Follows(r0, out, r1) && |out| == avail
    ensures Wrote(r0, out, avail, r1)
  {
  }

  lemma NothingPending(c: int, coming: Text)
    ensures Led(Rep(c, 0), coming) == coming
  {
    assert Rep(c, 0) + coming.bytes == coming.bytes;
  }

  lemma RunWritten(r0: Text, out: seq<int>, c: int, len: nat, m: nat, coming: Text)
    requires m <= len && Follows(r0, out, Led(Rep(c, len), coming))
    ensures Follows(r0, out + Rep(c, m), Led(Rep(c, len - m), coming))
    ensures m == len ==> Follows(r0, out + Rep(c, m), coming)
  {
    assert Rep(c, len) == Rep(c, m) + Rep(c, len - m);
    assert out + (Rep(c, len) + coming.bytes) == out + Rep(c, m) + (Rep(c, len - m) + coming.bytes);
    assert m == len ==> Rep(c, len - m) + coming.bytes == coming.bytes;
  }

  lemma StillPending(c: int, len: nat, coming: Text, rest: seq<int>, next: int, used: nat, n: nat)
    requires coming == if used > n + 1 then Text([], false) else Spelt(rest, next)
    requires rest == [] <==> used > n
    ensures len > 0 ==> Led(Rep(c, len), coming) != Text([], true)
    ensures len == 0 && Led(Rep(c, len), coming) == Text([], true) ==> used == n + 1
  {
    NothingPending(c, coming);
  }

  ghost predicate EndsRun(c: int, j: nat, s: seq<int>, rest: seq<int>) {
    s == Rep(c, j) + rest && (rest != [] ==> rest[0] != c)
  }

  lemma RepZero(c: int)
    ensures Rep(c, 0) == []
  {
  }

  lemma RepOne(c: int)
    ensures Rep(c, 1) == [c]
  {
  }

  lemma RepSucc(c: int, j: nat)
    ensures Rep(c, j + 1) == Rep(c, j) + [c]
    ensures forall t: seq<int> :: Rep(c, j) + ([c] + t) == Rep(c, j + 1) + t
  {
  }

  lemma ShortRunDone(c: int, j: nat, s: seq<int>, rest: seq<int>, next: int, next': int)
    requires 1 <= j < 4 && EndsRun(c, j, s, rest) && (rest != [] ==> next' == next)
    ensures Spelt(s, next) == Led(Rep(c, j), Spelt(rest, next'))
  {
    SpeltShortRun(c, j, rest, next);
  }

  /** Four equal symbols and a count, which may lie beyond the block. */
  lemma CountDone(c: int, count: int, s: seq<int>, t: seq<int>, next: int, coming: Text)
    requires s == Rep(c, 4) + t && 0 <= count < 256
    requires if |t| == 0 then count == next && coming == Text([], false) else count == t[0] && coming == Spelt(t[1..], next)
    ensures Spelt(s, next) == Led(Rep(c, count + 4), coming)
  {
    hide Spelt;
    assert Rep(c, count + 4) + [] == Rep(c, count + 4);
    assert s[0] == s[1] == s[2] == s[3] == c;
    assert |t| > 0 ==> s[4] == t[0] && s[5..] == t[1..];
    SpeltCounted(s, next);
  }

  lemma PackedByte(col: seq<int>, p: nat, link: nat)
    requires IsColumn(col) && p < |col|
    ensures (col[p] + 256 * link) % 256 == col[p] && (col[p] + 256 * link) / 256 == link
    ensures 0 <= col[p] < 256
  {
  }

  lemma ColumnByte(col: seq<int>)
    requires IsColumn(col)
    ensures forall i :: 0 <= i < |col| ==> 0 <= col[i] < 256
  {
  }
}
