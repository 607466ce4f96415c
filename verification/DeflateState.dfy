/** The state of deflate (deflate.h, deflate_state) and the steps all its strategies share:
    filling and sliding the window, inserting strings, searching the chains. */
module DeflateState {
  import opened Bits
  import opened DeflateTokens
  import opened DeflateHash
  import opened DeflateChains

  function SlotOf(h: seq<bool>): nat { Slot(h) }

  /** How deflate is asked to flush, and what a strategy answers. */
  datatype Flush = NoFlush | PartialFlush | SyncFlush | FullFlush | Finish | BlockFlush

  datatype Strategy = DefaultStrategy | Filtered | HuffmanOnly | Rle | Fixed

  datatype BlockState = NeedMore | BlockDone | FinishStarted | FinishDone

  /** The window w shows everything of t from base on. */
  ghost predicate Shows(w: seq<int>, t: seq<int>, base: nat) {
    base <= |t| <= base + |w| && w[..|t| - base] == t[base..]
  }

  lemma ShownAt(w: seq<int>, t: seq<int>, base: nat, i: nat)
    requires Shows(w, t, base) && base + i < |t| && IsBytes(t)
    ensures i < |w| && w[i] == t[base + i] && 0 <= w[i] < 256
  {
    assert w[..|t| - base][i] == t[base..][i];
  }

  /** The running hash is that of the two bytes at a. */
  ghost predicate RollsAt(h: seq<bool>, t: seq<int>, a: int, z: Sizes)
    requires GoodSizes(z) && IsBytes(t)
  {
    0 <= a && a + 1 < |t| && Rolls(h, t[a], t[a + 1], z.bits, z.shift)
  }

  /** With three bytes to come, the running hash is that of the first two. */
  ghost predicate Current(h: seq<bool>, t: seq<int>, top: nat, insert: nat, z: Sizes)
    requires GoodSizes(z) && IsBytes(t)
  {
    && |h| == z.bits
    && (top + 2 < |t| && insert == 0 ==> RollsAt(h, t, top, z))
    && (insert > 0 ==> |t| - top + insert < 3)
  }

  /** The sizes deflateInit2 chooses. */
  function SizesFor(windowBits: nat, memLevel: nat): Sizes {
    Sizes(Pow2(if windowBits == 8 then 9 else windowBits), memLevel + 7, (memLevel + 9) / 3)
  }

  lemma SizesAreGood(windowBits: nat, memLevel: nat)
    requires 8 <= windowBits <= 15 && 1 <= memLevel <= 9
    ensures GoodSizes(SizesFor(windowBits, memLevel)) && Pow2(memLevel + 6) >= 128
  {
    Pow2Grows(9, if windowBits == 8 then 9 else windowBits);
    Pow2Grows(if windowBits == 8 then 9 else windowBits, 15);
    Pow2Grows(7, memLevel + 6);
    assert Pow2(9) == 512 && Pow2(7) == 128;
    assert Pow2(15) == 64 * Pow2(9);
  }

  datatype Config = Config(good: nat, lazy: nat, nice: nat, chain: nat)

  /** configuration_table, from level 1 on. */
  function ConfigFor(level: nat): (c: Config)
    ensures c.chain >= 4 && c.lazy > MIN_MATCH && 8 <= c.nice <= MAX_MATCH && c.good > MIN_MATCH
  {
    match level
    case 1 => Config(4, 4, 8, 4)
    case 2 => Config(4, 5, 16, 8)
    case 3 => Config(4, 6, 32, 32)
    case 4 => Config(4, 4, 16, 16)
    case 5 => Config(8, 16, 32, 32)
    case 6 => Config(8, 16, 128, 128)
    case 7 => Config(8, 32, 128, 256)
    case 8 => Config(32, 128, 258, 1024)
    case _ => Config(32, 258, 258, 4096)
  }

  class State {
    const z: Sizes
    const maxLazyMatch: nat
    const goodMatch: nat
    const niceMatch: nat
    const maxChainLength: nat
    const level: nat
    const strategy: Strategy
    const litBufsize: nat

    const window: array<int>
    const head: array<int>
    const prev: array<int>
    const dBuf: array<int>
    const lBuf: array<int>
    var strstart: nat
    var lookahead: nat
    var insert: nat
    var insH: seq<bool>
    var matchStart: int
    var matchLength: nat
    var prevLength: nat
    var prevMatch: int
    var matchAvailable: bool
    var blockStart: int
    var lastLit: nat
    var nextIn: seq<int>
    var finished: bool

    /** Everything read so far, how much of it has left the window, the positions inserted in
        the dictionary, all tokens, and how many of them are in blocks already flushed. */
    ghost var total: seq<int>
    ghost var base: nat
    ghost var ins: set<int>
    ghost var tokens: seq<Token>
    ghost var flushed: nat

    /** When the place of every token was searched, and, for a lazy strategy, when the token was settled. */
    ghost var looks: seq<Look>
    ghost var verdicts: seq<Look>

    /** deflateInit2 and lm_init. */
    constructor (windowBits: nat, memLevel: nat, lev: nat, strat: Strategy)
      requires 8 <= windowBits <= 15 && 1 <= memLevel <= 9 && 1 <= lev <= 9
      ensures z == SizesFor(windowBits, memLevel) && level == lev && strategy == strat
      ensures ConfigFor(lev) == Config(goodMatch, maxLazyMatch, niceMatch, maxChainLength)
      ensures Core() && Blocked() && lastLit == 0 && litBufsize >= 128
      ensures looks == [] && verdicts == [] && tokens == [] && total == [] && nextIn == [] && base == 0 && strstart == 0 && lookahead == 0
      ensures !matchAvailable && prevLength == MIN_MATCH - 1 && matchLength == MIN_MATCH - 1 && !finished
      ensures fresh(window) && fresh(head) && fresh(prev) && fresh(dBuf) && fresh(lBuf)
    {
      SizesAreGood(windowBits, memLevel);
      var sizes := SizesFor(windowBits, memLevel);
      var config := ConfigFor(lev);
      z := sizes;
      level, strategy := lev, strat;
      litBufsize := Pow2(memLevel + 6);
      maxLazyMatch, goodMatch, niceMatch, maxChainLength := config.lazy, config.good, config.nice, config.chain;
      window := new int[2 * sizes.w];
      prev := new int[sizes.w];
      head := new int[Pow2(sizes.bits)](_ => 0);
      dBuf := new int[Pow2(memLevel + 6)];
      lBuf := new int[Pow2(memLevel + 6)];
      strstart, blockStart, lookahead, insert := 0, 0, 0, 0;
      matchLength, prevLength, matchAvailable := MIN_MATCH - 1, MIN_MATCH - 1, false;
      insH := Zeros(sizes.bits);
      lastLit, nextIn, finished := 0, [], false;
      total, base, ins, tokens, flushed, looks, verdicts := [], 0, {}, [], 0, [], [];
      new;
      hide Sized, Core, Blocked, Dict, Spells, FromBuffers, Current, GoodSizes, SizesFor, ConfigFor;
      NewSized();
      NewCore();
      NewBlocked();
    }

    lemma NewSized()
      requires GoodSizes(z) && window.Length == 2 * z.w && head.Length == Pow2(z.bits) && prev.Length == z.w
      requires dBuf.Length == litBufsize && lBuf.Length == litBufsize && litBufsize >= 128
      requires window != head && window != prev && head != prev && dBuf != lBuf
      requires window != dBuf && window != lBuf && head != dBuf && head != lBuf && prev != dBuf && prev != lBuf
      requires maxChainLength >= 4 && 8 <= niceMatch <= MAX_MATCH && goodMatch > MIN_MATCH && maxLazyMatch > MIN_MATCH
      ensures Sized()
    {
    }

    lemma NewCore()
      requires Sized() && total == [] && nextIn == [] && ins == {}
      requires strstart == 0 && lookahead == 0 && insert == 0 && base == 0 && |insH| == z.bits
      requires forall i :: 0 <= i < head.Length ==> head[i] == 0
      ensures Core()
    {
    }

    lemma NewBlocked()
      requires Sized() && tokens == [] && flushed == 0 && base == 0 && blockStart == 0 && total == [] && lastLit == 0
      ensures Blocked()
    {
    }

    ghost function Top(): nat
      reads this`base, this`strstart
    {
      base + strstart
    }

    ghost predicate Sized() {
      && GoodSizes(z) && window.Length == 2 * z.w && head.Length == Pow2(z.bits) && prev.Length == z.w
      && dBuf.Length == litBufsize && lBuf.Length == litBufsize && litBufsize >= 2
      && window != head && window != prev && head != prev && dBuf != lBuf
      && window != dBuf && window != lBuf && head != dBuf && head != lBuf && prev != dBuf && prev != lBuf
      && maxChainLength >= 4 && 8 <= niceMatch <= MAX_MATCH && goodMatch > MIN_MATCH && maxLazyMatch > MIN_MATCH
    }

    /** The window shows the end of the input read. */
    ghost predicate Windowed()
      reads this`strstart, this`lookahead, this`total, this`base, this`nextIn, window
      requires Sized()
    {
      && Top() + lookahead == |total| && strstart + lookahead <= window.Length
      && window[..strstart + lookahead] == total[base..]
      && IsBytes(total) && IsBytes(nextIn)
    }

    ghost predicate Chained()
      reads this`strstart, this`insert, this`total, this`base, this`ins, head, prev
    {
      && Dict(head[..], prev[..], total, base, ins, Top(), z)
      && insert <= strstart && insert < MIN_MATCH && forall a :: a in ins ==> a < Top() - insert
    }

    ghost predicate Core()
      reads this`strstart, this`lookahead, this`insert, this`total, this`base, this`ins, this`insH, this`nextIn, window, head, prev
    {
      Sized() && Windowed() && Chained() && Current(insH, total, Top(), insert, z)
    }

    /** As Core, but the running hash may be out of date. */
    ghost predicate Filled()
      reads this`strstart, this`lookahead, this`insert, this`total, this`base, this`ins, this`insH, this`nextIn, window, head, prev
    {
      Sized() && Windowed() && Chained() && |insH| == z.bits
    }

    /** The buffer holds the tokens of the block under way, which starts at blockStart. */
    ghost predicate Blocked()
      reads this`tokens, this`flushed, this`total, this`base, this`blockStart, this`lastLit, dBuf, lBuf
    {
      && Sized() && lastLit <= litBufsize && flushed <= |tokens| && base + blockStart >= 0
      && Spells(tokens[..flushed], total, base + blockStart, MaxDist(z))
      && tokens[flushed..] == FromBuffers(dBuf[..lastLit], lBuf[..lastLit])
    }

    lemma WindowShows()
      requires Sized() && Windowed()
      ensures Shows(window[..], total, base) && Top() + lookahead == |total|
    {
      assert window[..][..strstart + lookahead] == window[..strstart + lookahead];
    }

    // -------------------------------------------------------------- the dictionary

    /** INSERT_STRING at str, the running hash being that of its first two bytes. */
    method InsertString(str: nat, ghost top: int) returns (hashHead: int)
      requires Sized() && IsBytes(total) && Shows(window[..], total, base) && |insH| == z.bits
      requires Dict(head[..], prev[..], total, base, ins, top, z) && forall a :: a in ins ==> a < base + str
      requires base + str <= top && base + str + 2 < |total|
      requires RollsAt(insH, total, base + str, z)
      modifies this`insH, this`ins, head, prev
      ensures Dict(head[..], prev[..], total, base, ins, top, z) && ins == old(ins) + {base + str}
      ensures |insH| == z.bits && RollsAt(insH, total, base + str + 1, z)
      ensures Former(hashHead, total, base, ins, base + str, z)
    {
      hide Dict, Rolls, Update, Hash3, Slot, Shows, Former;
      ShownAt(window[..], total, base, str + 2);
      RollsToHash(insH, total[base + str], total[base + str + 1], window[str + 2], z.bits, z.shift);
      insH := Update(insH, window[str + 2], z.shift);
      ghost var h0, p0 := head[..], prev[..];
      InsertKeeps(h0, p0, total, base, ins, top, z, str);
      HeadKnown(h0, p0, total, base, ins, top, z, str);
      var i := SlotOf(insH);
      hashHead := head[i];
      prev[str % z.w] := hashHead;
      head[i] := str;
      HashRolls(total[base + str], total[base + str + 1], total[base + str + 2], z.bits, z.shift);
      assert head[..] == h0[i := str] && prev[..] == p0[str % z.w := h0[i]];
      ins := ins + {base + str};
    }

    /** str is the last position inserted. */
    ghost predicate Listed(str: nat)
      reads this`total, this`base, this`ins, this`insH, window, head, prev
    {
      && Sized() && IsBytes(total) && Shows(window[..], total, base) && |insH| == z.bits
      && Dict(head[..], prev[..], total, base, ins, base + str, z) && base + str in ins
      && (forall a :: a in ins ==> a <= base + str) && base + str + 2 < |total|
    }

    /** The running hash has moved on as well. */
    ghost predicate Inserted(str: nat)
      reads this`total, this`base, this`ins, this`insH, window, head, prev
    {
      Listed(str) && RollsAt(insH, total, base + str + 1, z)
    }

    /** Strings are inserted one after the other, starting with the one at strstart. */
    method InsertFirst() returns (hashHead: int)
      requires Core() && lookahead >= 3
      modifies this`insH, this`ins, head, prev
      ensures Inserted(strstart) && ins == old(ins) + {Top()} && Former(hashHead, total, base, ins, Top(), z)
    {
      hide Dict, RollsAt, Shows, SlotAt, OnChain, Former;
      WindowShows();
      hashHead := InsertString(strstart, Top());
    }

    method InsertNext(str: nat)
      requires str > 0 && Inserted(str - 1) && base + str + 2 < |total|
      modifies this`insH, this`ins, head, prev
      ensures Inserted(str) && ins == old(ins) + {base + str}
    {
      hide Dict, RollsAt, Shows, SlotAt, OnChain, Former;
      DictLater(head[..], prev[..], total, base, ins, base + str - 1, z, base + str);
      var before := InsertString(str, base + str);
    }

    lemma CoreFacts()
      requires Core()
      ensures Sized() && IsBytes(total) && IsBytes(nextIn) && Shows(window[..], total, base) && Top() + lookahead == |total|
      ensures strstart + lookahead <= window.Length && Windowed() && Filled() && (lookahead >= 3 ==> insert == 0)
    {
      hide Dict, RollsAt, IsBytes;
      WindowShows();
    }

    lemma SizedFacts()
      requires Core()
      ensures Sized()
    {
    }

    /** Core with str in the place of strstart, whatever has become of that. */
    ghost predicate CoreAt(str: nat)
      reads this`insert, this`total, this`base, this`ins, this`insH, window, head, prev
    {
      && Sized() && IsBytes(total) && Shows(window[..], total, base)
      && Dict(head[..], prev[..], total, base, ins, base + str, z)
      && insert <= str && insert < MIN_MATCH && (forall a :: a in ins ==> a < base + str - insert)
      && Current(insH, total, base + str, insert, z)
    }

    lemma CoreHere()
      requires Core()
      ensures CoreAt(strstart)
    {
      hide Dict, RollsAt, Current;
      WindowShows();
    }

    /** The last bytes of the input need not be inserted. */
    lemma ResumedLate(str: nat)
      requires CoreAt(str) && str < strstart && base + str + 3 > |total| && Top() + lookahead == |total| && IsBytes(nextIn)
      ensures Core()
    {
      hide Dict, RollsAt;
      DictLater(head[..], prev[..], total, base, ins, base + str, z, Top());
      assert window[..strstart + lookahead] == window[..][..strstart + lookahead];
    }

    /** Once strstart has moved past what was inserted, all is well again. */
    lemma Resumed(str: nat)
      requires Listed(str) && str < strstart && insert == 0 && Top() + lookahead == |total| && IsBytes(nextIn)
      requires lookahead >= 3 ==> RollsAt(insH, total, Top(), z)
      ensures Core()
    {
      hide Dict, RollsAt;
      DictLater(head[..], prev[..], total, base, ins, base + str, z, Top());
      assert window[..strstart + lookahead] == window[..][..strstart + lookahead];
    }

    /** Moving on without inserting anything. */
    method MoveOn(n: nat)
      requires Filled() && n <= lookahead
      modifies this`strstart, this`lookahead
      ensures Filled() && (old(Core()) && lookahead < 3 ==> Core())
      ensures strstart == old(strstart) + n && lookahead == old(lookahead) - n
    {
      hide Dict, RollsAt, IsBytes;
      DictLater(head[..], prev[..], total, base, ins, Top(), z, Top() + n);
      strstart := strstart + n;
      lookahead := lookahead - n;
    }

    // -------------------------------------------------------------- filling the window

    /** The upper half of the window moves down when there is little room left. */
    method SlideWindow()
      requires Filled() && strstart >= z.w + MaxDist(z)
      modifies this`strstart, this`matchStart, this`blockStart, this`base, window, head, prev
      ensures Filled() && (old(Core()) ==> Core()) && strstart == old(strstart) - z.w && base == old(base) + z.w
      ensures matchStart == old(matchStart) - z.w && blockStart == old(blockStart) - z.w
    {
      hide Dict, Current, IsBytes;
      ghost var h0, p0, w0 := head[..], prev[..], window[..strstart + lookahead];
      TopFacts();
      var n := strstart + lookahead - z.w;
      CopyDown(n);
      SlideTable(head, z.w);
      SlideTable(prev, z.w);
      SlideKeeps(h0, p0, total, base, ins, Top(), z, head[..], prev[..]);
      matchStart := matchStart - z.w;
      strstart := strstart - z.w;
      blockStart := blockStart - z.w;
      base := base + z.w;
      assert window[..n] == w0[z.w..];
      assert w0[z.w..] == total[base..];
    }

    lemma TopFacts()
      requires Sized()
      ensures z.w >= 512 && MaxDist(z) == z.w - 262 && prev.Length == z.w
    {
    }

    /** zmemcpy of the n bytes that are used in the upper half. */
    method CopyDown(n: nat)
      requires Sized() && n <= z.w
      modifies window
      ensures window[..n] == old(window[z.w..z.w + n])
    {
      for k := 0 to n
        invariant forall j :: 0 <= j < k ==> window[j] == old(window[z.w + j])
        invariant forall j :: z.w <= j < window.Length ==> window[j] == old(window[j])
      {
        window[k] := window[k + z.w];
      }
    }

    method CopyIn(at: nat, n: nat)
      requires at + n <= window.Length && n <= |nextIn|
      modifies window
      ensures window[..at + n] == old(window[..at]) + nextIn[..n]
    {
      ghost var w0, u := window[..at], nextIn[..n];
      for k := 0 to n
        invariant window[..at] == w0
        invariant window[at..at + k] == u[..k]
      {
        window[at + k] := nextIn[k];
        assert window[at..at + k + 1] == window[at..at + k] + [nextIn[k]];
        assert u[..k + 1] == u[..k] + [u[k]];
      }
      assert u[..n] == u;
      assert window[..at + n] == window[..at] + window[at..at + n];
    }

    /** n bytes of input move into the window. */
    method Take(n: nat)
      requires Filled() && strstart + lookahead + n <= window.Length && n <= |nextIn|
      modifies this`lookahead, this`nextIn, this`total, window
      ensures Filled()
      ensures lookahead == old(lookahead) + n && nextIn == old(nextIn)[n..]
      ensures total == old(total) + old(nextIn)[..n]
    {
      hide Dict, Rolls, IsBytes;
      ghost var u := nextIn[..n];
      BytesSplit(nextIn, n);
      DictGrows(head[..], prev[..], total, u, base, ins, Top(), z);
      CopyIn(strstart + lookahead, n);
      BytesAppend(total, u);
      assert (total + u)[base..] == total[base..] + u;
      total := total + u;
      lookahead := lookahead + n;
      nextIn := nextIn[n..];
    }

    /** read_buf: as much input as there is, and room for. */
    method ReadInput(more: nat) returns (n: nat)
      requires Filled() && strstart + lookahead + more <= window.Length
      modifies this`lookahead, this`nextIn, this`total, window
      ensures Filled()
      ensures n <= more && n <= old(|nextIn|) && (n == more || n == old(|nextIn|))
      ensures lookahead == old(lookahead) + n && nextIn == old(nextIn)[n..]
      ensures total == old(total) + old(nextIn)[..n]
    {
      hide Dict, Rolls, IsBytes;
      n := if |nextIn| < more then |nextIn| else more;
      Take(n);
    }

    /** One string that was too short to be inserted at the last flush. */
    method InsertOld()
      requires Filled() && insert > 0 && lookahead + insert >= MIN_MATCH
      requires RollsAt(insH, total, Top() - insert, z)
      modifies this`insert, this`insH, this`ins, head, prev
      ensures Filled() && insert == old(insert) - 1 && Later(old(ins), ins)
      ensures lookahead + insert >= 2
      ensures RollsAt(insH, total, Top() - insert, z)
    {
      hide Dict, RollsAt, Shows, OnChain, SlotAt, IsBytes;
      WindowShows();
      var str := strstart - insert;
      var before := InsertString(str, Top());
      insert := insert - 1;
    }

    /** Now that there is input: the running hash is started again, and strings that were too
        short to be inserted at the last flush are inserted. */
    method RestartHash()
      requires Filled()
      modifies this`insert, this`insH, this`ins, head, prev
      ensures Filled() && Core() && insert <= old(insert) && Later(old(ins), ins)
    {
      hide Dict, Rolls, Pair, Shows, IsBytes;
      if lookahead + insert >= MIN_MATCH {
        var str := strstart - insert;
        WindowShows();
        ShownAt(window[..], total, base, str);
        ShownAt(window[..], total, base, str + 1);
        StartHash(window[str], window[str + 1]);
        while insert > 0
          invariant Filled() && insert <= old(insert) && lookahead + insert >= MIN_MATCH && Later(old(ins), ins)
          invariant RollsAt(insH, total, Top() - insert, z)
          decreases insert
        {
          InsertOld();
          if lookahead + insert < MIN_MATCH { break; }
        }
      }
    }

    /** The running hash of two bytes. */
    method StartHash(c: int, d: int)
      requires Sized()
      modifies this`insH
      ensures |insH| == z.bits
      ensures 0 <= c < 256 && 0 <= d < 256 ==> Rolls(insH, c, d, z.bits, z.shift)
    {
      hide Update, Low;
      insH := Pair(c % 256, d % 256, z.bits, z.shift);
      PairRolls(c % 256, d % 256, z.bits, z.shift);
    }

    /** fill_window. */
    method FillWindow()
      requires Filled() && lookahead < MIN_LOOKAHEAD
      modifies this`strstart, this`lookahead, this`insert, this`insH, this`matchStart, this`blockStart, this`nextIn,
               this`total, this`base, this`ins, window, head, prev
      ensures Filled() && (old(Core()) ==> Core()) && strstart <= window.Length - MIN_LOOKAHEAD
      ensures Top() == old(Top()) && base + blockStart == old(base + blockStart) && base + matchStart == old(base + matchStart)
      ensures old(total) <= total && total + nextIn == old(total + nextIn)
      ensures lookahead >= MIN_LOOKAHEAD || nextIn == []
      ensures lookahead >= old(lookahead) && (old(strstart) > 0 ==> strstart > 0) && Later(old(ins), ins)
      ensures base == old(base) || (base > old(base) && strstart >= MaxDist(z))
    {
      hide Windowed, Chained, Current;
      TopFacts();
      RoomFacts();
      var more := window.Length - lookahead - strstart;
      if strstart >= z.w + MaxDist(z) {
        SlideWindow();
        more := more + z.w;
      }
      if |nextIn| != 0 {
        ghost var t0, i0 := total, nextIn;
        var n := ReadInput(more);
        assert t0 + i0[..n] + i0[n..] == t0 + i0;
        RestartHash();
        // once is enough: either all input is in the window or the window is full
        assert lookahead >= MIN_LOOKAHEAD || |nextIn| == 0;
      }
      RoomFacts();
    }

    /** fill_window leaves the tokens and the buffer as they are. */
    method Refill()
      requires Filled() && Blocked() && lookahead < MIN_LOOKAHEAD
      modifies this`strstart, this`lookahead, this`insert, this`insH, this`matchStart, this`blockStart, this`nextIn,
               this`total, this`base, this`ins, window, head, prev
      ensures Filled() && Blocked() && (old(Core()) ==> Core()) && strstart <= window.Length - MIN_LOOKAHEAD
      ensures Top() == old(Top()) && base + matchStart == old(base + matchStart)
      ensures old(total) <= total && total + nextIn == old(total + nextIn)
      ensures lookahead >= MIN_LOOKAHEAD || nextIn == []
      ensures lookahead >= old(lookahead) && (old(strstart) > 0 ==> strstart > 0) && Later(old(ins), ins)
      ensures base == old(base) || (base > old(base) && strstart >= MaxDist(z))
    {
      hide Windowed, Chained, Current, Filled, Core, Spells, FromBuffers;
      ghost var t := total;
      FillWindow();
      MoreInput(tokens[..flushed], t, total, base + blockStart, MaxDist(z));
    }

    // -------------------------------------------------------------- the token buffer

    /** _tr_tally_lit. */
    method TallyLit(c: int) returns (bflush: bool)
      requires Blocked() && lastLit < litBufsize && 0 <= c < 256
      modifies this`tokens, this`lastLit, dBuf, lBuf
      ensures Blocked() && lastLit == old(lastLit) + 1 && bflush == (lastLit == litBufsize - 1)
      ensures tokens == old(tokens) + [Literal(c)]
    {
      bflush := Tally(0, c % 256);
    }

    /** _tr_tally_dist; len counts from MIN_MATCH. */
    method TallyDist(distance: nat, len: nat) returns (bflush: bool)
      requires Blocked() && lastLit < litBufsize && 1 <= distance <= MaxDist(z) && len <= MAX_MATCH - MIN_MATCH
      modifies this`tokens, this`lastLit, dBuf, lBuf
      ensures Blocked() && lastLit == old(lastLit) + 1 && bflush == (lastLit == litBufsize - 1)
      ensures tokens == old(tokens) + [Match(len + MIN_MATCH, distance)]
    {
      bflush := Tally(distance % 65536, len % 256);
    }

    method Tally(d: nat, lc: nat) returns (bflush: bool)
      requires Blocked() && lastLit < litBufsize
      modifies this`tokens, this`lastLit, dBuf, lBuf
      ensures Blocked() && lastLit == old(lastLit) + 1 && bflush == (lastLit == litBufsize - 1)
      ensures tokens == old(tokens) + [FromBuffer(d, lc)]
    {
      hide Spells;
      dBuf[lastLit] := d;
      lBuf[lastLit] := lc;
      lastLit := lastLit + 1;
      tokens := tokens + [FromBuffer(d, lc)];
      assert tokens[flushed..] == old(tokens[flushed..]) + [FromBuffer(d, lc)];
      assert tokens[..flushed] == old(tokens[..flushed]);
      bflush := lastLit == litBufsize - 1;
    }

    /** FLUSH_BLOCK_ONLY: the tokens in the buffer are those of all bytes from blockStart to
        strstart, and nothing else. */
    method FlushBlock()
      requires Blocked() && Spells(tokens, total, Top(), MaxDist(z))
      modifies this`lastLit, this`blockStart, this`flushed
      ensures Blocked() && lastLit == 0 && blockStart == strstart && flushed == |tokens|
    {
      assert tokens[..|tokens|] == tokens;
      lastLit := 0;
      blockStart := strstart;
      flushed := |tokens|;
    }

    /** At the end of the input the last strings, too short to be inserted, are remembered. */
    method Remember(n: nat)
      requires Core() && lookahead == 0 && n <= strstart && n < MIN_MATCH
      modifies this`insert
      ensures Core() && insert == n
    {
      hide RollsAt, IsBytes;
      insert := n;
    }

    /** What every strategy does at the end; with room the output is never full. */
    method EndBlock(flush: Flush, room: bool) returns (bs: BlockState)
      requires Blocked() && Spells(tokens, total, Top(), MaxDist(z)) && !flush.NoFlush?
      modifies this`lastLit, this`blockStart, this`flushed
      ensures Blocked() && lastLit == 0 && flushed == |tokens|
      ensures bs.BlockDone? || bs.NeedMore? <==> !flush.Finish?
      ensures room ==> bs.BlockDone? || bs.FinishDone?
    {
      hide Spells, FromBuffers;
      var full := false;
      if !room { full := *; }
      if flush.Finish? {
        FlushBlock();
        return if full then FinishStarted else FinishDone;
      }
      if lastLit != 0 {
        FlushBlock();
        if full { return NeedMore; }
      }
      return BlockDone;
    }

    lemma RoomFacts()
      requires Sized() && Windowed()
      ensures strstart + lookahead <= window.Length
    {
    }
  }

  /** One table of slide_hash. */
  method SlideTable(t: array<int>, wsize: nat)
    modifies t
    ensures AllSlid(t[..], old(t[..]), wsize)
  {
    var n := t.Length;
    while n > 0
      invariant 0 <= n <= t.Length
      invariant forall i :: n <= i < t.Length ==> t[i] == Slid(old(t[i]), wsize)
      invariant forall i :: 0 <= i < n ==> t[i] == old(t[i])
    {
      n := n - 1;
      var m := t[n];
      t[n] := if m >= wsize then m - wsize else 0;
    }
  }

  lemma BytesAppend(t: seq<int>, u: seq<int>)
    requires IsBytes(t) && IsBytes(u)
    ensures IsBytes(t + u)
  {
  }

  lemma BytesSplit(t: seq<int>, n: nat)
    requires IsBytes(t) && n <= |t|
    ensures IsBytes(t[..n]) && IsBytes(t[n..])
  {
  }

  /** What the head of a chain is before a later string is inserted. */
  lemma HeadKnown(head: seq<int>, prev: seq<int>, t: seq<int>, base: nat, ins: set<int>, top: int, z: Sizes, str: nat)
    requires Dict(head, prev, t, base, ins, top, z) && (forall a :: a in ins ==> a < base + str) && base + str + 2 < |t|
    ensures SlotAt(t, base + str, z) < |head|
    ensures Former(head[SlotAt(t, base + str, z)], t, base, ins + {base + str}, base + str, z)
  {
    hide SlotAt, Linked;
    var i := SlotAt(t, base + str, z);
    assert head[i] == 0 || OnChain(head[i], t, base, ins, i, z);
    forall b | b in ins && base < b && SlotAt(t, b, z) == i ensures b - base <= head[i] {
      assert b - base <= HeadOf(head, t, b, z);
    }
  }
}
