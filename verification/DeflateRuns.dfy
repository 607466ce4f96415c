/** The strategies that keep no hash chains (deflate.c, deflate_rle and deflate_huff). */
module DeflateRuns {
  import opened DeflateTokens
  import opened DeflateChains
  import opened DeflateState
  import opened DeflateChoice
  import Fast = DeflateFast

  /** Between two steps: the tokens are those of everything before strstart. */
  ghost predicate Ready(s: State)
    reads s, s.window, s.head, s.prev, s.dBuf, s.lBuf
  {
    && s.Filled() && s.Blocked() && s.lastLit + 1 < s.litBufsize
    && Spells(s.tokens, s.total, s.Top(), MaxDist(s.z)) && !s.matchAvailable
  }

  /** How often c stands at n and after it, up to max times. */
  ghost function Run(t: seq<int>, c: int, n: nat, max: nat): nat
    decreases max
  {
    if max == 0 || n >= |t| || t[n] != c then 0 else 1 + Run(t, c, n + 1, max - 1)
  }

  ghost predicate AllAre(t: seq<int>, c: int, n: nat, len: nat) {
    n + len <= |t| && forall k :: n <= k < n + len ==> t[k] == c
  }

  lemma {:induction false} RunIs(t: seq<int>, c: int, n: nat, max: nat, len: nat)
    requires AllAre(t, c, n, len) && len <= max
    requires len == max || n + len == |t| || t[n + len] != c
    ensures Run(t, c, n, max) == len
    decreases len
  {
    if len > 0 { RunIs(t, c, n + 1, max - 1, len - 1); }
  }

  lemma RunAgrees(t: seq<int>, n: nat, len: nat)
    requires 1 <= n <= |t| && AllAre(t, t[n - 1], n, len)
    ensures Agree(t, n - 1, n, len)
  {
    var x, y := t[n - 1..n - 1 + len], t[n..n + len];
    forall k | 0 <= k < len ensures x[k] == y[k] {}
  }

  /** How far the byte before strstart repeats in the window; 0 if less than three times. */
  method Count(window: array<int>, strstart: nat) returns (len: nat)
    requires 1 <= strstart && strstart + MAX_MATCH < window.Length
    ensures len <= MAX_MATCH && AllAre(window[..], window[strstart - 1], strstart, len)
    ensures len != 0 ==> len >= 3 && (len == MAX_MATCH || window[strstart + len] != window[strstart - 1])
    ensures len == 0 ==> window[strstart] != window[strstart - 1] || window[strstart + 1] != window[strstart - 1]
                         || window[strstart + 2] != window[strstart - 1]
  {
    var prev := window[strstart - 1];
    len := 0;
    if window[strstart] == prev && window[strstart + 1] == prev && window[strstart + 2] == prev {
      len := 2;
      while true
        invariant 2 <= len < MAX_MATCH && AllAre(window[..], prev, strstart, len + 1)
        decreases MAX_MATCH - len
      {
        len := len + 1;
        if window[strstart + len] != prev || len >= MAX_MATCH { break; }
      }
    }
  }

  /** What the run in the window means for the input. */
  lemma RunShown(w: seq<int>, t: seq<int>, base: nat, str: nat, len: nat)
    requires IsBytes(t) && Shows(w, t, base) && str >= 1 && base + str <= |t| && AllAre(w, w[str - 1], str, len)
    requires len == 0 || len == MAX_MATCH || (str + len < |w| && w[str + len] != w[str - 1])
    requires len != 0 ==> len <= MAX_MATCH
    ensures var l := if base + str + len <= |t| then len else |t| - base - str;
            AllAre(t, t[base + str - 1], base + str, l)
            && (len > 0 ==> Run(t, t[base + str - 1], base + str, MAX_MATCH) == l)
  {
    hide Shows;
    var l := if base + str + len <= |t| then len else |t| - base - str;
    var c := t[base + str - 1];
    ShownAt(w, t, base, str - 1);
    forall k | base + str <= k < base + str + l ensures t[k] == c {
      ShownAt(w, t, base, k - base);
    }
    if len > 0 {
      if base + str + l < |t| && l < MAX_MATCH { ShownAt(w, t, base, str + l); }
      RunIs(t, c, base + str, MAX_MATCH, l);
    }
  }

  lemma NoRun(w: seq<int>, t: seq<int>, base: nat, str: nat)
    requires IsBytes(t) && Shows(w, t, base) && str >= 1 && base + str + 3 <= |t|
    requires w[str] != w[str - 1] || w[str + 1] != w[str - 1] || w[str + 2] != w[str - 1]
    ensures Run(t, t[base + str - 1], base + str, MAX_MATCH) < 3
  {
    hide Shows;
    ShownAt(w, t, base, str - 1);
    ShownAt(w, t, base, str);
    ShownAt(w, t, base, str + 1);
    ShownAt(w, t, base, str + 2);
    var c := t[base + str - 1];
    assert Run(t, c, base + str + 1, 257) == if t[base + str + 1] != c then 0 else 1 + Run(t, c, base + str + 2, 256);
    assert Run(t, c, base + str + 2, 256) == if t[base + str + 2] != c then 0 else 1 + Run(t, c, base + str + 3, 255);
  }

  lemma FilledFacts(s: State)
    requires s.Filled()
    ensures s.Sized() && IsBytes(s.total) && IsBytes(s.nextIn) && Shows(s.window[..], s.total, s.base)
    ensures s.Top() + s.lookahead == |s.total| && s.strstart + s.lookahead <= s.window.Length
  {
    s.WindowShows();
  }

  /** The length of the run that starts here, if it is worth a match. */
  method FindRun(s: State) returns (len: nat)
    requires s.Filled() && s.lookahead > 0 && s.strstart + MAX_MATCH < s.window.Length
    ensures len <= s.lookahead && len <= MAX_MATCH && s.Top() <= |s.total|
    ensures len > 0 ==> len >= 3 && s.strstart >= 1 && Agree(s.total, s.Top() - 1, s.Top(), len)
    ensures s.strstart == 0 || s.lookahead < MIN_MATCH ==> len == 0
    ensures s.strstart >= 1 && s.lookahead >= MIN_MATCH ==>
              var n := Run(s.total, s.total[s.Top() - 1], s.Top(), MAX_MATCH);
              len == if n >= 3 then n else 0
  {
    hide State.Filled, Shows, Run, Agree;
    FilledFacts(s);
    len := 0;
    if s.lookahead >= MIN_MATCH && s.strstart > 0 {
      var w := Count(s.window, s.strstart);
      if w != 0 {
        len := if w > s.lookahead then s.lookahead else w;
        RunShown(s.window[..], s.total, s.base, s.strstart, w);
        RunAgrees(s.total, s.Top(), len);
      } else {
        NoRun(s.window[..], s.total, s.base, s.strstart);
      }
    }
  }

  method Fill(s: State)
    requires Ready(s) && s.lookahead < MIN_LOOKAHEAD
    modifies s`strstart, s`lookahead, s`insert, s`insH, s`matchStart, s`blockStart, s`nextIn, s`total, s`base, s`ins,
             s.window, s.head, s.prev
    ensures Ready(s) && s.strstart + MIN_LOOKAHEAD <= s.window.Length && s.Top() == old(s.Top())
    ensures old(s.total) <= s.total && s.total + s.nextIn == old(s.total + s.nextIn)
    ensures s.lookahead >= MIN_LOOKAHEAD || s.nextIn == []
    ensures s.base == old(s.base) || s.strstart >= MaxDist(s.z)
  {
    hide State.Core, State.Blocked, State.Filled, Spells;
    FilledFacts(s);
    ghost var t := s.total;
    s.Refill();
    MoreInput(s.tokens, t, s.total, s.Top(), MaxDist(s.z));
  }

  lemma ReadyFacts(s: State)
    requires Ready(s)
    ensures s.Top() + s.lookahead == |s.total| && s.strstart + s.lookahead <= s.window.Length
  {
    FilledFacts(s);
  }

  method FlushFull(s: State, bflush: bool, room: bool) returns (full: bool)
    requires s.Filled() && s.Blocked() && Spells(s.tokens, s.total, s.Top(), MaxDist(s.z)) && !s.matchAvailable
    requires s.lastLit < s.litBufsize && bflush == (s.lastLit == s.litBufsize - 1)
    modifies s`lastLit, s`blockStart, s`flushed
    ensures Ready(s) && (room ==> !full)
  {
    hide State.Filled, State.Blocked, Spells;
    FilledFacts(s);
    full := false;
    if bflush {
      s.FlushBlock();
      if !room { full := *; }
    }
  }

  /** A run of three or more of the byte before, or else the byte at n. */
  ghost function RunToken(t: seq<int>, n: nat, strstart: nat): Token
    requires n < |t|
  {
    if n >= 1 && strstart >= 1 && n + MIN_MATCH <= |t| && Run(t, t[n - 1], n, MAX_MATCH) >= 3
    then Match(Run(t, t[n - 1], n, MAX_MATCH), 1) else Literal(t[n])
  }

  method RleTurn(s: State, room: bool) returns (full: bool)
    requires Ready(s) && s.lookahead > 0 && s.strstart + MAX_MATCH < s.window.Length
    modifies s`matchLength, s`strstart, s`lookahead, s`tokens, s`lastLit, s`blockStart, s`flushed, s.dBuf, s.lBuf
    ensures Ready(s) && s.strstart > old(s.strstart) && (room ==> !full)
    ensures old(s.Top()) < |s.total| && s.tokens == old(s.tokens) + [RunToken(s.total, old(s.Top()), old(s.strstart))]
  {
    hide State.Filled, State.Core, State.Blocked, Spells, Shows, Agree, Run, IsBytes;
    FilledFacts(s);
    var bflush;
    s.matchLength := FindRun(s);
    if s.matchLength >= MIN_MATCH {
      bflush := Fast.EmitMatch(s, s.strstart - 1, s.strstart, s.matchLength);
      s.MoveOn(s.matchLength);
      s.matchLength := 0;
    } else {
      bflush := Fast.EmitLiteral(s, s.strstart);
      s.MoveOn(1);
    }
    full := FlushFull(s, bflush, room);
  }

  // ---------------------------------------------------------------- what the turns choose

  /** The token at place p, chosen at the look l. */
  ghost predicate RleChoice(tok: Token, p: nat, l: Look, t: seq<int>) {
    l.lo <= p < l.end <= |t| && tok == RunToken(t[..l.end], p, p - l.lo)
  }

  ghost predicate RleWise(ts: seq<Token>, looks: seq<Look>, t: seq<int>) {
    |looks| == |ts| && forall i :: 0 <= i < |ts| ==> RleChoice(ts[i], Covered(ts[..i]), looks[i], t)
  }

  ghost predicate Wise(s: State)
    reads s`tokens, s`looks, s`total
  {
    RleWise(s.tokens, s.looks, s.total)
  }

  lemma RleWiseLater(ts: seq<Token>, looks: seq<Look>, t: seq<int>, t': seq<int>)
    requires RleWise(ts, looks, t) && t <= t'
    ensures RleWise(ts, looks, t')
  {
    hide Covered, RunToken;
    forall i | 0 <= i < |ts| ensures RleChoice(ts[i], Covered(ts[..i]), looks[i], t') {
      assert RleChoice(ts[i], Covered(ts[..i]), looks[i], t);
      assert t'[..looks[i].end] == t[..looks[i].end];
    }
  }

  lemma RleWiseMore(ts: seq<Token>, looks: seq<Look>, tok: Token, l: Look, t: seq<int>)
    requires RleWise(ts, looks, t) && RleChoice(tok, Covered(ts), l, t)
    ensures RleWise(ts + [tok], looks + [l], t)
  {
    hide RleChoice, Covered;
    var ts', looks' := ts + [tok], looks + [l];
    forall i | 0 <= i < |ts'| ensures RleChoice(ts'[i], Covered(ts'[..i]), looks'[i], t) {
      if i < |ts| {
        assert ts'[..i] == ts[..i] && ts'[i] == ts[i] && looks'[i] == looks[i];
        assert RleChoice(ts[i], Covered(ts[..i]), looks[i], t);
      } else {
        assert ts'[..i] == ts;
      }
    }
  }

  /** A turn, and what is to be remembered of it. */
  method RleStep(s: State, room: bool) returns (full: bool)
    requires Ready(s) && s.lookahead > 0 && s.strstart + MAX_MATCH < s.window.Length && Wise(s)
    modifies s`matchLength, s`strstart, s`lookahead, s`tokens, s`looks, s`lastLit, s`blockStart, s`flushed, s.dBuf, s.lBuf
    ensures Ready(s) && s.strstart > old(s.strstart) && (room ==> !full) && Wise(s)
    ensures old(s.tokens) <= s.tokens && |s.tokens| == |old(s.tokens)| + 1
    ensures s.looks == old(s.looks) + [Look(|s.total|, s.base)] && Covered(old(s.tokens)) == old(s.Top())
  {
    hide State.Filled, State.Blocked, Spells, Covered, RunToken, RleWise;
    ghost var ts, t, p, l := s.tokens, s.total, s.Top(), Look(|s.total|, s.base);
    SpellsCovers(ts, t, p, MaxDist(s.z));
    full := RleTurn(s, room);
    assert t[..|t|] == t;
    RleWiseMore(ts, s.looks, RunToken(t, p, p - s.base), l, t);
    s.looks := s.looks + [l];
  }

  method HuffTurn(s: State, room: bool) returns (full: bool)
    requires Ready(s) && s.lookahead > 0
    modifies s`matchLength, s`strstart, s`lookahead, s`tokens, s`lastLit, s`blockStart, s`flushed, s.dBuf, s.lBuf
    ensures Ready(s) && s.strstart > old(s.strstart) && (room ==> !full)
    ensures old(s.Top()) < |s.total| && s.tokens == old(s.tokens) + [Literal(s.total[old(s.Top())])]
  {
    hide State.Filled, State.Core, State.Blocked, Spells, Shows, IsBytes;
    FilledFacts(s);
    s.matchLength := 0;
    var bflush := Fast.EmitLiteral(s, s.strstart);
    s.MoveOn(1);
    full := FlushFull(s, bflush, room);
  }

  method RunsEnd(s: State, flush: Flush, room: bool) returns (bs: BlockState)
    requires Ready(s) && s.lookahead == 0 && !flush.NoFlush?
    modifies s`insert, s`lastLit, s`blockStart, s`flushed
    ensures Ready(s) && s.lastLit == 0 && s.flushed == |s.tokens|
    ensures bs.BlockDone? || bs.NeedMore? <==> !flush.Finish?
    ensures room ==> bs.BlockDone? || bs.FinishDone?
  {
    hide State.Blocked, Spells, Dict, IsBytes;
    s.insert := 0;
    bs := s.EndBlock(flush, room);
  }

  ghost predicate AllLiterals(ts: seq<Token>) {
    forall i :: 0 <= i < |ts| ==> ts[i].Literal?
  }

  lemma OneLiteral(ts: seq<Token>, ts': seq<Token>)
    requires AllLiterals(ts) && |ts'| == |ts| + 1 && ts <= ts' && ts'[|ts|].Literal?
    ensures AllLiterals(ts')
  {
  }

  /** Only literals and matches of distance one. */
  ghost predicate OneBack(ts: seq<Token>) {
    forall i :: 0 <= i < |ts| ==> ts[i].Literal? || ts[i].dist == 1
  }

  lemma WiseFacts(s: State)
    requires Wise(s)
    ensures |s.looks| == |s.tokens| && OneBack(s.tokens)
  {
    hide Run, Covered;
    forall i | 0 <= i < |s.tokens| ensures s.tokens[i].Literal? || s.tokens[i].dist == 1 {
      assert RleChoice(s.tokens[i], Covered(s.tokens[..i]), s.looks[i], s.total);
    }
  }

  /** All choices so far are wise, and the looks since g are honest; the window begins where it did
      then, or has lost nothing within reach. */
  ghost predicate Tracked(s: State, g: Log)
    reads s`tokens, s`looks, s`total, s`base, s`strstart
  {
    && Wise(s) && g.top <= s.Top() && (s.base == g.lo || s.base + MaxDist(s.z) <= s.Top()) && g.looks <= s.looks
    && AllHonest(s.tokens, s.looks, 0, |g.looks|, g, s.z)
  }

  lemma TrackStarts(s: State, asked: bool)
    requires Wise(s)
    ensures Tracked(s, LogOf(s, asked))
  {
    hide Run, Covered;
    WiseFacts(s);
    Fast.NoLooks(s.tokens, s.looks, LogOf(s, asked), s.z);
  }

  method TrackFill(s: State, ghost g: Log)
    requires Ready(s) && s.lookahead < MIN_LOOKAHEAD && Tracked(s, g)
    modifies s`strstart, s`lookahead, s`insert, s`insH, s`matchStart, s`blockStart, s`nextIn, s`total, s`base, s`ins,
             s.window, s.head, s.prev
    ensures Ready(s) && s.strstart + MIN_LOOKAHEAD <= s.window.Length && s.Top() == old(s.Top())
    ensures old(s.total) <= s.total && s.total + s.nextIn == old(s.total + s.nextIn)
    ensures s.lookahead >= MIN_LOOKAHEAD || s.nextIn == []
    ensures s.Top() + s.lookahead == |s.total|
    ensures Tracked(s, g)
  {
    hide Ready, RleWise, AllHonest;
    ghost var t := s.total;
    Fill(s);
    RleWiseLater(s.tokens, s.looks, t, s.total);
    ReadyFacts(s);
  }

  method TrackStep(s: State, room: bool, ghost g: Log) returns (full: bool)
    requires Ready(s) && s.lookahead > 0 && s.strstart + MAX_MATCH < s.window.Length && Tracked(s, g)
    requires s.lookahead > MAX_MATCH || (g.asked && |s.total| == g.all)
    modifies s`matchLength, s`strstart, s`lookahead, s`tokens, s`looks, s`lastLit, s`blockStart, s`flushed, s.dBuf, s.lBuf
    ensures Ready(s) && old(s.tokens) <= s.tokens && s.strstart > old(s.strstart) && (room ==> !full)
    ensures s.Top() + s.lookahead == |s.total| && s.strstart + s.lookahead <= s.window.Length
    ensures Tracked(s, g)
  {
    hide Ready, Run, RleWise, Covered, AllHonest, OneBack;
    ReadyFacts(s);
    WiseFacts(s);
    ghost var ts, looks := s.tokens, s.looks;
    full := RleStep(s, room);
    Fast.HonestTurn(ts, s.tokens, looks, Look(|s.total|, s.base), |g.looks|, g, s.z);
    ReadyFacts(s);
  }

  lemma TrackedBack(s: State, g: Log)
    requires Tracked(s, g)
    ensures OneBack(s.tokens)
  {
    WiseFacts(s);
  }

  /** deflate_rle. */
  method DeflateRle(s: State, flush: Flush, room: bool) returns (bs: BlockState)
    requires Ready(s) && Wise(s)
    modifies s, s.window, s.head, s.prev, s.dBuf, s.lBuf
    ensures Ready(s) && s.finished == old(s.finished)
    ensures old(s.total) <= s.total && s.total + s.nextIn == old(s.total + s.nextIn) && old(s.tokens) <= s.tokens
    ensures flush.NoFlush? ==> bs.NeedMore?
    ensures !bs.NeedMore? ==> s.lookahead == 0 && s.nextIn == [] && s.flushed == |s.tokens|
    ensures !bs.NeedMore? ==> (bs.BlockDone? <==> !flush.Finish?)
    ensures room ==> Fast.Settled(s, flush, bs)
    ensures OneBack(s.tokens) && Tracked(s, old(LogOf(s, !flush.NoFlush?)))
  {
    hide Ready, Tracked, OneBack, Wise,
         Expand, Spells, State.Core, State.Filled, State.Blocked, State.Windowed, State.Sized, IsBytes, MaxDist;
    ghost var all := s.total + s.nextIn;
    ghost var g := LogOf(s, !flush.NoFlush?);
    TrackStarts(s, g.asked);
    ReadyFacts(s);
    while true
      invariant Ready(s) && s.finished == old(s.finished)
      invariant old(s.total) <= s.total && s.total + s.nextIn == all && old(s.tokens) <= s.tokens
      invariant Tracked(s, g)
      invariant s.Top() + s.lookahead == |s.total| && s.strstart + s.lookahead <= s.window.Length
      decreases |all| - s.Top()
    {
      TrackedBack(s, g);
      if s.lookahead <= MAX_MATCH {
        TrackFill(s, g);
        if s.lookahead <= MAX_MATCH && flush.NoFlush? { return NeedMore; }
        if s.lookahead == 0 { break; }
      }
      var full := TrackStep(s, room, g);
      TrackedBack(s, g);
      if full { return NeedMore; }
    }
    TrackedBack(s, g);
    bs := RunsEnd(s, flush, room);
  }

  /** deflate_huff. */
  method DeflateHuff(s: State, flush: Flush, room: bool) returns (bs: BlockState)
    requires Ready(s) && AllLiterals(s.tokens)
    modifies s, s.window, s.head, s.prev, s.dBuf, s.lBuf
    ensures Ready(s) && s.finished == old(s.finished)
    ensures old(s.total) <= s.total && s.total + s.nextIn == old(s.total + s.nextIn) && old(s.tokens) <= s.tokens
    ensures AllLiterals(s.tokens) && old(s.Top()) <= s.Top() && (s.base == old(s.base) || s.base + MaxDist(s.z) <= s.Top())
    ensures flush.NoFlush? ==> bs.NeedMore?
    ensures !bs.NeedMore? ==> s.lookahead == 0 && s.nextIn == [] && s.flushed == |s.tokens|
    ensures !bs.NeedMore? ==> (bs.BlockDone? <==> !flush.Finish?)
    ensures room ==> Fast.Settled(s, flush, bs)
  {
    hide Ready, AllLiterals, Expand, Spells, State.Core, State.Filled, State.Blocked, State.Windowed, State.Sized, IsBytes;
    ghost var all := s.total + s.nextIn;
    while true
      invariant Ready(s) && s.finished == old(s.finished)
      invariant old(s.total) <= s.total && s.total + s.nextIn == all && old(s.tokens) <= s.tokens
      invariant AllLiterals(s.tokens) && old(s.Top()) <= s.Top() && (s.base == old(s.base) || s.base + MaxDist(s.z) <= s.Top())
      decreases |all| - s.Top()
    {
      ReadyFacts(s);
      if s.lookahead == 0 {
        Fill(s);
        ReadyFacts(s);
        if s.lookahead == 0 {
          if flush.NoFlush? { return NeedMore; }
          break;
        }
      }
      ghost var ts := s.tokens;
      var full := HuffTurn(s, room);
      OneLiteral(ts, s.tokens);
      ReadyFacts(s);
      if full { return NeedMore; }
    }
    bs := RunsEnd(s, flush, room);
  }
}
