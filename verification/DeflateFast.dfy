/** Greedy matching (deflate.c, deflate_fast). */
module DeflateFast {
  import opened DeflateTokens
  import opened DeflateHash
  import opened DeflateChains
  import opened DeflateState
  import opened DeflateMatch
  import opened DeflateChoice

  /** Between two steps: the tokens are those of everything before strstart. */
  ghost predicate Ready(s: State)
    reads s, s.window, s.head, s.prev, s.dBuf, s.lBuf
  {
    && s.Core() && Greedy(s)
  }

  ghost predicate Greedy(s: State)
    reads s`tokens, s`flushed, s`total, s`base, s`blockStart, s`lastLit, s`strstart, s`matchAvailable, s`prevLength, s`matchLength, s.dBuf, s.lBuf
  {
    && s.Blocked() && s.lastLit + 1 < s.litBufsize
    && Spells(s.tokens, s.total, s.Top(), MaxDist(s.z))
    && !s.matchAvailable && s.prevLength == MIN_MATCH - 1 && s.matchLength < MIN_MATCH
  }

  /** There is room for the search and something to compress. */
  ghost predicate Enough(s: State)
    reads s`strstart, s`lookahead
  {
    s.lookahead > 0 && s.strstart + MIN_LOOKAHEAD <= s.window.Length
  }

  /** The strings inside a match are inserted too. */
  method InsertRest(s: State, ghost end: nat)
    requires s.Inserted(s.strstart) && 2 < s.matchLength && s.base + s.strstart + s.matchLength + 2 < |s.total|
    requires end == s.strstart + s.matchLength
    modifies s`matchLength, s`strstart, s`insH, s`ins, s.head, s.prev
    ensures s.strstart == end && s.matchLength == 0 && s.Inserted(s.strstart - 1)
    ensures s.ins == old(s.ins) + Strings(s.total, s.base + old(s.strstart) + 1, s.base + end)
  {
    hide State.Inserted;
    s.matchLength := s.matchLength - 1;
    while true
      invariant s.Inserted(s.strstart) && s.matchLength > 0 && s.strstart + s.matchLength + 1 == end
      invariant s.base + end + 2 < |s.total| && old(s.strstart) <= s.strstart
      invariant s.ins == old(s.ins) + Strings(s.total, s.base + old(s.strstart) + 1, s.base + s.strstart + 1)
      decreases s.matchLength
    {
      s.strstart := s.strstart + 1;
      s.InsertNext(s.strstart);
      s.matchLength := s.matchLength - 1;
      if s.matchLength == 0 { break; }
    }
    s.strstart := s.strstart + 1;
  }

  /** The search, when the chain has a head within reach. */
  method Find(s: State, hashHead: int)
    requires s.Inserted(s.strstart) && s.Windowed() && s.lookahead >= 3 && Enough(s)
    requires Former(hashHead, s.total, s.base, s.ins, s.Top(), s.z)
    requires s.prevLength == MIN_MATCH - 1 && s.matchLength < MIN_MATCH
    modifies s`matchLength, s`matchStart
    ensures s.matchLength <= s.lookahead || s.matchLength < MIN_MATCH
    ensures s.matchLength <= MAX_MATCH && (s.matchLength >= MIN_MATCH ==> MatchAt(s, s.matchLength))
    ensures s.Sized() && IsBytes(s.total)
    ensures s.matchLength >= NiceFor(s.niceMatch, s.lookahead)
            || NoBetter(s.total, s.base, s.ins, s.Top(), s.z, s.maxChainLength, Least(s.matchLength))
  {
    hide Dict, Shows, IsBytes, RollsAt, SlotAt, MatchAt, Candidates, NoneLonger, NoBetter, Former;
    FormerFacts(s, hashHead);
    if hashHead != 0 && s.strstart - hashHead <= MaxDist(s.z) {
      s.matchLength := LongestMatch(s, hashHead);
      if s.matchLength < NiceFor(s.niceMatch, s.lookahead) {
        Thorough(s.head[..], s.prev[..], s.total, s.base, s.ins, s.strstart, s.z, hashHead, s.maxChainLength, s.matchLength);
      }
    } else {
      NothingBetter(s.total, s.base, s.ins, s.strstart, s.z, hashHead, s.maxChainLength, Least(s.matchLength));
    }
  }

  /** Less than MIN_MATCH bytes are as good as none. */
  function Least(len: nat): nat { if len >= MIN_MATCH then len else MIN_MATCH - 1 }

  lemma FormerFacts(s: State, hashHead: int)
    requires s.Inserted(s.strstart) && Former(hashHead, s.total, s.base, s.ins, s.Top(), s.z)
    ensures hashHead == 0 || (0 < hashHead < s.strstart && OnChain(hashHead, s.total, s.base, s.ins, SlotAt(s.total, s.Top(), s.z), s.z))
    ensures Dict(s.head[..], s.prev[..], s.total, s.base, s.ins, s.base + s.strstart, s.z) && s.Top() + 2 < |s.total|
    ensures MaxDist(s.z) > 0 && s.goodMatch > MIN_MATCH && s.niceMatch >= 8 && s.Sized() && s.prev.Length == s.z.w
  {
    hide Dict, SlotAt;
  }

  /** The match goes out. */
  method EmitMatch(s: State, start: int, n: nat, len: nat) returns (bflush: bool)
    requires s.Blocked() && s.lastLit < s.litBufsize && Spells(s.tokens, s.total, s.base + n, MaxDist(s.z))
    requires MIN_MATCH <= len <= MAX_MATCH && 1 <= n - start <= MaxDist(s.z)
    requires Agree(s.total, s.base + start, s.base + n, len)
    modifies s`tokens, s`lastLit, s.dBuf, s.lBuf
    ensures s.Blocked() && s.lastLit == old(s.lastLit) + 1 && bflush == (s.lastLit == s.litBufsize - 1)
    ensures Spells(s.tokens, s.total, s.base + n + len, MaxDist(s.z)) && old(s.tokens) <= s.tokens
    ensures s.tokens == old(s.tokens) + [Match(len, n - start)]
  {
    hide Spells, FromBuffers;
    bflush := s.TallyDist(n - start, len - MIN_MATCH);
    AgreeStart(s.total, s.base + start, s.base + n, len);
    MatchSpells(old(s.tokens), s.total, s.base + n, len, n - start, MaxDist(s.z));
  }

  lemma AgreeStart(t: seq<int>, a: int, n: int, len: nat)
    requires Agree(t, a, n, len)
    ensures 0 <= a && n + len <= |t| && a + len <= |t|
  {
  }

  /** After a match. */
  method PassMatch(s: State)
    requires s.Inserted(s.strstart) && s.insert == 0 && IsBytes(s.nextIn) && Enough(s)
    requires 3 <= s.matchLength <= s.lookahead && s.matchLength <= MAX_MATCH && s.Top() + s.lookahead == |s.total|
    modifies s`matchLength, s`strstart, s`lookahead, s`insH, s`ins, s.head, s.prev
    ensures s.Core() && s.matchLength == 0 && s.strstart == old(s.strstart + s.matchLength)
    ensures s.ins == old(s.ins) + Strings(s.total, old(s.Top()) + 1,
                                          if old(s.matchLength) <= s.maxLazyMatch && s.Top() + MIN_MATCH <= |s.total| then s.Top()
                                          else old(s.Top()) + 1)
  {
    hide Dict, Shows, Rolls, Current;
    var str := s.strstart;
    s.lookahead := s.lookahead - s.matchLength;
    if s.matchLength <= s.maxLazyMatch && s.lookahead >= MIN_MATCH {
      InsertRest(s, s.strstart + s.matchLength);
      s.Resumed(s.strstart - 1);
    } else {
      s.strstart := s.strstart + s.matchLength;
      s.matchLength := 0;
      if s.lookahead >= 3 {
        ShownAt(s.window[..], s.total, s.base, s.strstart);
        ShownAt(s.window[..], s.total, s.base, s.strstart + 1);
      }
      s.StartHash(s.window[s.strstart], s.window[s.strstart + 1]);
      s.Resumed(str);
    }
  }

  /** A literal goes out. */
  method EmitLiteral(s: State, n: nat) returns (bflush: bool)
    requires s.Blocked() && s.lastLit < s.litBufsize && Spells(s.tokens, s.total, s.base + n, MaxDist(s.z))
    requires IsBytes(s.total) && Shows(s.window[..], s.total, s.base) && s.base + n < |s.total|
    modifies s`tokens, s`lastLit, s.dBuf, s.lBuf
    ensures s.Blocked() && s.lastLit == old(s.lastLit) + 1 && bflush == (s.lastLit == s.litBufsize - 1)
    ensures Spells(s.tokens, s.total, s.base + n + 1, MaxDist(s.z))
    ensures s.tokens == old(s.tokens) + [Literal(s.total[s.base + n])]
  {
    hide Spells, FromBuffers, Shows;
    ShownAt(s.window[..], s.total, s.base, n);
    bflush := s.TallyLit(s.window[n]);
    LiteralSpells(old(s.tokens), s.total, s.base + n, MaxDist(s.z));
  }

  lemma MatchFacts(s: State, len: nat)
    requires MatchAt(s, len) && s.Top() + len <= |s.total|
    ensures 1 <= s.strstart - s.matchStart <= MaxDist(s.z) && Agree(s.total, s.base + s.matchStart, s.Top(), len)
  {
  }

  method MatchTurn(s: State) returns (bflush: bool)
    requires s.Inserted(s.strstart) && s.insert == 0 && IsBytes(s.nextIn) && Enough(s)
    requires 3 <= s.matchLength <= s.lookahead && s.matchLength <= MAX_MATCH && s.Top() + s.lookahead == |s.total|
    requires MatchAt(s, s.matchLength)
    requires s.Blocked() && s.lastLit < s.litBufsize && Spells(s.tokens, s.total, s.Top(), MaxDist(s.z))
    modifies s`matchLength, s`strstart, s`lookahead, s`insH, s`ins, s`tokens, s`lastLit, s.head, s.prev, s.dBuf, s.lBuf
    ensures s.Core() && s.Blocked() && s.lastLit == old(s.lastLit) + 1 && bflush == (s.lastLit == s.litBufsize - 1)
    ensures Spells(s.tokens, s.total, s.Top(), MaxDist(s.z)) && old(s.tokens) <= s.tokens
    ensures s.matchLength == 0 && s.strstart == old(s.strstart + s.matchLength)
    ensures s.ins == old(s.ins) + Strings(s.total, old(s.Top()) + 1,
                                          if old(s.matchLength) <= s.maxLazyMatch && s.Top() + MIN_MATCH <= |s.total| then s.Top()
                                          else old(s.Top()) + 1)
    ensures s.tokens == old(s.tokens) + [Match(old(s.matchLength), old(s.strstart - s.matchStart))]
  {
    hide Dict, Shows, RollsAt, IsBytes, Spells, FromBuffers, Agree, MatchAt, State.Core;
    MatchFacts(s, s.matchLength);
    bflush := EmitMatch(s, s.matchStart, s.strstart, s.matchLength);
    PassMatch(s);
  }

  method LiteralTurn(s: State) returns (bflush: bool)
    requires s.Inserted(s.strstart) && s.insert == 0 && IsBytes(s.nextIn) && s.lookahead > 0 && s.Top() + s.lookahead == |s.total|
    requires s.Blocked() && s.lastLit < s.litBufsize && Spells(s.tokens, s.total, s.Top(), MaxDist(s.z))
    modifies s`strstart, s`lookahead, s`tokens, s`lastLit, s.dBuf, s.lBuf
    ensures s.Core() && s.Blocked() && s.lastLit == old(s.lastLit) + 1 && bflush == (s.lastLit == s.litBufsize - 1)
    ensures Spells(s.tokens, s.total, s.Top(), MaxDist(s.z)) && old(s.tokens) <= s.tokens
    ensures s.strstart == old(s.strstart) + 1 && s.tokens == old(s.tokens) + [Literal(s.total[old(s.Top())])]
  {
    hide Dict, Shows, RollsAt, IsBytes, Spells, FromBuffers, State.Core;
    bflush := EmitLiteral(s, s.strstart);
    s.lookahead := s.lookahead - 1;
    s.strstart := s.strstart + 1;
    s.Resumed(s.strstart - 1);
  }

  method TailTurn(s: State) returns (bflush: bool)
    requires s.Core() && 0 < s.lookahead < 3
    requires s.Blocked() && s.lastLit < s.litBufsize && Spells(s.tokens, s.total, s.Top(), MaxDist(s.z))
    modifies s`strstart, s`lookahead, s`tokens, s`lastLit, s.dBuf, s.lBuf
    ensures s.Core() && s.Blocked() && s.lastLit == old(s.lastLit) + 1 && bflush == (s.lastLit == s.litBufsize - 1)
    ensures Spells(s.tokens, s.total, s.Top(), MaxDist(s.z)) && old(s.tokens) <= s.tokens
    ensures s.strstart == old(s.strstart) + 1 && s.tokens == old(s.tokens) + [Literal(s.total[old(s.Top())])]
  {
    hide Dict, Shows, RollsAt, IsBytes, Spells, FromBuffers, State.Core, State.Filled;
    s.CoreFacts();
    bflush := EmitLiteral(s, s.strstart);
    s.MoveOn(1);
  }

  /** The string here is inserted, and a match is looked for. */
  method SearchHere(s: State)
    requires Ready(s) && Enough(s) && s.lookahead >= MIN_MATCH
    modifies s`matchLength, s`matchStart, s`insH, s`ins, s.head, s.prev
    ensures s.Inserted(s.strstart) && s.insert == 0 && IsBytes(s.nextIn) && s.Top() + s.lookahead == |s.total|
    ensures s.matchLength <= s.lookahead && s.matchLength <= MAX_MATCH && (s.matchLength >= MIN_MATCH ==> MatchAt(s, s.matchLength))
    ensures s.ins == old(s.ins) + {s.Top()} && s.Sized() && IsBytes(s.total)
    ensures s.matchLength >= NiceFor(s.niceMatch, s.lookahead)
            || NoBetter(s.total, s.base, old(s.ins), s.Top(), s.z, s.maxChainLength, Least(s.matchLength))
  {
    hide IsBytes, Shows, Spells, OnChain, SlotAt, MatchAt, State.Windowed, State.Core, State.Filled, State.Inserted, Former, NoBetter,
         State.Blocked;
    s.CoreFacts();
    ghost var ins0, a := s.ins, s.Top();
    var hashHead := s.InsertFirst();
    Find(s, hashHead);
    if s.matchLength < NiceFor(s.niceMatch, s.lookahead) {
      NoBetterThen(s.total, s.base, ins0, a, s.z, s.maxChainLength, Least(s.matchLength));
    }
  }

  /** One turn of the loop: a match or a literal. */
  method FastStep(s: State) returns (bflush: bool)
    requires Ready(s) && Enough(s)
    modifies s`matchLength, s`matchStart, s`strstart, s`lookahead, s`insH, s`ins, s`tokens, s`lastLit,
             s.head, s.prev, s.dBuf, s.lBuf
    ensures s.Core() && s.Blocked() && s.lastLit == old(s.lastLit) + 1 && bflush == (s.lastLit == s.litBufsize - 1)
    ensures Spells(s.tokens, s.total, s.Top(), MaxDist(s.z)) && old(s.tokens) <= s.tokens
    ensures s.matchLength < MIN_MATCH && s.strstart > old(s.strstart)
    ensures |s.tokens| == |old(s.tokens)| + 1 && s.Sized() && IsBytes(s.total)
    ensures s.ins == old(s.ins) + Strings(s.total, old(s.Top()), InsertedTo(s.tokens[|old(s.tokens)|], old(s.Top()), |s.total|, s.maxLazyMatch))
    ensures old(s.lookahead) >= MIN_MATCH ==>
              Picked(s.total, s.base, old(s.ins), old(s.Top()), s.z, s.maxChainLength, NiceFor(s.niceMatch, old(s.lookahead)),
                        s.tokens[|old(s.tokens)|])
  {
    hide IsBytes, Shows, Spells, MatchAt, State.Windowed, State.Core, State.Filled, State.Inserted, NoBetter, State.Blocked, GoodSizes;
    s.CoreFacts();
    if s.lookahead >= MIN_MATCH {
      SearchHere(s);
      if s.matchLength >= MIN_MATCH {
        bflush := MatchTurn(s);
      } else {
        bflush := LiteralTurn(s);
      }
    } else {
      bflush := TailTurn(s);
    }
  }

  lemma ReadyLater(s: State, t: seq<int>)
    requires s.Core() && s.Blocked() && s.lastLit + 1 < s.litBufsize && Spells(s.tokens, t, s.Top(), MaxDist(s.z)) && t <= s.total
    requires !s.matchAvailable && s.prevLength == MIN_MATCH - 1 && s.matchLength < MIN_MATCH
    ensures Ready(s)
  {
    MoreInput(s.tokens, t, s.total, s.Top(), MaxDist(s.z));
  }

  method Fill(s: State)
    requires Ready(s) && s.lookahead < MIN_LOOKAHEAD
    modifies s`strstart, s`lookahead, s`insert, s`insH, s`matchStart, s`blockStart, s`nextIn, s`total, s`base, s`ins,
             s.window, s.head, s.prev
    ensures Ready(s) && s.strstart + MIN_LOOKAHEAD <= s.window.Length && s.Top() == old(s.Top())
    ensures old(s.total) <= s.total && s.total + s.nextIn == old(s.total + s.nextIn) && IsBytes(s.total)
    ensures s.lookahead >= MIN_LOOKAHEAD || s.nextIn == []
    ensures Later(old(s.ins), s.ins) && (s.base == old(s.base) || s.strstart >= MaxDist(s.z))
  {
    hide State.Core, State.Blocked, State.Filled, Spells;
    s.CoreFacts();
    ghost var t := s.total;
    s.Refill();
    s.CoreFacts();
    ReadyLater(s, t);
  }

  /** All tokens so far are choices the greedy method makes. */
  ghost predicate Wise(s: State)
    reads s`tokens, s`looks, s`total, s`ins
  {
    FastWise(s.tokens, s.looks, s.total, s.ins, TuningOf(s))
  }

  /** What a turn chose, as a choice at a look. */
  lemma Chosen(tok: Token, a: nat, t: seq<int>, base: nat, ins0: set<int>, ins: set<int>, c: Tuning)
    requires GoodSizes(c.z) && IsBytes(t) && a < |t| && (forall x :: x in ins0 ==> x < a)
    requires a + MIN_MATCH <= |t| ==> Picked(t, base, ins0, a, c.z, c.chain, NiceFor(c.nice, |t| - a), tok)
    requires ins == ins0 + Strings(t, a, InsertedTo(tok, a, |t|, c.lazy))
    requires tok.Match? ==> tok.len >= MIN_MATCH
    ensures FastChoice(tok, a, Look(|t|, base), t, ins, c)
  {
    hide GoodSizes, Picked, IsBytes;
    assert t[..|t|] == t;
    if a + MIN_MATCH <= |t| {
      assert a in Strings(t, a, InsertedTo(tok, a, |t|, c.lazy));
      PickedSame(t, base, ins0, ins, a, c.z, c.chain, NiceFor(c.nice, |t| - a), tok);
    }
  }

  /** Nothing has been inserted beyond strstart. */
  lemma Before(s: State)
    requires s.Core()
    ensures forall x :: x in s.ins ==> x < s.Top()
  {
    hide Dict, IsBytes;
  }

  lemma LastAllowed(ts: seq<Token>, tok: Token, t: seq<int>, n: nat, maxDist: int)
    requires Spells(ts + [tok], t, n, maxDist)
    ensures Allowed(tok, maxDist)
  {
    assert (ts + [tok])[|ts|] == tok;
  }

  method FastTurn(s: State, room: bool) returns (full: bool)
    requires Ready(s) && Enough(s) && Wise(s)
    modifies s`looks, s`matchLength, s`matchStart, s`strstart, s`lookahead, s`insH, s`ins, s`tokens, s`lastLit, s`blockStart, s`flushed,
             s.head, s.prev, s.dBuf, s.lBuf
    ensures Ready(s) && old(s.tokens) <= s.tokens && s.strstart > old(s.strstart) && (room ==> !full)
    ensures Wise(s) && |s.tokens| == |old(s.tokens)| + 1 && s.looks == old(s.looks) + [Look(|s.total|, s.base)]
    ensures Covered(old(s.tokens)) == old(s.Top())
  {
    hide State.Core, State.Blocked, State.Filled, Spells, FastWise, Covered, Picked, IsBytes, Later;
    full := false;
    ghost var ins0, ts0, looks0, a, c := s.ins, s.tokens, s.looks, s.Top(), TuningOf(s);
    s.CoreFacts();
    SpellsCovers(ts0, s.total, a, MaxDist(s.z));
    Before(s);
    var bflush := FastStep(s);
    s.CoreFacts();
    ghost var tok := s.tokens[|ts0|];
    assert s.tokens == ts0 + [tok];
    LastAllowed(ts0, tok, s.total, s.Top(), MaxDist(s.z));
    StringsLater(ins0, s.total, a, InsertedTo(tok, a, |s.total|, c.lazy));
    Chosen(tok, a, s.total, s.base, ins0, s.ins, c);
    FastWiseMore(ts0, looks0, tok, Look(|s.total|, s.base), s.total, ins0, s.ins, c);
    s.looks := s.looks + [Look(|s.total|, s.base)];
    if bflush {
      s.FlushBlock();
      if !room { full := *; }
    }
  }

  method FastEnd(s: State, flush: Flush, room: bool) returns (bs: BlockState)
    requires Ready(s) && s.lookahead == 0 && !flush.NoFlush?
    modifies s`insert, s`lastLit, s`blockStart, s`flushed
    ensures Ready(s) && s.lastLit == 0 && s.flushed == |s.tokens|
    ensures bs.BlockDone? || bs.NeedMore? <==> !flush.Finish?
    ensures room ==> bs.BlockDone? || bs.FinishDone?
  {
    hide State.Core, State.Blocked, Spells;
    s.CoreFacts();
    s.Remember(if s.strstart < MIN_MATCH - 1 then s.strstart else MIN_MATCH - 1);
    bs := s.EndBlock(flush, room);
  }

  lemma ReadyFacts(s: State)
    requires Ready(s)
    ensures s.Top() + s.lookahead == |s.total| && s.strstart + s.lookahead <= s.window.Length
  {
    s.CoreFacts();
  }

  /** Where a strategy stops that is never short of room: in want of input, or done. */
  ghost predicate Settled(s: State, flush: Flush, bs: BlockState)
    reads s
  {
    && !bs.FinishStarted?
    && (bs.NeedMore? ==> flush.NoFlush? && s.nextIn == [] && s.lookahead < MIN_LOOKAHEAD)
  }

  lemma NoLooks(ts: seq<Token>, looks: seq<Look>, g: Log, z: Sizes)
    requires |looks| <= |ts| + 1
    ensures forall d :: AllHonest(ts, looks, d, |looks|, g, z)
  {
  }

  lemma WiseFacts(s: State)
    requires Wise(s)
    ensures |s.looks| == |s.tokens|
  {
  }

  /** A token and the look that chose it. */
  lemma HonestTurn(ts: seq<Token>, ts': seq<Token>, looks: seq<Look>, l: Look, n: nat, g: Log, z: Sizes)
    requires AllHonest(ts, looks, 0, n, g, z) && |looks| == |ts| && ts <= ts' && |ts'| == |ts| + 1
    requires Honest(l, Covered(ts), g, z)
    ensures AllHonest(ts', looks + [l], 0, n, g, z)
  {
    hide AllHonest, Honest, Covered;
    assert ts' == ts + [ts'[|ts|]] && ts[..|looks|] == ts;
    HonestLook(ts, looks, l, 0, n, g, z);
    HonestToken(ts, ts'[|ts|], looks + [l], 0, n, g, z);
  }

  /** All choices so far are wise, and the looks since g are honest; the window begins where it did
      then, or has lost nothing within reach. */
  ghost predicate Tracked(s: State, g: Log)
    reads s`tokens, s`looks, s`total, s`ins, s`base, s`strstart
  {
    && Wise(s) && g.top <= s.Top() && (s.base == g.lo || s.base + MaxDist(s.z) <= s.Top()) && g.looks <= s.looks
    && AllHonest(s.tokens, s.looks, 0, |g.looks|, g, s.z)
  }

  lemma TrackStarts(s: State, asked: bool)
    requires Wise(s)
    ensures Tracked(s, LogOf(s, asked))
  {
    hide FastWise, Covered;
    WiseFacts(s);
    NoLooks(s.tokens, s.looks, LogOf(s, asked), s.z);
  }

  method TrackFill(s: State, ghost g: Log)
    requires Ready(s) && s.lookahead < MIN_LOOKAHEAD && Tracked(s, g)
    modifies s`strstart, s`lookahead, s`insert, s`insH, s`matchStart, s`blockStart, s`nextIn, s`total, s`base, s`ins,
             s.window, s.head, s.prev
    ensures Ready(s) && s.strstart + MIN_LOOKAHEAD <= s.window.Length && s.Top() == old(s.Top())
    ensures old(s.total) <= s.total && s.total + s.nextIn == old(s.total + s.nextIn)
    ensures s.lookahead >= MIN_LOOKAHEAD || s.nextIn == []
    ensures s.Top() + s.lookahead == |s.total|
    ensures Tracked(s, g)
  {
    hide Ready, FastWise, IsBytes, Later, AllHonest;
    ghost var t, ins := s.total, s.ins;
    Fill(s);
    FastWiseLater(s.tokens, s.looks, t, s.total, ins, s.ins, TuningOf(s));
    ReadyFacts(s);
  }

  method TrackTurn(s: State, room: bool, ghost g: Log) returns (full: bool)
    requires Ready(s) && Enough(s) && Tracked(s, g)
    requires s.lookahead >= MIN_LOOKAHEAD || (g.asked && |s.total| == g.all)
    modifies s`looks, s`matchLength, s`matchStart, s`strstart, s`lookahead, s`insH, s`ins, s`tokens, s`lastLit, s`blockStart, s`flushed,
             s.head, s.prev, s.dBuf, s.lBuf
    ensures Ready(s) && old(s.tokens) <= s.tokens && s.strstart > old(s.strstart) && (room ==> !full)
    ensures s.Top() + s.lookahead == |s.total| && s.strstart + s.lookahead <= s.window.Length
    ensures Tracked(s, g)
  {
    hide Ready, FastWise, Covered, AllHonest;
    ReadyFacts(s);
    WiseFacts(s);
    ghost var ts, looks := s.tokens, s.looks;
    full := FastTurn(s, room);
    HonestTurn(ts, s.tokens, looks, Look(|s.total|, s.base), |g.looks|, g, s.z);
    ReadyFacts(s);
  }

  /** deflate_fast: however it is called, the tokens are always those of the input up to
      strstart; when it is done, of all input. With room for its output it stops early only for
      want of input. */
  method DeflateFast(s: State, flush: Flush, room: bool) returns (bs: BlockState)
    requires Ready(s) && Wise(s)
    modifies s, s.window, s.head, s.prev, s.dBuf, s.lBuf
    ensures Ready(s) && s.finished == old(s.finished)
    ensures old(s.total) <= s.total && s.total + s.nextIn == old(s.total + s.nextIn) && old(s.tokens) <= s.tokens
    ensures flush.NoFlush? ==> bs.NeedMore?
    ensures !bs.NeedMore? ==> s.lookahead == 0 && s.nextIn == [] && s.flushed == |s.tokens|
    ensures !bs.NeedMore? ==> (bs.BlockDone? <==> !flush.Finish?)
    ensures room ==> Settled(s, flush, bs)
    ensures Tracked(s, old(LogOf(s, !flush.NoFlush?)))
  {
    hide Ready, Tracked, Wise,
         Expand, Spells, State.Core, State.Filled, State.Blocked, State.Windowed, State.Sized, IsBytes, MaxDist;
    ghost var all := s.total + s.nextIn;
    ghost var g := LogOf(s, !flush.NoFlush?);
    TrackStarts(s, g.asked);
    ReadyFacts(s);
    while true
      invariant Ready(s) && s.finished == old(s.finished)
      invariant old(s.total) <= s.total && s.total + s.nextIn == all && old(s.tokens) <= s.tokens
      invariant Tracked(s, g)
      invariant s.Top() + s.lookahead == |s.total| && s.strstart + s.lookahead <= s.window.Length
      decreases |all| - s.Top()
    {
      if s.lookahead < MIN_LOOKAHEAD {
        TrackFill(s, g);
          if s.lookahead < MIN_LOOKAHEAD && flush.NoFlush? { return NeedMore; }
        if s.lookahead == 0 { break; }
      }
      var full := TrackTurn(s, room, g);
      if full { return NeedMore; }
    }
    bs := FastEnd(s, flush, room);
  }
}
