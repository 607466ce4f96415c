/** Lazy matching (deflate.c, deflate_slow): a match is adopted only if there is none longer at
    the next position. */
module DeflateSlow {
  import opened DeflateTokens
  import opened DeflateChains
  import opened DeflateState
  import opened DeflateMatch
  import opened DeflateChoice
  import Fast = DeflateFast

  /** Between two steps: the tokens are those of everything before strstart, except for the
      byte before strstart if that has been put off; then it may begin a match. */
  ghost predicate Ready(s: State)
    reads s, s.window, s.head, s.prev, s.dBuf, s.lBuf
  {
    && s.Core() && s.Blocked() && s.lastLit + 1 < s.litBufsize
    && (s.matchAvailable ==> s.strstart >= 1) && 2 <= s.matchLength <= MAX_MATCH
    && Spells(s.tokens, s.total, Done(s.Top(), s.matchAvailable), MaxDist(s.z))
    && (s.matchLength >= MIN_MATCH ==> s.matchAvailable && Pending(s.total, s.base, s.strstart, s.matchStart, s.matchLength, s.z))
  }

  function Done(top: nat, put: bool): nat { if put && top > 0 then top - 1 else top }

  /** A match of the byte before str. */
  ghost predicate Pending(t: seq<int>, base: nat, str: nat, start: int, len: nat, z: Sizes) {
    && 1 <= str - 1 - start <= MaxDist(z) && Agree(t, base + start, base + str - 1, len)
  }

  lemma PendingLonger(t: seq<int>, t': seq<int>, base: nat, str: nat, start: int, base': nat, str': nat, start': int, len: nat, z: Sizes)
    requires Pending(t, base, str, start, len, z) && t <= t' && base + str == base' + str' && base + start == base' + start'
    ensures Pending(t', base', str', start', len, z)
  {
    AgreeLonger(t, t', base + start, base + str - 1, len);
  }

  method Fill(s: State)
    requires Ready(s) && s.lookahead < MIN_LOOKAHEAD
    modifies s`strstart, s`lookahead, s`insert, s`insH, s`matchStart, s`blockStart, s`nextIn, s`total, s`base, s`ins,
             s.window, s.head, s.prev
    ensures Ready(s) && s.strstart + MIN_LOOKAHEAD <= s.window.Length && s.Top() == old(s.Top())
    ensures old(s.total) <= s.total && s.total + s.nextIn == old(s.total + s.nextIn) && IsBytes(s.total)
    ensures s.lookahead >= MIN_LOOKAHEAD || s.nextIn == []
    ensures s.strstart - s.matchStart == old(s.strstart - s.matchStart)
    ensures Later(old(s.ins), s.ins) && (s.base == old(s.base) || s.strstart >= MaxDist(s.z))
  {
    hide State.Core, State.Blocked, State.Filled, Spells, Pending;
    s.CoreFacts();
    s.Refill();
    s.CoreFacts();
    MoreInput(s.tokens, old(s.total), s.total, Done(s.Top(), s.matchAvailable), MaxDist(s.z));
    if s.matchLength >= MIN_MATCH {
      PendingLonger(old(s.total), s.total, old(s.base), old(s.strstart), old(s.matchStart), s.base, s.strstart, s.matchStart, s.matchLength, s.z);
    }
  }

  /** The string at strstart is in the dictionary if it can be. */
  ghost predicate Entered(s: State)
    reads s`strstart, s`lookahead, s`insert, s`total, s`base, s`ins, s`insH, s`nextIn, s.window, s.head, s.prev
  {
    && s.Sized() && IsBytes(s.total) && IsBytes(s.nextIn) && s.Top() + s.lookahead == |s.total|
    && s.strstart + s.lookahead <= s.window.Length && Shows(s.window[..], s.total, s.base)
    && if s.lookahead >= 3 then s.Inserted(s.strstart) && s.insert == 0 && s.Windowed() else s.Core()
  }

  method Enter(s: State) returns (hashHead: int)
    requires s.Core()
    modifies s`insH, s`ins, s.head, s.prev
    ensures Entered(s) && s.ins == old(s.ins) + Strings(s.total, s.Top(), s.Top() + 1)
    ensures if s.lookahead >= 3
            then IsBytes(s.total) && GoodSizes(s.z) && s.Top() + 2 < |s.total| && Former(hashHead, s.total, s.base, s.ins, s.Top(), s.z)
            else hashHead == 0
  {
    hide State.Core, State.Inserted, OnChain, SlotAt, IsBytes, Shows, State.Windowed;
    s.CoreFacts();
    hashHead := 0;
    if s.lookahead >= MIN_MATCH { hashHead := s.InsertFirst(); }
  }

  /** strstart moves on by one. */
  method AdvanceOne(s: State)
    requires Entered(s) && s.lookahead > 0
    modifies s`strstart, s`lookahead
    ensures s.Core() && s.strstart == old(s.strstart) + 1
  {
    hide State.Core, IsBytes, Shows, State.Windowed, Dict, RollsAt, State.Filled;
    if s.lookahead >= 3 {
      s.strstart := s.strstart + 1;
      s.lookahead := s.lookahead - 1;
      s.Resumed(s.strstart - 1);
    } else {
      s.CoreFacts();
      s.MoveOn(1);
    }
  }

  /** What a match that has been found counts: nothing, if it is short and is to be filtered out, or
      shortest and too far back. */
  function Adopted(found: nat, filtered: bool, dist: int): nat {
    if found <= 5 && (filtered || (found == MIN_MATCH && dist > TOO_FAR)) then MIN_MATCH - 1 else found
  }

  /** What is found at a when a match of n bytes has been put off: none of the positions to be looked
      at agrees in more bytes, or these are enough. There is no search if n is long enough already,
      or if less than three bytes are left. */
  ghost predicate Searched(t: seq<int>, base: nat, ins: set<int>, a: nat, c: Tuning, n: nat, found: nat)
    requires GoodSizes(c.z) && IsBytes(t) && a <= |t|
  {
    if a + MIN_MATCH <= |t| && n < c.lazy
    then found >= NiceFor(c.nice, |t| - a) || NoBetter(t, base, ins, a, c.z, ChainLimit(c.chain, n, c.good), found)
    else found == MIN_MATCH - 1
  }

  /** Is there a better match here than at the byte before? */
  method Find(s: State, hashHead: int) returns (ghost found: nat)
    requires Entered(s) && Fast.Enough(s)
    requires if s.lookahead >= 3 then Former(hashHead, s.total, s.base, s.ins, s.Top(), s.z) else hashHead == 0
    requires 2 <= s.prevLength <= MAX_MATCH && s.matchLength == MIN_MATCH - 1
    modifies s`matchLength, s`matchStart
    ensures 2 <= s.matchLength <= MAX_MATCH
    ensures found > s.prevLength ==> found <= s.lookahead && MatchAt(s, found)
    ensures s.Sized() && IsBytes(s.total) && s.Top() <= |s.total|
    ensures Searched(s.total, s.base, s.ins, s.Top(), TuningOf(s), s.prevLength, found)
    ensures s.matchLength == Adopted(found, s.strategy.Filtered?, s.strstart - s.matchStart)
  {
    hide Dict, Shows, IsBytes, RollsAt, SlotAt, MatchAt, Candidates, NoneLonger, State.Windowed, NoBetter, Former;
    found := MIN_MATCH - 1;
    if s.lookahead >= 3 {
      Fast.FormerFacts(s, hashHead);
      if hashHead == 0 || s.strstart - hashHead > MaxDist(s.z) {
        NothingBetter(s.total, s.base, s.ins, s.strstart, s.z, hashHead, ChainLimit(s.maxChainLength, s.prevLength, s.goodMatch), found);
      }
    }
    if hashHead != 0 && s.prevLength < s.maxLazyMatch && s.strstart - hashHead <= MaxDist(s.z) {
      s.matchLength := LongestMatch(s, hashHead);
      found := s.matchLength;
      if found < NiceFor(s.niceMatch, s.lookahead) {
        Thorough(s.head[..], s.prev[..], s.total, s.base, s.ins, s.strstart, s.z, hashHead,
                 ChainLimit(s.maxChainLength, s.prevLength, s.goodMatch), found);
      }
      if s.matchLength <= 5 && (s.strategy.Filtered? || (s.matchLength == MIN_MATCH && s.strstart - s.matchStart > TOO_FAR)) {
        s.matchLength := MIN_MATCH - 1;
      }
    }
  }

  /** All strings inside the match are inserted, up to the last whole one. */
  method InsertCovered(s: State, maxInsert: int, ghost str: nat)
    requires 1 <= s.prevLength && str == s.strstart && s.base + maxInsert + 3 == |s.total|
    requires if str <= maxInsert then s.Inserted(str) else s.CoreAt(str)
    modifies s`prevLength, s`strstart, s`insH, s`ins, s.head, s.prev
    ensures s.prevLength == 0 && s.strstart == str + old(s.prevLength)
    ensures s.ins == old(s.ins) + Strings(s.total, s.base + str + 1, s.base + s.strstart + 1)
    ensures if str <= maxInsert then s.Inserted(if s.strstart <= maxInsert then s.strstart else maxInsert) else s.CoreAt(str)
  {
    hide State.Inserted, State.CoreAt;
    while true
      invariant s.prevLength >= 1 && s.strstart + s.prevLength == str + old(s.prevLength) && s.strstart >= str
      invariant s.ins == old(s.ins) + Strings(s.total, s.base + str + 1, s.base + s.strstart + 1)
      invariant if str <= maxInsert then s.Inserted(if s.strstart <= maxInsert then s.strstart else maxInsert) else s.CoreAt(str)
      decreases s.prevLength
    {
      s.strstart := s.strstart + 1;
      if s.strstart <= maxInsert { s.InsertNext(s.strstart); }
      s.prevLength := s.prevLength - 1;
      if s.prevLength == 0 { break; }
    }
  }

  lemma PendingFacts(t: seq<int>, base: nat, str: nat, start: int, len: nat, z: Sizes)
    requires Pending(t, base, str, start, len, z)
    ensures base + str >= 1 && base + str - 1 + len <= |t| && 1 <= str - 1 - start <= MaxDist(z)
    ensures Agree(t, base + start, base + str - 1, len)
  {
  }

  /** The window after a match that began one byte back. */
  method PassMatch(s: State)
    requires Entered(s) && s.lookahead > 0 && s.prevLength >= 3 && s.prevLength - 1 <= s.lookahead
    modifies s`prevLength, s`strstart, s`lookahead, s`insH, s`ins, s.head, s.prev
    ensures s.Core() && s.strstart == old(s.strstart + s.prevLength) - 1
    ensures s.ins == old(s.ins) + Strings(s.total, old(s.Top()) + 1, s.Top())
  {
    hide State.Core, State.CoreAt, IsBytes, Shows, State.Windowed, Dict, RollsAt;
    var maxInsert := s.strstart + s.lookahead - MIN_MATCH;
    ghost var str := s.strstart;
    if s.lookahead < 3 { s.CoreHere(); }
    s.lookahead := s.lookahead - (s.prevLength - 1);
    s.prevLength := s.prevLength - 2;
    InsertCovered(s, maxInsert, str);
    s.strstart := s.strstart + 1;
    if str <= maxInsert {
      s.Resumed(if s.strstart - 1 <= maxInsert then s.strstart - 1 else maxInsert);
    } else {
      s.ResumedLate(str);
    }
  }

  /** The match of the byte before goes out. */
  method MatchTurn(s: State, room: bool) returns (full: bool)
    requires Entered(s) && s.lookahead > 0 && s.prevLength >= MIN_MATCH && s.prevLength <= MAX_MATCH
    requires Pending(s.total, s.base, s.strstart, s.prevMatch, s.prevLength, s.z)
    requires s.strstart >= 1 && s.Blocked() && s.lastLit + 1 < s.litBufsize && Spells(s.tokens, s.total, s.Top() - 1, MaxDist(s.z))
    modifies s`prevLength, s`matchLength, s`matchAvailable, s`strstart, s`lookahead, s`insH, s`ins,
             s`tokens, s`lastLit, s`blockStart, s`flushed, s.head, s.prev, s.dBuf, s.lBuf
    ensures Ready(s) && s.strstart == old(s.strstart + s.prevLength) - 1 && (room ==> !full)
    ensures old(s.prevMatch) < old(s.strstart) - 1 && !s.matchAvailable && s.matchLength == MIN_MATCH - 1
    ensures s.tokens == old(s.tokens) + [Match(old(s.prevLength), old(s.strstart - s.prevMatch) - 1)]
    ensures s.ins == old(s.ins) + Strings(s.total, old(s.Top()) + 1, s.Top())
  {
    hide State.Core, State.Blocked, IsBytes, Shows, State.Windowed, State.Inserted, Spells, Pending, Agree;
    PendingFacts(s.total, s.base, s.strstart, s.prevMatch, s.prevLength, s.z);
    var bflush := Fast.EmitMatch(s, s.prevMatch, s.strstart - 1, s.prevLength);
    PassMatch(s);
    s.matchAvailable := false;
    s.matchLength := MIN_MATCH - 1;
    full := false;
    if bflush {
      s.FlushBlock();
      if !room { full := *; }
    }
  }

  /** The byte before goes out as a literal; the one here is put off. */
  method LiteralTurn(s: State, room: bool) returns (full: bool)
    requires Entered(s) && s.lookahead > 0 && 2 <= s.matchLength <= MAX_MATCH && s.matchAvailable
    requires s.matchLength >= MIN_MATCH ==> s.matchLength <= s.lookahead && MatchAt(s, s.matchLength)
    requires s.strstart >= 1 && s.Blocked() && s.lastLit + 1 < s.litBufsize && Spells(s.tokens, s.total, s.Top() - 1, MaxDist(s.z))
    modifies s`strstart, s`lookahead, s`tokens, s`lastLit, s`blockStart, s`flushed, s.dBuf, s.lBuf
    ensures Ready(s) && s.strstart == old(s.strstart) + 1 && (room ==> !full)
    ensures 0 < old(s.Top()) <= |s.total| && s.tokens == old(s.tokens) + [Literal(s.total[old(s.Top()) - 1])]
  {
    hide State.Core, State.Blocked, IsBytes, Shows, State.Windowed, State.Inserted, Spells, Agree, MatchAt;
    if s.matchLength >= MIN_MATCH { BecomesPending(s); }
    var bflush := Fast.EmitLiteral(s, s.strstart - 1);
    if bflush { s.FlushBlock(); }
    AdvanceOne(s);
    full := false;
    if !room { full := *; }
  }

  lemma BecomesPending(s: State)
    requires s.Top() + s.matchLength <= |s.total| && MatchAt(s, s.matchLength)
    ensures Pending(s.total, s.base, s.strstart + 1, s.matchStart, s.matchLength, s.z)
  {
  }

  /** The byte here is put off. */
  method WaitTurn(s: State)
    requires Entered(s) && s.lookahead > 0 && 2 <= s.matchLength <= MAX_MATCH && !s.matchAvailable
    requires s.matchLength >= MIN_MATCH ==> s.matchLength <= s.lookahead && MatchAt(s, s.matchLength)
    requires s.Blocked() && s.lastLit + 1 < s.litBufsize && Spells(s.tokens, s.total, s.Top(), MaxDist(s.z))
    modifies s`strstart, s`lookahead, s`matchAvailable
    ensures Ready(s) && s.strstart == old(s.strstart) + 1 && s.matchAvailable
  {
    hide State.Core, State.Blocked, IsBytes, Shows, State.Windowed, State.Inserted, Spells, Agree, MatchAt;
    if s.matchLength >= MIN_MATCH { BecomesPending(s); }
    s.matchAvailable := true;
    AdvanceOne(s);
  }

  /** What was inserted last is not looked at. */
  lemma SearchedBefore(t: seq<int>, base: nat, ins: set<int>, a: nat, c: Tuning, n: nat, found: nat)
    requires GoodSizes(c.z) && IsBytes(t) && a <= |t| && Searched(t, base, ins + Strings(t, a, a + 1), a, c, n, found)
    ensures Searched(t, base, ins, a, c, n, found)
  {
    hide NoBetter, GoodSizes;
    if a + MIN_MATCH <= |t| && n < c.lazy && found < NiceFor(c.nice, |t| - a) {
      NoBetterSame(t, base, ins + Strings(t, a, a + 1), ins, a, c.z, ChainLimit(c.chain, n, c.good), found);
    }
  }

  lemma MatchedHere(s: State, len: nat)
    requires s.Top() <= |s.total| && len <= |s.total| - s.Top() && MatchAt(s, len)
    ensures 1 <= s.strstart - s.matchStart <= MaxDist(s.z) && Agree(s.total, s.base + s.matchStart, s.Top(), len)
  {
  }

  lemma StringsJoin(t: seq<int>, a: int, b: int)
    requires a < b
    ensures Strings(t, a, a + 1) + Strings(t, a + 1, b) == Strings(t, a, b)
  {
  }

  lemma EnteredFacts(s: State)
    requires Entered(s)
    ensures s.Sized() && IsBytes(s.total) && s.Top() + s.lookahead == |s.total|
  {
  }

  /** The string here is inserted, and a match is looked for. */
  method SearchHere(s: State) returns (ghost found: nat)
    requires s.Core() && Fast.Enough(s) && 2 <= s.matchLength <= MAX_MATCH
    modifies s`prevLength, s`prevMatch, s`matchLength, s`matchStart, s`insH, s`ins, s.head, s.prev
    ensures Entered(s) && s.prevLength == old(s.matchLength) && s.prevMatch == old(s.matchStart)
    ensures 2 <= s.matchLength <= MAX_MATCH && s.Sized() && IsBytes(s.total) && s.Top() + s.lookahead == |s.total|
    ensures Searched(s.total, s.base, old(s.ins), s.Top(), TuningOf(s), s.prevLength, found)
    ensures found > s.prevLength ==> found <= s.lookahead && MatchAt(s, found)
    ensures s.matchLength == Adopted(found, s.strategy.Filtered?, s.strstart - s.matchStart)
    ensures s.ins == old(s.ins) + Strings(s.total, s.Top(), s.Top() + 1)
  {
    hide State.Core, IsBytes, Shows, State.Windowed, MatchAt, Entered, OnChain, SlotAt, NoBetter, Former, Searched, GoodSizes, Strings;
    s.SizedFacts();
    var hashHead := Enter(s);
    s.prevLength, s.prevMatch := s.matchLength, s.matchStart;
    s.matchLength := MIN_MATCH - 1;
    found := Find(s, hashHead);
    EnteredFacts(s);
    SearchedBefore(s.total, s.base, old(s.ins), s.Top(), TuningOf(s), s.prevLength, found);
  }

  /** One turn of the loop. */
  method SlowTurn(s: State, room: bool) returns (full: bool, ghost found: nat)
    requires Ready(s) && Fast.Enough(s)
    modifies s`prevLength, s`prevMatch, s`matchLength, s`matchStart, s`matchAvailable, s`strstart, s`lookahead, s`insH, s`ins,
             s`tokens, s`lastLit, s`blockStart, s`flushed, s.head, s.prev, s.dBuf, s.lBuf
    ensures Ready(s) && s.strstart > old(s.strstart) && (room ==> !full)
    ensures s.Sized() && IsBytes(s.total) && old(s.Top()) < |s.total|
    ensures Searched(s.total, s.base, old(s.ins), old(s.Top()), TuningOf(s), old(s.matchLength), found)
    ensures found > old(s.matchLength) ==> 1 <= old(s.strstart) - s.matchStart <= MaxDist(s.z)
                                           && Agree(s.total, s.base + s.matchStart, old(s.Top()), found)
    ensures s.ins == old(s.ins) + Strings(s.total, old(s.Top()), s.Top())
    ensures var m, n := Adopted(found, s.strategy.Filtered?, old(s.strstart) - s.matchStart), old(s.matchLength);
            m >= MIN_MATCH - 1
            && if n >= MIN_MATCH && m <= n
            then
              && old(s.matchStart) < old(s.strstart) - 1 && s.strstart == old(s.strstart) - 1 + n
              && s.tokens == old(s.tokens) + [Match(n, old(s.strstart) - 1 - old(s.matchStart))]
              && !s.matchAvailable && s.matchLength == MIN_MATCH - 1
            else
              && s.strstart == old(s.strstart) + 1 && s.matchAvailable && s.matchLength == m
              && (old(s.matchAvailable) ==> old(s.Top()) > 0)
              && s.tokens == old(s.tokens) + if old(s.matchAvailable) then [Literal(s.total[old(s.Top()) - 1])] else []
  {
    hide State.Core, State.Blocked, IsBytes, Shows, State.Windowed, State.Inserted, Spells, Agree, MatchAt, Entered, Pending, OnChain, SlotAt,
         NoBetter, Searched, Strings, GoodSizes;
    s.SizedFacts();
    found := SearchHere(s);
    if found > s.prevLength { MatchedHere(s, found); }
    if s.prevLength >= MIN_MATCH && s.matchLength <= s.prevLength {
      StringsJoin(s.total, s.Top(), s.Top() + s.prevLength - 1);
      full := MatchTurn(s, room);
    } else if s.matchAvailable {
      full := LiteralTurn(s, room);
    } else {
      WaitTurn(s);
      full := false;
    }
  }

  // ---------------------------------------------------------------- what the turns choose

  /** All tokens so far are choices the lazy method makes, and what is put off is known. */
  ghost predicate Wise(s: State)
    reads s`tokens, s`looks, s`verdicts, s`total, s`ins, s`matchAvailable, s`matchLength, s`matchStart, s`strstart
  {
    && SlowWise(s.tokens, s.looks, s.verdicts, s.total, s.ins, TuningOf(s))
    && PutOff(s.matchAvailable, s.matchLength, s.tokens, s.looks, s.total, s.ins, TuningOf(s))
    && (s.matchAvailable && s.matchLength >= MIN_MATCH ==> Worth(s.matchLength, s.strstart - 1 - s.matchStart, s.strategy.Filtered?))
  }

  /** At place a, ins0 being inserted before, a match of n bytes being put off, one of found bytes
      was found at q, which counts m. */
  ghost predicate Turned(t: seq<int>, base: nat, ins0: set<int>, a: nat, c: Tuning, n: nat, found: nat, q: int, m: nat)
    requires GoodSizes(c.z) && IsBytes(t) && a < |t|
  {
    && (forall x :: x in ins0 ==> x < a) && Searched(t, base, ins0, a, c, n, found)
    && (found > n ==> 1 <= a - q <= MaxDist(c.z) && Agree(t, q, a, found))
    && m == Adopted(found, c.filtered, a - q) && m >= 2 && n >= 2 && c.nice >= 8 && c.lazy > MIN_MATCH && c.good > MIN_MATCH
  }

  /** What is found but not adopted leaves nothing better. */
  lemma Dropped(t: seq<int>, base: nat, ins0: set<int>, a: nat, c: Tuning, n: nat, found: nat, q: int, m: nat, len: nat)
    requires GoodSizes(c.z) && IsBytes(t) && a + MIN_MATCH <= |t| && Turned(t, base, ins0, a, c, n, found, q, m) && n < c.lazy
    requires found <= len && (found <= 5 || found < NiceFor(c.nice, |t| - a))
    ensures NoBetter(t, base, ins0, a, c.z, ChainLimit(c.chain, n, c.good), len)
  {
    hide NoBetter, GoodSizes, Agree;
    if found >= NiceFor(c.nice, |t| - a) {
      NoBetterAtEnd(t, base, ins0, a, c.z, ChainLimit(c.chain, n, c.good), len);
    } else {
      NoBetterLess(t, base, ins0, a, c.z, ChainLimit(c.chain, n, c.good), found, ChainLimit(c.chain, n, c.good), len);
    }
  }

  lemma TurnedLean(t: seq<int>, base: nat, ins0: set<int>, a: nat, c: Tuning, n: nat, found: nat, q: int)
    requires GoodSizes(c.z) && IsBytes(t) && a + MIN_MATCH <= |t| && Turned(t, base, ins0, a, c, n, found, q, 2) && n == 2
    ensures Lean(t, base, ins0, a, c)
  {
    hide NoBetter, GoodSizes, Agree;
    if c.filtered {
      Dropped(t, base, ins0, a, c, n, found, q, 2, 5);
    } else {
      Dropped(t, base, ins0, a, c, n, found, q, 2, found);
      if found == 3 {
        InRange(t, q, a, 3);
        assert q >= 0 by { AgreeNotNegative(t, q, a, 3); }
      }
    }
  }

  lemma AgreeNotNegative(t: seq<int>, q: int, a: int, len: nat)
    requires Agree(t, q, a, len)
    ensures q >= 0
  {
  }

  lemma TurnedBest(t: seq<int>, base: nat, ins0: set<int>, a: nat, c: Tuning, n: nat, found: nat, q: int, m: nat)
    requires GoodSizes(c.z) && IsBytes(t) && a < |t| && Turned(t, base, ins0, a, c, n, found, q, m) && m >= MIN_MATCH
    ensures a + MIN_MATCH <= |t| && Best(t, base, ins0, a, c, m)
  {
    hide NoBetter, GoodSizes, Agree;
    if m < NiceFor(c.nice, |t| - a) {
      NoBetterLess(t, base, ins0, a, c.z, ChainLimit(c.chain, n, c.good), found, c.chain / 4, m);
    }
  }

  /** The byte here is put off, with a match or without. */
  lemma NowWaiting(t: seq<int>, base: nat, ins0: set<int>, ins: set<int>, a: nat, c: Tuning, n: nat, found: nat, q: int, m: nat)
    requires GoodSizes(c.z) && IsBytes(t) && a < |t| && Turned(t, base, ins0, a, c, n, found, q, m) && !(n >= MIN_MATCH && m <= n)
    requires ins == ins0 + Strings(t, a, a + 1)
    ensures Waiting(m, a, Look(|t|, base), t, ins, c)
  {
    hide NoBetter, GoodSizes, Agree, Searched;
    assert t[..|t|] == t;
    if m >= MIN_MATCH {
      TurnedBest(t, base, ins0, a, c, n, found, q, m);
      assert Matched(t, a, m, c.z);
      if m < NiceFor(c.nice, |t| - a) { NoBetterSame(t, base, ins0, ins, a, c.z, c.chain / 4, m); }
    } else if a + MIN_MATCH <= |t| {
      TurnedLean(t, base, ins0, a, c, n, found, q);
      LeanSame(t, base, ins0, ins, a, c);
    }
  }

  lemma LeanSame(t: seq<int>, base: nat, ins: set<int>, ins': set<int>, p: int, c: Tuning)
    requires GoodSizes(c.z) && IsBytes(t) && Lean(t, base, ins, p, c) && forall q :: q < p ==> (q in ins <==> q in ins')
    ensures Lean(t, base, ins', p, c)
  {
    hide GoodSizes, NoBetter, FarOff;
    if c.filtered {
      NoBetterSame(t, base, ins, ins', p, c.z, c.chain, 5);
    } else if NoBetter(t, base, ins, p, c.z, c.chain, 2) {
      NoBetterSame(t, base, ins, ins', p, c.z, c.chain, 2);
    } else {
      NoBetterSame(t, base, ins, ins', p, c.z, c.chain, 3);
    }
  }

  /** The byte before goes out as a literal. */
  lemma LiteralSettled(t: seq<int>, base: nat, ins0: set<int>, ins: set<int>, a: nat, c: Tuning, n: nat, found: nat, q: int, m: nat,
                       l: Look, x: int)
    requires GoodSizes(c.z) && IsBytes(t) && 0 < a < |t| && Turned(t, base, ins0, a, c, n, found, q, m) && !(n >= MIN_MATCH && m <= n)
    requires Waiting(n, a - 1, l, t, ins0, c) && Later(ins0, ins)
    ensures SlowChoice(Literal(x), a - 1, l, Look(|t|, base), t, ins, c)
  {
    hide NoBetter, GoodSizes, Agree, Waiting;
    assert t[..|t|] == t;
    WaitingLater(n, a - 1, l, t, t, ins0, ins, c);
    if n >= MIN_MATCH {
      assert n < c.lazy;
      AgreeLess(t, q, a, found, n + 1);
      assert Matched(t, a, n + 1, c.z);
    }
  }

  /** The match of the byte before goes out. */
  lemma MatchSettled(t: seq<int>, base: nat, ins0: set<int>, ins: set<int>, a: nat, c: Tuning, n: nat, found: nat, q: int, m: nat,
                     l: Look, d: nat)
    requires GoodSizes(c.z) && IsBytes(t) && 0 < a < |t| && Turned(t, base, ins0, a, c, n, found, q, m) && n >= MIN_MATCH && m <= n
    requires Waiting(n, a - 1, l, t, ins0, c) && Worth(n, d, c.filtered) && ins == ins0 + Strings(t, a, a - 1 + n)
    ensures SlowChoice(Match(n, d), a - 1, l, Look(|t|, base), t, ins, c)
  {
    hide NoBetter, GoodSizes, Agree, Waiting;
    assert t[..|t|] == t;
    StringsLater(ins0, t, a, a - 1 + n);
    WaitingLater(n, a - 1, l, t, t, ins0, ins, c);
    if a + MIN_MATCH <= |t| && n < c.lazy && n < NiceFor(c.nice, |t| - a) {
      var len := if c.filtered && n < 5 then 5 else n;
      Dropped(t, base, ins0, a, c, n, found, q, m, len);
      NoBetterSame(t, base, ins0, ins, a, c.z, ChainLimit(c.chain, n, c.good), len);
    }
  }

  lemma Before(s: State)
    requires Ready(s)
    ensures (forall x :: x in s.ins ==> x < s.Top()) && (s.matchAvailable ==> s.Top() > 0)
    ensures s.niceMatch >= 8 && s.maxLazyMatch > MIN_MATCH && s.goodMatch > MIN_MATCH
  {
    hide Dict, IsBytes;
  }

  /** A turn, and what is to be remembered of it. */
  method SlowStep(s: State, room: bool) returns (full: bool)
    requires Ready(s) && Fast.Enough(s) && Wise(s)
    modifies s`prevLength, s`prevMatch, s`matchLength, s`matchStart, s`matchAvailable, s`strstart, s`lookahead, s`insH, s`ins,
             s`tokens, s`looks, s`verdicts, s`lastLit, s`blockStart, s`flushed, s.head, s.prev, s.dBuf, s.lBuf
    ensures Ready(s) && s.strstart > old(s.strstart) && old(s.tokens) <= s.tokens && (room ==> !full)
    ensures Wise(s) && |s.tokens| <= |old(s.tokens)| + 1
    ensures s.looks == old(s.looks) + if s.matchAvailable then [Look(|s.total|, s.base)] else []
    ensures s.verdicts == old(s.verdicts) + if |s.tokens| > |old(s.tokens)| then [Look(|s.total|, s.base)] else []
    ensures Covered(old(s.tokens)) + (if old(s.matchAvailable) then 1 else 0) == old(s.Top())
    ensures |s.tokens| == |old(s.tokens)| + 1 <==> old(s.matchAvailable)
    ensures s.matchAvailable ==> Covered(s.tokens) == old(s.Top())
  {
    hide State.Core, State.Blocked, IsBytes, Shows, Spells, Agree, Pending, Covered, SlowWise, Waiting, Turned, Searched, Strings, Later,
         GoodSizes, SlowChoice;
    ghost var ins0, ts0, put, n, a, c := s.ins, s.tokens, s.matchAvailable, s.matchLength, s.Top(), TuningOf(s);
    ghost var t, base, str0 := s.total, s.base, s.strstart;
    ghost var l := Look(|t|, base);
    Before(s);
    SpellsCovers(ts0, t, Done(a, put), MaxDist(s.z));
    ghost var found;
    full, found := SlowTurn(s, room);
    ghost var q := base + s.matchStart;
    ghost var m := Adopted(found, c.filtered, a - q);
    ghost var tok := if |s.tokens| > |ts0| then s.tokens[|ts0|] else Literal(0);
    ghost var looks0, verdicts0 := s.looks, s.verdicts;
    StringsLater(ins0, t, a, s.Top());
    HasTurned(t, base, ins0, a, c, n, found, q, m);
    if n >= MIN_MATCH && m <= n {
      MatchSettled(t, base, ins0, s.ins, a, c, n, found, q, m, looks0[|ts0|], a - 1 - old(base + s.matchStart));
      SlowWiseMore(ts0, looks0, verdicts0, tok, l, t, ins0, s.ins, c);
    } else {
      NowWaiting(t, base, ins0, s.ins, a, c, n, found, q, m);
      if put {
        LiteralSettled(t, base, ins0, s.ins, a, c, n, found, q, m, looks0[|ts0|], t[a - 1]);
        SlowWiseMore(ts0, looks0, verdicts0, tok, l, t, ins0, s.ins, c);
        CoveredSnoc(ts0, tok);
        assert Covered(s.tokens) == a;
        SlowWiseLook(s.tokens, looks0, verdicts0 + [l], l, t, s.ins, c);
      } else {
        assert s.tokens == ts0 && Covered(ts0) == a;
        SlowWiseLater(ts0, looks0, verdicts0, t, t, ins0, s.ins, c);
        SlowWiseLook(ts0, looks0, verdicts0, l, t, s.ins, c);
      }
    }
    if |s.tokens| > |ts0| { s.verdicts := s.verdicts + [l]; }
    if s.matchAvailable { s.looks := s.looks + [l]; }
  }

  lemma HasTurned(t: seq<int>, base: nat, ins0: set<int>, a: nat, c: Tuning, n: nat, found: nat, q: int, m: nat)
    requires GoodSizes(c.z) && IsBytes(t) && a < |t|
    requires (forall x :: x in ins0 ==> x < a) && Searched(t, base, ins0, a, c, n, found)
    requires found > n ==> 1 <= a - q <= MaxDist(c.z) && Agree(t, q, a, found)
    requires m == Adopted(found, c.filtered, a - q) && m >= 2 && n >= 2 && c.nice >= 8 && c.lazy > MIN_MATCH && c.good > MIN_MATCH
    ensures Turned(t, base, ins0, a, c, n, found, q, m)
  {
  }

  lemma ReadyFacts(s: State)
    requires Ready(s)
    ensures s.Top() + s.lookahead == |s.total| && s.strstart + s.lookahead <= s.window.Length
  {
    s.CoreFacts();
  }

  method SlowEnd(s: State, flush: Flush, room: bool) returns (bs: BlockState)
    requires Ready(s) && s.lookahead == 0 && !flush.NoFlush?
    modifies s`insert, s`lastLit, s`blockStart, s`flushed, s`tokens, s`matchAvailable, s.dBuf, s.lBuf
    ensures Ready(s) && s.lastLit == 0 && s.flushed == |s.tokens| && old(s.tokens) <= s.tokens
    ensures Spells(s.tokens, s.total, s.Top(), MaxDist(s.z)) && !s.matchAvailable
    ensures s.Sized() && IsBytes(s.total) && s.Top() == |s.total|
    ensures s.tokens == old(s.tokens) + if old(s.matchAvailable) && old(s.Top()) > 0 then [Literal(s.total[old(s.Top()) - 1])] else []
    ensures bs.BlockDone? || bs.NeedMore? <==> !flush.Finish?
    ensures room ==> bs.BlockDone? || bs.FinishDone?
  {
    hide State.Core, State.Blocked, Spells;
    s.CoreFacts();
    if s.matchAvailable {
      var bflush := Fast.EmitLiteral(s, s.strstart - 1);
      s.matchAvailable := false;
    }
    s.Remember(if s.strstart < MIN_MATCH - 1 then s.strstart else MIN_MATCH - 1);
    bs := s.EndBlock(flush, room);
  }

  /** The byte put off at the end of the input goes out as a literal. */
  lemma LastSettled(t: seq<int>, base: nat, ins: set<int>, p: nat, c: Tuning, n: nat, l: Look, x: int)
    requires GoodSizes(c.z) && IsBytes(t) && p + 1 == |t| && Waiting(n, p, l, t, ins, c)
    ensures SlowChoice(Literal(x), p, l, Look(|t|, base), t, ins, c)
  {
    hide GoodSizes;
  }

  /** The end of a flush, and what is to be remembered of it. */
  method SlowLast(s: State, flush: Flush, room: bool) returns (bs: BlockState)
    requires Ready(s) && s.lookahead == 0 && !flush.NoFlush? && Wise(s)
    modifies s`insert, s`lastLit, s`blockStart, s`flushed, s`tokens, s`looks, s`verdicts, s`matchAvailable, s.dBuf, s.lBuf
    ensures Ready(s) && s.lastLit == 0 && s.flushed == |s.tokens| && old(s.tokens) <= s.tokens
    ensures Spells(s.tokens, s.total, s.Top(), MaxDist(s.z)) && !s.matchAvailable
    ensures bs.BlockDone? || bs.NeedMore? <==> !flush.Finish?
    ensures room ==> bs.BlockDone? || bs.FinishDone?
    ensures Wise(s) && s.looks == old(s.looks) && |s.tokens| <= |old(s.tokens)| + 1
    ensures s.verdicts == old(s.verdicts) + if |s.tokens| > |old(s.tokens)| then [Look(|s.total|, s.base)] else []
    ensures |s.tokens| > |old(s.tokens)| ==> Covered(old(s.tokens)) + 1 == s.Top() == |s.total|
  {
    hide State.Core, State.Blocked, IsBytes, Spells, Pending, Covered, SlowWise, Waiting, GoodSizes, SlowChoice;
    ghost var ts0, put, n, c, t, l := s.tokens, s.matchAvailable, s.matchLength, TuningOf(s), s.total, Look(|s.total|, s.base);
    Before(s);
    SpellsCovers(ts0, t, Done(s.Top(), put), MaxDist(s.z));
    bs := SlowEnd(s, flush, room);
    if put {
      ghost var x := t[s.Top() - 1];
      LastSettled(t, s.base, s.ins, Covered(ts0), c, n, s.looks[|ts0|], x);
      SlowWiseMore(ts0, s.looks, s.verdicts, Literal(x), l, t, s.ins, s.ins, c);
      s.verdicts := s.verdicts + [l];
      assert SlowWise(s.tokens, s.looks, s.verdicts, s.total, s.ins, c);
    } else {
      assert s.tokens == ts0;
      assert SlowWise(s.tokens, s.looks, s.verdicts, s.total, s.ins, c);
    }
    assert PutOff(false, s.matchLength, s.tokens, s.looks, s.total, s.ins, c);
  }

  /** The looks and verdicts of a turn: what was put off is settled, the place itself is put off
      unless it lies in a match. */
  lemma HonestStep(ts: seq<Token>, ts': seq<Token>, looks: seq<Look>, looks': seq<Look>, verdicts: seq<Look>, verdicts': seq<Look>,
                   l: Look, a: nat, nl: nat, nv: nat, g: Log, z: Sizes)
    requires AllHonest(ts, looks, 0, nl, g, z) && AllHonest(ts, verdicts, 1, nv, g, z)
    requires ts <= ts' && |ts'| <= |ts| + 1 && Honest(l, a, g, z)
    requires |verdicts| == |ts| && verdicts' == verdicts + if |ts'| > |ts| then [l] else []
    requires |ts'| > |ts| ==> Covered(ts) + 1 == a
    requires looks' == looks || (looks' == looks + [l] && |looks| == |ts'| && Covered(ts') == a)
    ensures AllHonest(ts', looks', 0, nl, g, z) && AllHonest(ts', verdicts', 1, nv, g, z)
  {
    hide AllHonest, Honest, Covered;
    if |ts'| > |ts| {
      var tok := ts'[|ts|];
      assert ts' == ts + [tok] && ts[..|ts|] == ts;
      HonestToken(ts, tok, looks, 0, nl, g, z);
      HonestLook(ts, verdicts, l, 1, nv, g, z);
      HonestToken(ts, tok, verdicts', 1, nv, g, z);
    } else {
      assert ts' == ts && verdicts' == verdicts;
    }
    if looks' != looks {
      assert ts'[..|looks|] == ts';
      assert Covered(ts') + 0 == a;
      HonestLook(ts', looks, l, 0, nl, g, z);
    }
  }

  lemma WiseFacts(s: State)
    requires Wise(s)
    ensures |s.looks| == |s.tokens| + (if s.matchAvailable then 1 else 0) && |s.verdicts| == |s.tokens|
  {
  }

  /** All choices so far are wise, and the looks and verdicts since g are honest; the window begins
      where it did then, or has lost nothing within reach. */
  ghost predicate Tracked(s: State, g: Log)
    reads s`tokens, s`looks, s`verdicts, s`total, s`ins, s`matchAvailable, s`matchLength, s`matchStart, s`base, s`strstart
  {
    && Wise(s) && g.top <= s.Top() && (s.base == g.lo || s.base + MaxDist(s.z) <= s.Top()) && g.looks <= s.looks && g.verdicts <= s.verdicts
    && AllHonest(s.tokens, s.looks, 0, |g.looks|, g, s.z)
    && AllHonest(s.tokens, s.verdicts, 1, |g.verdicts|, g, s.z)
  }

  lemma TrackStarts(s: State, asked: bool)
    requires Wise(s)
    ensures Tracked(s, LogOf(s, asked))
  {
    hide SlowWise, Waiting, Covered;
    WiseFacts(s);
    Fast.NoLooks(s.tokens, s.looks, LogOf(s, asked), s.z);
    Fast.NoLooks(s.tokens, s.verdicts, LogOf(s, asked), s.z);
  }

  method TrackFill(s: State, ghost g: Log)
    requires Ready(s) && s.lookahead < MIN_LOOKAHEAD && Tracked(s, g)
    modifies s`strstart, s`lookahead, s`insert, s`insH, s`matchStart, s`blockStart, s`nextIn, s`total, s`base, s`ins,
             s.window, s.head, s.prev
    ensures Ready(s) && s.strstart + MIN_LOOKAHEAD <= s.window.Length && s.Top() == old(s.Top())
    ensures old(s.total) <= s.total && s.total + s.nextIn == old(s.total + s.nextIn)
    ensures s.lookahead >= MIN_LOOKAHEAD || s.nextIn == []
    ensures s.Top() + s.lookahead == |s.total|
    ensures Tracked(s, g)
  {
    hide Ready, SlowWise, PutOff, IsBytes, Later, AllHonest;
    ghost var t, ins := s.total, s.ins;
    Fill(s);
    SlowWiseLater(s.tokens, s.looks, s.verdicts, t, s.total, ins, s.ins, TuningOf(s));
    PutOffLater(s.matchAvailable, s.matchLength, s.tokens, s.looks, t, s.total, ins, s.ins, TuningOf(s));
    ReadyFacts(s);
  }

  method TrackStep(s: State, room: bool, ghost g: Log) returns (full: bool)
    requires Ready(s) && Fast.Enough(s) && Tracked(s, g)
    requires s.lookahead >= MIN_LOOKAHEAD || (g.asked && |s.total| == g.all)
    modifies s`prevLength, s`prevMatch, s`matchLength, s`matchStart, s`matchAvailable, s`strstart, s`lookahead, s`insH, s`ins,
             s`tokens, s`looks, s`verdicts, s`lastLit, s`blockStart, s`flushed, s.head, s.prev, s.dBuf, s.lBuf
    ensures Ready(s) && s.strstart > old(s.strstart) && old(s.tokens) <= s.tokens && (room ==> !full)
    ensures s.Top() + s.lookahead == |s.total| && s.strstart + s.lookahead <= s.window.Length
    ensures Tracked(s, g)
  {
    hide Ready, SlowWise, Waiting, Covered, AllHonest;
    ReadyFacts(s);
    WiseFacts(s);
    ghost var ts, looks, verdicts, a, l := s.tokens, s.looks, s.verdicts, s.Top(), Look(|s.total|, s.base);
    full := SlowStep(s, room);
    HonestStep(ts, s.tokens, looks, s.looks, verdicts, s.verdicts, l, a, |g.looks|, |g.verdicts|, g, s.z);
    ReadyFacts(s);
  }

  method TrackLast(s: State, flush: Flush, room: bool, ghost g: Log) returns (bs: BlockState)
    requires Ready(s) && s.lookahead == 0 && !flush.NoFlush? && Tracked(s, g) && g.asked && g.all == |s.total|
    modifies s`insert, s`lastLit, s`blockStart, s`flushed, s`tokens, s`looks, s`verdicts, s`matchAvailable, s.dBuf, s.lBuf
    ensures Ready(s) && s.lastLit == 0 && s.flushed == |s.tokens| && old(s.tokens) <= s.tokens && !s.matchAvailable
    ensures bs.BlockDone? || bs.NeedMore? <==> !flush.Finish?
    ensures room ==> bs.BlockDone? || bs.FinishDone?
    ensures Tracked(s, g)
  {
    hide Ready, SlowWise, Waiting, Covered, AllHonest, Spells;
    ReadyFacts(s);
    WiseFacts(s);
    ghost var ts, looks, verdicts, l := s.tokens, s.looks, s.verdicts, Look(|s.total|, s.base);
    bs := SlowLast(s, flush, room);
    HonestStep(ts, s.tokens, looks, s.looks, verdicts, s.verdicts, l, |s.total|, |g.looks|, |g.verdicts|, g, s.z);
  }

  /** deflate_slow. */
  method DeflateSlow(s: State, flush: Flush, room: bool) returns (bs: BlockState)
    requires Ready(s) && Wise(s)
    modifies s, s.window, s.head, s.prev, s.dBuf, s.lBuf
    ensures Ready(s) && s.finished == old(s.finished)
    ensures old(s.total) <= s.total && s.total + s.nextIn == old(s.total + s.nextIn) && old(s.tokens) <= s.tokens
    ensures flush.NoFlush? ==> bs.NeedMore?
    ensures !bs.NeedMore? ==> s.lookahead == 0 && s.nextIn == [] && s.flushed == |s.tokens| && !s.matchAvailable
    ensures !bs.NeedMore? ==> (bs.BlockDone? <==> !flush.Finish?)
    ensures room ==> Fast.Settled(s, flush, bs)
    ensures Tracked(s, old(LogOf(s, !flush.NoFlush?)))
  {
    hide Ready, Tracked, Wise,
         Expand, Spells, State.Core, State.Filled, State.Blocked, State.Windowed, State.Sized, IsBytes, MaxDist;
    ghost var all := s.total + s.nextIn;
    ghost var g := LogOf(s, !flush.NoFlush?);
    TrackStarts(s, g.asked);
    ReadyFacts(s);
    while true
      invariant Ready(s) && s.finished == old(s.finished)
      invariant old(s.total) <= s.total && s.total + s.nextIn == all && old(s.tokens) <= s.tokens
      invariant Tracked(s, g)
      invariant s.Top() + s.lookahead == |s.total| && s.strstart + s.lookahead <= s.window.Length
      decreases |all| - s.Top()
    {
      if s.lookahead < MIN_LOOKAHEAD {
        TrackFill(s, g);
          if s.lookahead < MIN_LOOKAHEAD && flush.NoFlush? { return NeedMore; }
        if s.lookahead == 0 { break; }
      }
      var full := TrackStep(s, room, g);
      if full { return NeedMore; }
    }
    bs := TrackLast(s, flush, room, g);
  }
}
