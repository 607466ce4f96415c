/** deflate as a whole (deflate.c): whatever the level, the strategy, the sizes, the flushes and
    the way the input is cut up, the tokens stand for the input. */
module Deflate {
  import RunLength
  import opened DeflateTokens
  import opened DeflateChains
  import opened DeflateState
  import opened DeflateChoice
  import Fast = DeflateFast
  import Slow = DeflateSlow
  import Runs = DeflateRuns

  datatype Method = Huff | Rle | Fast | Slow

  /** The choice deflate makes. */
  function MethodFor(level: nat, strategy: Strategy): Method {
    if strategy.HuffmanOnly? then Huff
    else if strategy.Rle? then Method.Rle
    else if level <= 3 then Method.Fast
    else Method.Slow
  }

  ghost predicate Ready(s: State)
    reads s, s.window, s.head, s.prev, s.dBuf, s.lBuf
  {
    match MethodFor(s.level, s.strategy)
    case Huff => Runs.Ready(s)
    case Rle => Runs.Ready(s)
    case Fast => Fast.Ready(s)
    case Slow => Slow.Ready(s)
  }

  /** All tokens are choices that the strategy makes. */
  ghost predicate Wise(s: State)
    reads s`tokens, s`looks, s`verdicts, s`total, s`ins, s`matchAvailable, s`matchLength, s`matchStart, s`strstart
  {
    match MethodFor(s.level, s.strategy)
    case Huff => Runs.AllLiterals(s.tokens)
    case Rle => Runs.Wise(s)
    case Fast => Fast.Wise(s)
    case Slow => Slow.Wise(s)
  }

  /** The looks and verdicts since g are honest. */
  ghost predicate Looked(s: State, g: Log)
    reads s`tokens, s`looks, s`verdicts
  {
    match MethodFor(s.level, s.strategy)
    case Huff => true
    case Rle => g.looks <= s.looks && AllHonest(s.tokens, s.looks, 0, |g.looks|, g, s.z)
    case Fast => g.looks <= s.looks && AllHonest(s.tokens, s.looks, 0, |g.looks|, g, s.z)
    case Slow =>
      && g.looks <= s.looks && AllHonest(s.tokens, s.looks, 0, |g.looks|, g, s.z)
      && g.verdicts <= s.verdicts && AllHonest(s.tokens, s.verdicts, 1, |g.verdicts|, g, s.z)
  }

  lemma LookedStarts(s: State, asked: bool)
    requires Wise(s)
    ensures Looked(s, LogOf(s, asked))
  {
    hide SlowWise, FastWise, Runs.AllLiterals, Waiting, Covered;
    match MethodFor(s.level, s.strategy) {
      case Huff =>
      case Rle => Runs.TrackStarts(s, asked);
      case Fast => Fast.TrackStarts(s, asked);
      case Slow => Slow.TrackStarts(s, asked);
    }
  }

  ghost predicate Valid(s: State)
    reads s, s.window, s.head, s.prev, s.dBuf, s.lBuf
  {
    Ready(s) && Wise(s) && (s.finished ==> s.lookahead == 0 && !s.matchAvailable)
  }

  /** At any time between two calls, the tokens expand to all input read, less the lookahead and
      less the byte put off; every match is one the format allows. */
  lemma TokensExpand(s: State)
    requires Ready(s)
    ensures var n := |s.total| - s.lookahead - if s.matchAvailable then 1 else 0;
            0 <= n <= |s.total| && Expand(s.tokens) == RunLength.Some(s.total[..n])
    ensures forall i :: 0 <= i < |s.tokens| ==> Allowed(s.tokens[i], MaxDist(s.z))
  {
    hide State.Core, State.Blocked, State.Filled, Expand, Allowed;
    match MethodFor(s.level, s.strategy) {
      case Huff => Runs.ReadyFacts(s);
      case Rle => Runs.ReadyFacts(s);
      case Fast => Fast.ReadyFacts(s);
      case Slow => Slow.ReadyFacts(s);
    }
  }

  /** CLEAR_HASH. */
  method ClearHash(head: array<int>)
    modifies head
    ensures forall i :: 0 <= i < head.Length ==> head[i] == 0
  {
    for i := 0 to head.Length
      invariant forall k :: 0 <= k < i ==> head[k] == 0
    {
      head[i] := 0;
    }
  }

  /** A full flush forgets the history. */
  method Forget(s: State)
    requires s.Filled() && s.Blocked() && s.lookahead == 0 && s.flushed == |s.tokens| && Spells(s.tokens, s.total, s.Top(), MaxDist(s.z))
    modifies s`strstart, s`blockStart, s`insert, s`base, s.head
    ensures s.Core() && s.Blocked() && s.Top() == old(s.Top()) == |s.total| && s.strstart == 0
  {
    hide Spells, IsBytes, FromBuffers;
    assert s.tokens[..s.flushed] == s.tokens;
    ClearHash(s.head);
    if s.lookahead == 0 {
      s.base := s.base + s.strstart;
      s.strstart := 0;
      s.blockStart := 0;
      s.insert := 0;
    }
    assert s.window[..0] == s.total[s.base..];
  }

  /** The strategy for this state. */
  method Dispatch(s: State, flush: Flush, room: bool) returns (bs: BlockState)
    requires Ready(s) && Wise(s)
    modifies s, s.window, s.head, s.prev, s.dBuf, s.lBuf
    ensures Ready(s) && s.finished == old(s.finished)
    ensures old(s.total) <= s.total && s.total + s.nextIn == old(s.total + s.nextIn) && old(s.tokens) <= s.tokens
    ensures flush.NoFlush? ==> bs.NeedMore?
    ensures !bs.NeedMore? ==> s.lookahead == 0 && s.nextIn == [] && s.flushed == |s.tokens| && !s.matchAvailable
    ensures !bs.NeedMore? ==> (bs.BlockDone? <==> !flush.Finish?)
    ensures room ==> Fast.Settled(s, flush, bs)
    ensures Wise(s) && Looked(s, old(LogOf(s, !flush.NoFlush?)))
    ensures old(s.Top()) <= s.Top() && (s.base == old(s.base) || s.base + MaxDist(s.z) <= s.Top())
  {
    hide State.Core, State.Blocked, State.Filled, Spells, Slow.Ready, Runs.Wise, Fast.Wise, Slow.Wise, AllHonest, Runs.AllLiterals;
    match MethodFor(s.level, s.strategy) {
      case Huff => bs := Runs.DeflateHuff(s, flush, room);
      case Rle => bs := Runs.DeflateRle(s, flush, room);
      case Fast => bs := Fast.DeflateFast(s, flush, room);
      case Slow => bs := Slow.DeflateSlow(s, flush, room);
    }
  }

  method ForgetHistory(s: State)
    requires Ready(s) && Wise(s) && s.lookahead == 0 && s.flushed == |s.tokens| && !s.matchAvailable
    modifies s`strstart, s`blockStart, s`insert, s`base, s.head
    ensures Ready(s) && Wise(s) && s.strstart == 0 && s.base == old(s.Top()) == |s.total|
  {
    hide State.Core, State.Blocked, State.Filled, Spells, Slow.Pending, SlowWise, FastWise, PutOff, Runs.RleWise, Runs.AllLiterals;
    ReadyParts(s);
    Forget(s);
    match MethodFor(s.level, s.strategy) {
      case Huff => CoreFills(s);
      case Rle => CoreFills(s);
      case Fast => assert Fast.Ready(s);
      case Slow => assert Slow.Ready(s);
    }
  }

  lemma CoreFills(s: State)
    requires s.Core()
    ensures s.Filled()
  {
    s.CoreFacts();
  }

  lemma ReadyParts(s: State)
    requires Ready(s) && !s.matchAvailable
    ensures s.Filled() && s.Blocked() && Spells(s.tokens, s.total, s.Top(), MaxDist(s.z))
  {
    hide State.Core, State.Blocked, State.Filled, Spells;
    match MethodFor(s.level, s.strategy) {
      case Huff =>
      case Rle =>
      case Fast => s.CoreFacts();
      case Slow => s.CoreFacts();
    }
  }

  method SetFinished(s: State)
    requires Ready(s)
    modifies s`finished
    ensures Ready(s) && s.finished
  {
    hide State.Core, State.Blocked, State.Filled, Spells;
    s.finished := true;
  }

  datatype Answer = Error | Progress | Done

  /** Nothing more can be done before there is more input. */
  ghost predicate WantsInput(s: State)
    reads s
  {
    s.nextIn == [] && s.lookahead < MIN_LOOKAHEAD
  }

  /** deflate.  Unless there is room enough, the output may be full at any time; then the caller
      has to come back. */
  method Deflate(s: State, flush: Flush, room: bool) returns (r: Answer)
    requires Valid(s)
    modifies s, s.window, s.head, s.prev, s.dBuf, s.lBuf
    ensures Valid(s)
    ensures old(s.total) <= s.total && s.total + s.nextIn == old(s.total + s.nextIn) && old(s.tokens) <= s.tokens
    ensures r.Done? ==> s.lookahead == 0 && s.nextIn == [] && Expand(s.tokens) == RunLength.Some(s.total)
    ensures r.Done? && flush.Finish? ==> s.finished
    ensures r.Done? ==> !flush.NoFlush?
    ensures r.Error? <==> old(s.finished) && (!flush.Finish? || old(s.nextIn) != [])
    ensures old(s.finished) ==> s.finished
    ensures s.finished ==> old(s.finished) || flush.Finish?
    ensures room && r.Progress? ==> flush.NoFlush? && WantsInput(s)
    ensures Looked(s, old(LogOf(s, !flush.NoFlush?))) && old(s.Top()) <= s.Top()
    ensures s.base == old(s.base) || s.base + MaxDist(s.z) <= s.Top() || (flush.FullFlush? && s.base == |s.total + s.nextIn|)
  {
    hide Ready, Expand, Wise, Looked;
    LookedStarts(s, !flush.NoFlush?);
    if s.finished && (!flush.Finish? || s.nextIn != []) { return Error; }
    var full := false;
    if !room { full := *; }
    if full { return Progress; }
    if s.nextIn != [] || s.lookahead != 0 || (!flush.NoFlush? && !s.finished) {
      var bs := Dispatch(s, flush, room);
      if bs.FinishStarted? || bs.FinishDone? { SetFinished(s); }
      if bs.NeedMore? || bs.FinishStarted? { return Progress; }
      if bs.BlockDone? && flush.FullFlush? { ForgetHistory(s); }
    }
    if flush.NoFlush? { return Progress; }
    TokensExpand(s);
    assert s.total[..|s.total|] == s.total;
    return Done;
  }

  /** What a caller does once: hand over some input, or none, and call deflate, with room enough
      for its output or not. */
  datatype Call = Call(input: seq<int>, flush: Flush, room: bool)

  ghost function InputOf(calls: seq<Call>): seq<int> {
    if |calls| == 0 then [] else InputOf(calls[..|calls| - 1]) + calls[|calls| - 1].input
  }

  ghost predicate GoodCalls(calls: seq<Call>) {
    forall i :: 0 <= i < |calls| ==> IsBytes(calls[i].input)
  }

  /** The end has been asked for before call n. */
  ghost predicate Ended(calls: seq<Call>, n: nat) {
    exists j :: 0 <= j < n && j < |calls| && calls[j].flush.Finish?
  }

  /** Every one of the first n calls that had room took in all input it had been given. */
  ghost predicate TookIn(calls: seq<Call>, n: nat, total: nat)
    requires n <= |calls|
  {
    forall i :: 0 <= i < n && calls[i].room ==> Ended(calls, i) || |InputOf(calls[..i + 1])| <= total
  }

  lemma TookInMore(calls: seq<Call>, n: nat, before: nat, total: nat)
    requires n < |calls| && TookIn(calls, n, before) && before <= total
    requires calls[n].room ==> Ended(calls, n) || |InputOf(calls[..n + 1])| <= total
    ensures TookIn(calls, n + 1, total)
  {
  }

  lemma EndedMore(calls: seq<Call>, n: nat)
    requires n < |calls|
    ensures Ended(calls, n) || calls[n].flush.Finish? ==> Ended(calls, n + 1)
  {
  }

  // ---------------------------------------------------------------- the looks of a whole run

  /** x is all input handed over up to one of the first n calls, which asked for a flush. */
  ghost predicate Asked(calls: seq<Call>, n: nat, x: nat) {
    exists k :: 0 <= k < n && k < |calls| && !calls[k].flush.NoFlush? && x == |InputOf(calls[..k + 1])|
  }

  /** The same, and that call asked for the history to be forgotten. */
  ghost predicate Forgot(calls: seq<Call>, n: nat, x: nat) {
    exists k :: 0 <= k < n && k < |calls| && calls[k].flush.FullFlush? && x == |InputOf(calls[..k + 1])|
  }

  /** The window begins at the start, where the history was forgotten, or too far back to matter at p. */
  ghost predicate Reaches(calls: seq<Call>, n: nat, lo: nat, p: nat, z: Sizes) {
    lo == 0 || lo + MaxDist(z) <= p || Forgot(calls, n, lo)
  }

  /** At place p all input that matters was in sight, ahead and behind. */
  ghost predicate Meant(calls: seq<Call>, n: nat, l: Look, p: nat, z: Sizes) {
    (l.end > p + MAX_MATCH || Asked(calls, n, l.end)) && Reaches(calls, n, l.lo, p, z)
  }

  /** All looks are meant so, those at the places of the tokens or d places on. */
  ghost predicate AllMeant(calls: seq<Call>, n: nat, ts: seq<Token>, looks: seq<Look>, d: nat, z: Sizes) {
    |looks| <= |ts| + 1 && forall i :: 0 <= i < |looks| ==> Meant(calls, n, looks[i], Covered(ts[..i]) + d, z)
  }

  lemma ReachesLater(calls: seq<Call>, n: nat, lo: nat, p: nat, p': nat, z: Sizes)
    requires Reaches(calls, n, lo, p, z) && p <= p'
    ensures Reaches(calls, n + 1, lo, p', z)
  {
  }

  lemma AskedLater(calls: seq<Call>, n: nat, x: nat)
    requires Asked(calls, n, x)
    ensures Asked(calls, n + 1, x)
  {
  }

  lemma MeantLater(calls: seq<Call>, n: nat, l: Look, p: nat, z: Sizes)
    requires Meant(calls, n, l, p, z)
    ensures Meant(calls, n + 1, l, p, z)
  {
    hide Asked, Reaches;
    ReachesLater(calls, n, l.lo, p, p, z);
    if Asked(calls, n, l.end) { AskedLater(calls, n, l.end); }
  }

  /** What is honest within one call is meant so in the run. */
  lemma HonestMeant(calls: seq<Call>, n: nat, l: Look, p: nat, g: Log, z: Sizes)
    requires n < |calls| && Honest(l, p, g, z) && Reaches(calls, n, g.lo, g.top, z)
    requires g.all == |InputOf(calls[..n + 1])| && g.asked == !calls[n].flush.NoFlush?
    ensures Meant(calls, n + 1, l, p, z)
  {
    hide Reaches, Forgot;
    if l.lo == g.lo {
      ReachesLater(calls, n, g.lo, g.top, p, z);
    } else {
      FarEnough(calls, n + 1, l.lo, p, z);
    }
  }

  lemma FarEnough(calls: seq<Call>, n: nat, lo: nat, p: nat, z: Sizes)
    requires lo + MaxDist(z) <= p
    ensures Reaches(calls, n, lo, p, z)
  {
  }

  lemma AllMeantCall(calls: seq<Call>, n: nat, ts: seq<Token>, ts': seq<Token>, looks: seq<Look>, looks': seq<Look>, d: nat,
                     g: Log, z: Sizes)
    requires n < |calls| && AllMeant(calls, n, ts, looks, d, z) && ts <= ts' && looks <= looks'
    requires AllHonest(ts', looks', d, |looks|, g, z) && Reaches(calls, n, g.lo, g.top, z)
    requires g.all == |InputOf(calls[..n + 1])| && g.asked == !calls[n].flush.NoFlush?
    ensures AllMeant(calls, n + 1, ts', looks', d, z)
  {
    hide Meant, Honest, Reaches, Covered, InputOf;
    forall i | 0 <= i < |looks'| ensures Meant(calls, n + 1, looks'[i], Covered(ts'[..i]) + d, z) {
      if i < |looks| {
        assert looks'[i] == looks[i] && ts'[..i] == ts[..i];
        MeantLater(calls, n, looks[i], Covered(ts[..i]) + d, z);
      } else {
        HonestMeant(calls, n, looks'[i], Covered(ts'[..i]) + d, g, z);
      }
    }
  }

  /** The looks and verdicts of the strategy. */
  ghost predicate RunLooks(m: Method, ts: seq<Token>, looks: seq<Look>, verdicts: seq<Look>, calls: seq<Call>, n: nat, z: Sizes) {
    match m
    case Huff => true
    case Rle => AllMeant(calls, n, ts, looks, 0, z)
    case Fast => AllMeant(calls, n, ts, looks, 0, z)
    case Slow => AllMeant(calls, n, ts, looks, 0, z) && AllMeant(calls, n, ts, verdicts, 1, z)
  }

  lemma CallMeant(s: State, ts: seq<Token>, calls: seq<Call>, n: nat, g: Log)
    requires n < |calls| && RunLooks(MethodFor(s.level, s.strategy), ts, g.looks, g.verdicts, calls, n, s.z)
    requires Looked(s, g) && ts <= s.tokens && Reaches(calls, n, g.lo, g.top, s.z)
    requires g.all == |InputOf(calls[..n + 1])| && g.asked == !calls[n].flush.NoFlush?
    ensures RunLooks(MethodFor(s.level, s.strategy), s.tokens, s.looks, s.verdicts, calls, n + 1, s.z)
  {
    hide AllMeant, AllHonest, Reaches, InputOf;
    match MethodFor(s.level, s.strategy) {
      case Huff =>
      case Rle => AllMeantCall(calls, n, ts, s.tokens, g.looks, s.looks, 0, g, s.z);
      case Fast => AllMeantCall(calls, n, ts, s.tokens, g.looks, s.looks, 0, g, s.z);
      case Slow =>
        AllMeantCall(calls, n, ts, s.tokens, g.looks, s.looks, 0, g, s.z);
        AllMeantCall(calls, n, ts, s.tokens, g.verdicts, s.verdicts, 1, g, s.z);
    }
  }

  /** Where the window begins after a call. */
  lemma BaseMeant(calls: seq<Call>, n: nat, lo: nat, top: nat, lo': nat, top': nat, z: Sizes)
    requires n < |calls| && Reaches(calls, n, lo, top, z) && top <= top'
    requires lo' == lo || lo' + MaxDist(z) <= top' || (calls[n].flush.FullFlush? && lo' == |InputOf(calls[..n + 1])|)
    ensures Reaches(calls, n + 1, lo', top', z)
  {
    hide InputOf;
    if lo' == lo { ReachesLater(calls, n, lo, top, top', z); }
  }

  /** The tuning of a level and a strategy. */
  function TuningFor(windowBits: nat, memLevel: nat, level: nat, strategy: Strategy): Tuning {
    var c := ConfigFor(level);
    Tuning(SizesFor(windowBits, memLevel), c.chain, c.nice, c.good, c.lazy, strategy.Filtered?)
  }

  /** What level and strategy make of the tokens: literals only; runs of the byte before; greedy
      choices up to level 3; lazy ones above. Every search has all input in sight that can matter. */
  ghost predicate AsChosen(s: State, calls: seq<Call>, c: Tuning, level: nat, strategy: Strategy)
    reads s`tokens, s`looks, s`verdicts, s`total, s`ins
  {
    if strategy.HuffmanOnly? then Runs.AllLiterals(s.tokens)
    else
      && AllMeant(calls, |calls|, s.tokens, s.looks, 0, c.z)
      && if strategy.Rle? then Runs.RleWise(s.tokens, s.looks, s.total)
         else if level <= 3 then FastWise(s.tokens, s.looks, s.total, s.ins, c)
         else
           && SlowWise(s.tokens, s.looks, s.verdicts, s.total, s.ins, c)
           && AllMeant(calls, |calls|, s.tokens, s.verdicts, 1, c.z)
  }

  method Supply(s: State, u: seq<int>)
    requires Valid(s) && IsBytes(u)
    modifies s`nextIn
    ensures Valid(s) && s.nextIn == old(s.nextIn) + u && s.finished == old(s.finished)
  {
    hide State.Blocked, Spells, Slow.Pending, Dict, Current;
    BytesAppend(s.nextIn, u);
    s.nextIn := s.nextIn + u;
  }

  /** After n calls. */
  ghost predicate Coming(s: State, calls: seq<Call>, n: nat)
    reads s, s.window, s.head, s.prev, s.dBuf, s.lBuf
  {
    && Valid(s) && n <= |calls| && s.total + s.nextIn == InputOf(calls[..n]) && (s.finished ==> Ended(calls, n))
    && TookIn(calls, n, |s.total|)
    && RunLooks(MethodFor(s.level, s.strategy), s.tokens, s.looks, s.verdicts, calls, n, s.z)
    && Reaches(calls, n, s.base, s.Top(), s.z)
  }

  /** The answer to call n. */
  ghost predicate Answered(s: State, calls: seq<Call>, n: nat, r: Answer)
    requires n < |calls|
    reads s
  {
    && (calls[n].room && r.Progress? ==> calls[n].flush.NoFlush? && WantsInput(s))
    && (r.Error? ==> Ended(calls, n)) && (r.Done? ==> !calls[n].flush.NoFlush?)
  }

  method NextCall(s: State, calls: seq<Call>, n: nat) returns (r: Answer)
    requires n < |calls| && Coming(s, calls, n) && GoodCalls(calls)
    modifies s, s.window, s.head, s.prev, s.dBuf, s.lBuf
    ensures Coming(s, calls, n + 1) && Answered(s, calls, n, r)
    ensures r.Done? ==> s.nextIn == [] && Expand(s.tokens) == RunLength.Some(s.total)
  {
    hide Ready, Expand, Allowed, TookIn, Ended, Wise, Looked, RunLooks, Reaches;
    ghost var before := s.total + s.nextIn;
    Supply(s, calls[n].input);
    assert s.total + s.nextIn == before + calls[n].input;
    assert calls[..n + 1][..n] == calls[..n];
    ghost var t, ts, g := |s.total|, s.tokens, LogOf(s, !calls[n].flush.NoFlush?);
    r := Deflate(s, calls[n].flush, calls[n].room);
    CallMeant(s, ts, calls, n, g);
    BaseMeant(calls, n, g.lo, g.top, s.base, s.Top(), s.z);
    EndedMore(calls, n);
    TookInMore(calls, n, t, |s.total|);
  }

  /** Any run of a new compressor: however the input is cut up and whatever flushes are asked for,
      the tokens expand to the beginning of the input; once a flush is complete, to all of it. A
      last call with room enough completes its flush, or takes in all input; a call is refused only
      after the end has been asked for. All tokens are choices of the level and the strategy. */
  method Run(windowBits: nat, memLevel: nat, level: nat, strategy: Strategy, calls: seq<Call>) returns (s: State, r: Answer)
    requires 8 <= windowBits <= 15 && 1 <= memLevel <= 9 && 1 <= level <= 9 && GoodCalls(calls)
    ensures s.total + s.nextIn == InputOf(calls)
    ensures s.lookahead + (if s.matchAvailable then 1 else 0) <= |s.total|
    ensures Expand(s.tokens) == RunLength.Some(s.total[..|s.total| - s.lookahead - if s.matchAvailable then 1 else 0])
    ensures forall i :: 0 <= i < |s.tokens| ==> Allowed(s.tokens[i], MaxDist(SizesFor(windowBits, memLevel)))
    ensures r.Done? ==> Expand(s.tokens) == RunLength.Some(InputOf(calls))
    ensures |calls| > 0 && calls[|calls| - 1].room ==> r.Error? || r.Done? || WantsInput(s)
    ensures r.Error? ==> |calls| > 0 && Ended(calls, |calls| - 1)
    ensures TookIn(calls, |calls|, |s.total|)
    ensures |calls| > 0 ==> (r.Done? ==> !calls[|calls| - 1].flush.NoFlush?)
    ensures |calls| > 0 && calls[|calls| - 1].room && !calls[|calls| - 1].flush.NoFlush? ==> !r.Progress?
    ensures AsChosen(s, calls, TuningFor(windowBits, memLevel, level, strategy), level, strategy) && Valid(s)
  {
    hide Ready, Coming, Answered, Valid, Expand, Allowed, TookIn, Ended, InputOf, ConfigFor, SizesFor, AsChosen, State.Core, State.Blocked;
    s := new State(windowBits, memLevel, level, strategy);
    ComingStarts(s, calls);
    r := Progress;
    for i := 0 to |calls|
      invariant Coming(s, calls, i) && s.z == SizesFor(windowBits, memLevel)
      invariant r.Done? ==> s.nextIn == [] && Expand(s.tokens) == RunLength.Some(s.total)
      invariant i > 0 ==> Answered(s, calls, i - 1, r)
      invariant r.Error? ==> i > 0
      invariant fresh(s) && fresh(s.window) && fresh(s.head) && fresh(s.prev) && fresh(s.dBuf) && fresh(s.lBuf)
    {
      r := NextCall(s, calls, i);
    }
    ComingEnds(s, calls);
    TokensExpand(s);
    if |calls| > 0 { LastAnswer(s, calls, r); }
    if r.Done? { assert s.total + s.nextIn == s.total; }
  }

  lemma ComingStarts(s: State, calls: seq<Call>)
    requires s.Core() && s.Blocked() && s.lastLit == 0 && s.litBufsize >= 128 && s.tokens == [] && s.Top() == 0
    requires !s.matchAvailable && s.prevLength == MIN_MATCH - 1 && s.matchLength == MIN_MATCH - 1 && !s.finished
    requires s.looks == [] && s.verdicts == [] && s.base == 0 && s.total == [] && s.nextIn == []
    ensures Coming(s, calls, 0)
  {
    hide Ready, Wise, RunLooks, Reaches, State.Core, State.Blocked, TookIn;
    NoneTookIn(calls);
    StartsReady(s);
    StartsWise(s, calls);
  }

  /** After the last call. */
  lemma ComingEnds(s: State, calls: seq<Call>)
    requires Coming(s, calls, |calls|)
    ensures Valid(s) && Ready(s) && s.total + s.nextIn == InputOf(calls) && TookIn(calls, |calls|, |s.total|)
    ensures AsChosen(s, calls, TuningOf(s), s.level, s.strategy)
  {
    hide Ready, Wise, RunLooks, Reaches, TookIn, AsChosen, InputOf;
    assert calls[..|calls|] == calls;
    RunChosen(s, calls);
  }

  lemma LastAnswer(s: State, calls: seq<Call>, r: Answer)
    requires |calls| > 0 && Answered(s, calls, |calls| - 1, r)
    ensures calls[|calls| - 1].room ==> r.Error? || r.Done? || WantsInput(s)
    ensures r.Error? ==> Ended(calls, |calls| - 1)
    ensures r.Done? ==> !calls[|calls| - 1].flush.NoFlush?
    ensures calls[|calls| - 1].room && !calls[|calls| - 1].flush.NoFlush? ==> !r.Progress?
  {
    hide Ended;
  }

  lemma StartsWise(s: State, calls: seq<Call>)
    requires s.Core() && s.tokens == [] && s.looks == [] && s.verdicts == [] && s.base == 0 && !s.matchAvailable
    ensures Wise(s) && RunLooks(MethodFor(s.level, s.strategy), s.tokens, s.looks, s.verdicts, calls, 0, s.z)
    ensures Reaches(calls, 0, s.base, s.Top(), s.z)
  {
    hide State.Blocked, Dict;
  }

  lemma RunChosen(s: State, calls: seq<Call>)
    requires Wise(s) && RunLooks(MethodFor(s.level, s.strategy), s.tokens, s.looks, s.verdicts, calls, |calls|, s.z)
    ensures AsChosen(s, calls, TuningOf(s), s.level, s.strategy)
  {
    hide SlowWise, FastWise, Runs.RleWise, Runs.AllLiterals, PutOff, AllMeant;
  }

  lemma NoneTookIn(calls: seq<Call>)
    ensures TookIn(calls, 0, 0)
  {
  }

  lemma StartsReady(s: State)
    requires s.Core() && s.Blocked() && s.lastLit == 0 && s.litBufsize >= 128 && s.tokens == [] && s.Top() == 0
    requires !s.matchAvailable && s.prevLength == MIN_MATCH - 1 && s.matchLength == MIN_MATCH - 1
    ensures Ready(s)
  {
    hide State.Core, State.Blocked, State.Filled;
    CoreFills(s);
    assert s.total[..0] == [];
    assert Spells(s.tokens, s.total, s.Top(), MaxDist(s.z));
  }
}
