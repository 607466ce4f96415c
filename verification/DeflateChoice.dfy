/** What greedy and lazy matching choose (deflate.c): for every token, what the search at its place
    had found, and what was found at the next place. */
module DeflateChoice {
  import opened DeflateTokens
  import opened DeflateChains
  import opened DeflateState
  import opened DeflateMatch

  /** The values a search goes by. */
  datatype Tuning = Tuning(z: Sizes, chain: nat, nice: nat, good: nat, lazy: nat, filtered: bool)

  function TuningOf(s: State): Tuning {
    Tuning(s.z, s.maxChainLength, s.niceMatch, s.goodMatch, s.maxLazyMatch, s.strategy.Filtered?)
  }

  const TOO_FAR := 4096

  // ---------------------------------------------------------------- the place of a token

  function Width(tok: Token): nat {
    match tok
    case Literal(_) => 1
    case Match(len, _) => len
  }

  /** How many bytes the tokens stand for. */
  function Covered(ts: seq<Token>): nat {
    if |ts| == 0 then 0 else Covered(ts[..|ts| - 1]) + Width(ts[|ts| - 1])
  }

  lemma CoveredSnoc(ts: seq<Token>, tok: Token)
    ensures Covered(ts + [tok]) == Covered(ts) + Width(tok)
  {
    ExpandSnoc(ts, tok);
  }

  lemma {:induction false} ExpandCovers(ts: seq<Token>)
    requires Expand(ts).Some?
    ensures |Expand(ts).value| == Covered(ts)
  {
    if |ts| > 0 { ExpandCovers(ts[..|ts| - 1]); }
  }

  lemma SpellsCovers(ts: seq<Token>, t: seq<int>, n: nat, maxDist: int)
    requires Spells(ts, t, n, maxDist)
    ensures Covered(ts) == n
  {
    ExpandCovers(ts);
  }

  // ---------------------------------------------------------------- what does not change any more

  /** Only what was inserted before a matters at a. */
  lemma NoBetterSame(t: seq<int>, base: nat, ins: set<int>, ins': set<int>, a: int, z: Sizes, n: nat, len: nat)
    requires GoodSizes(z) && IsBytes(t) && NoBetter(t, base, ins, a, z, n, len)
    requires forall q :: q < a ==> (q in ins <==> q in ins')
    ensures NoBetter(t, base, ins', a, z, n, len)
  {
    hide SlotAt, GoodSizes;
    forall p | Reached(t, base, ins', a, z, n, p) ensures !Agree(t, p, a, len + 1) {
      assert Rivals(t, ins', p, a, z) == Rivals(t, ins, p, a, z);
      assert Reached(t, base, ins, a, z, n, p);
    }
  }

  lemma NoBetterLater(t: seq<int>, base: nat, ins: set<int>, ins': set<int>, a: int, z: Sizes, n: nat, len: nat)
    requires GoodSizes(z) && IsBytes(t) && NoBetter(t, base, ins, a, z, n, len) && a in ins && Later(ins, ins')
    ensures NoBetter(t, base, ins', a, z, n, len)
  {
    hide NoBetter, GoodSizes;
    NoBetterSame(t, base, ins, ins', a, z, n, len);
  }

  /** Looking at fewer positions, or for more, finds no more. */
  lemma NoBetterLess(t: seq<int>, base: nat, ins: set<int>, a: int, z: Sizes, n: nat, len: nat, n': nat, len': nat)
    requires GoodSizes(z) && IsBytes(t) && NoBetter(t, base, ins, a, z, n, len) && n' <= n && len <= len'
    ensures NoBetter(t, base, ins, a, z, n', len')
  {
    hide SlotAt, Rivals, Agree;
    forall p | Reached(t, base, ins, a, z, n', p) ensures !Agree(t, p, a, len' + 1) {
      assert Reached(t, base, ins, a, z, n, p);
      if Agree(t, p, a, len' + 1) { AgreeLess(t, p, a, len' + 1, len + 1); }
    }
  }

  /** Nothing agrees in more bytes than there are. */
  lemma NoBetterAtEnd(t: seq<int>, base: nat, ins: set<int>, a: nat, z: Sizes, n: nat, len: nat)
    requires GoodSizes(z) && IsBytes(t) && a + len >= |t|
    ensures NoBetter(t, base, ins, a, z, n, len)
  {
    hide Reached;
  }

  /** A position that agrees in three bytes and is near enough is one of those to be looked at. */
  lemma NearbyReached(t: seq<int>, base: nat, ins: set<int>, a: int, z: Sizes, n: nat, q: int)
    requires GoodSizes(z) && IsBytes(t) && Agree(t, q, a, 3)
    requires q in ins && base < q < a && a - q <= n && a - q < MaxDist(z)
    ensures Reached(t, base, ins, a, z, n, q)
  {
    hide SlotAt, GoodSizes;
    AgreeingSlot(t, q, a, z);
    FewRivals(t, ins, q, a, z);
  }

  /** What it comes to, hashes and chains apart: no inserted position among the n places before a has
      more than len bytes in common with it. */
  lemma NearbyFound(t: seq<int>, base: nat, ins: set<int>, a: int, z: Sizes, n: nat, len: nat, q: int)
    requires GoodSizes(z) && IsBytes(t) && NoBetter(t, base, ins, a, z, n, len) && len >= 2
    requires q in ins && base < q < a && a - q <= n && a - q < MaxDist(z)
    ensures !Agree(t, q, a, len + 1)
  {
    hide Reached, GoodSizes;
    if Agree(t, q, a, len + 1) {
      AgreeLess(t, q, a, len + 1, 3);
      NearbyReached(t, base, ins, a, z, n, q);
    }
  }

  // ---------------------------------------------------------------- greedy matching

  /** What goes out at a: a match with the longest string in common with one of the latest n
      positions of its slot, or one that is good enough; a literal only if none of them has three
      bytes in common with it. */
  ghost predicate Picked(t: seq<int>, base: nat, ins: set<int>, a: int, z: Sizes, n: nat, enough: nat, tok: Token)
    requires GoodSizes(z) && IsBytes(t)
  {
    match tok
    case Literal(_) => NoBetter(t, base, ins, a, z, n, MIN_MATCH - 1)
    case Match(len, _) => len >= enough || NoBetter(t, base, ins, a, z, n, len)
  }

  lemma PickedSame(t: seq<int>, base: nat, ins: set<int>, ins': set<int>, a: int, z: Sizes, n: nat, enough: nat, tok: Token)
    requires GoodSizes(z) && IsBytes(t) && Picked(t, base, ins, a, z, n, enough, tok)
    requires forall q :: q < a ==> (q in ins <==> q in ins')
    ensures Picked(t, base, ins', a, z, n, enough, tok)
  {
    hide NoBetter, GoodSizes;
    match tok {
      case Literal(_) => NoBetterSame(t, base, ins, ins', a, z, n, MIN_MATCH - 1);
      case Match(len, _) => if len < enough { NoBetterSame(t, base, ins, ins', a, z, n, len); }
    }
  }

  /** Where the insertions of one step end: the strings inside a match are left out if it is long,
      or if it reaches the end. */
  function InsertedTo(tok: Token, a: nat, end: nat, lazy: nat): nat {
    if tok.Match? && tok.len <= lazy && a + tok.len + MIN_MATCH <= end then a + tok.len else a + 1
  }

  /** The token tok at place p, chosen when the look l was taken. */
  ghost predicate FastChoice(tok: Token, p: nat, l: Look, t: seq<int>, ins: set<int>, c: Tuning)
    requires GoodSizes(c.z) && IsBytes(t)
  {
    && p < l.end <= |t|
    && (p + MIN_MATCH <= l.end ==>
          p in ins && Picked(t[..l.end], l.lo, ins, p, c.z, c.chain, NiceFor(c.nice, l.end - p), tok)
          && Strings(t[..l.end], p, InsertedTo(tok, p, l.end, c.lazy)) <= ins)
  }

  ghost predicate FastWise(ts: seq<Token>, looks: seq<Look>, t: seq<int>, ins: set<int>, c: Tuning) {
    && GoodSizes(c.z) && IsBytes(t) && |looks| == |ts|
    && forall i :: 0 <= i < |ts| ==> FastChoice(ts[i], Covered(ts[..i]), looks[i], t, ins, c)
  }

  lemma FastChoiceLater(tok: Token, p: nat, l: Look, t: seq<int>, t': seq<int>, ins: set<int>, ins': set<int>, c: Tuning)
    requires GoodSizes(c.z) && IsBytes(t) && FastChoice(tok, p, l, t, ins, c) && t <= t' && IsBytes(t') && Later(ins, ins')
    ensures FastChoice(tok, p, l, t', ins', c)
  {
    hide GoodSizes, Picked, IsBytes, Strings;
    assert t'[..l.end] == t[..l.end];
    if p + MIN_MATCH <= l.end {
      TakeBytes(t, l.end);
      PickedSame(t[..l.end], l.lo, ins, ins', p, c.z, c.chain, NiceFor(c.nice, l.end - p), tok);
    }
  }

  lemma TakeBytes(t: seq<int>, n: nat)
    requires IsBytes(t) && n <= |t|
    ensures IsBytes(t[..n])
  {
  }

  /** More input and more insertions change nothing in what has been chosen. */
  lemma FastWiseLater(ts: seq<Token>, looks: seq<Look>, t: seq<int>, t': seq<int>, ins: set<int>, ins': set<int>, c: Tuning)
    requires FastWise(ts, looks, t, ins, c) && t <= t' && IsBytes(t') && Later(ins, ins')
    ensures FastWise(ts, looks, t', ins', c)
  {
    hide GoodSizes, FastChoice, Covered, Later, IsBytes;
    forall i | 0 <= i < |ts| ensures FastChoice(ts[i], Covered(ts[..i]), looks[i], t', ins', c) {
      FastChoiceLater(ts[i], Covered(ts[..i]), looks[i], t, t', ins, ins', c);
    }
  }

  lemma FastWiseMore(ts: seq<Token>, looks: seq<Look>, tok: Token, l: Look, t: seq<int>, ins: set<int>, ins': set<int>, c: Tuning)
    requires FastWise(ts, looks, t, ins, c) && Later(ins, ins') && FastChoice(tok, Covered(ts), l, t, ins', c)
    ensures FastWise(ts + [tok], looks + [l], t, ins', c)
  {
    hide GoodSizes, FastChoice, Covered, Later, IsBytes;
    FastWiseLater(ts, looks, t, t, ins, ins', c);
    var ts', looks' := ts + [tok], looks + [l];
    forall i | 0 <= i < |ts'| ensures FastChoice(ts'[i], Covered(ts'[..i]), looks'[i], t, ins', c) {
      if i < |ts| {
        assert ts'[..i] == ts[..i] && ts'[i] == ts[i] && looks'[i] == looks[i];
        assert FastChoice(ts[i], Covered(ts[..i]), looks[i], t, ins', c);
      } else {
        assert ts'[..i] == ts;
      }
    }
  }

  // ---------------------------------------------------------------- looks

  /** What there was when a strategy was called: looks and verdicts, where the window began and
      what it had come to, how much input there is in all, and whether a flush is asked for. */
  datatype Log = Log(looks: seq<Look>, verdicts: seq<Look>, lo: nat, top: nat, all: nat, asked: bool)

  ghost function LogOf(s: State, asked: bool): Log
    reads s`looks, s`verdicts, s`base, s`strstart, s`total, s`nextIn
  {
    Log(s.looks, s.verdicts, s.base, s.Top(), |s.total + s.nextIn|, asked)
  }

  /** A look at place p was taken with more than the longest match in sight, or else with all input, when a flush
      was asked for; its window began where it did when the strategy was called, or has lost nothing
      that is within reach of p. */
  ghost predicate Honest(l: Look, p: nat, g: Log, z: Sizes) {
    && g.top <= p && (l.end > p + MAX_MATCH || (g.asked && l.end == g.all))
    && (l.lo == g.lo || l.lo + MaxDist(z) <= p)
  }

  /** All looks but the first n, at the places of the tokens or d places on. */
  ghost predicate AllHonest(ts: seq<Token>, looks: seq<Look>, d: nat, n: nat, g: Log, z: Sizes) {
    && |looks| <= |ts| + 1
    && forall i :: n <= i < |looks| ==> Honest(looks[i], Covered(ts[..i]) + d, g, z)
  }

  lemma HonestToken(ts: seq<Token>, tok: Token, looks: seq<Look>, d: nat, n: nat, g: Log, z: Sizes)
    requires AllHonest(ts, looks, d, n, g, z)
    ensures AllHonest(ts + [tok], looks, d, n, g, z)
  {
    hide Honest, Covered;
    forall i | n <= i < |looks| ensures Honest(looks[i], Covered((ts + [tok])[..i]) + d, g, z) {
      assert (ts + [tok])[..i] == ts[..i];
    }
  }

  lemma HonestLook(ts: seq<Token>, looks: seq<Look>, l: Look, d: nat, n: nat, g: Log, z: Sizes)
    requires AllHonest(ts, looks, d, n, g, z) && |looks| <= |ts|
    requires Honest(l, Covered(ts[..|looks|]) + d, g, z)
    ensures AllHonest(ts, looks + [l], d, n, g, z)
  {
    hide Honest, Covered;
    var looks' := looks + [l];
    forall i | n <= i < |looks'| ensures Honest(looks'[i], Covered(ts[..i]) + d, g, z) {
      if i < |looks| { assert looks'[i] == looks[i]; }
    }
  }

  // ---------------------------------------------------------------- lazy matching

  /** Nothing worth a match: none of the candidates agrees in three bytes, or in three only, and too
      far back; in six bytes, if matches of five are filtered out. */
  ghost predicate Lean(t: seq<int>, base: nat, ins: set<int>, p: int, c: Tuning)
    requires GoodSizes(c.z) && IsBytes(t)
  {
    if c.filtered then NoBetter(t, base, ins, p, c.z, c.chain, 5)
    else NoBetter(t, base, ins, p, c.z, c.chain, 2) || (NoBetter(t, base, ins, p, c.z, c.chain, 3) && FarOff(t, p))
  }

  ghost predicate FarOff(t: seq<int>, p: int) {
    exists q :: 0 <= q < p - TOO_FAR && Agree(t, q, p, 3)
  }

  /** No candidate agrees in more than n bytes, or n are enough. The search may have been cut to a
      quarter. */
  ghost predicate Best(t: seq<int>, base: nat, ins: set<int>, p: nat, c: Tuning, n: nat)
    requires GoodSizes(c.z) && IsBytes(t) && p <= |t|
  {
    n >= NiceFor(c.nice, |t| - p) || NoBetter(t, base, ins, p, c.z, c.chain / 4, n)
  }

  /** There is a match of len bytes at a. */
  ghost predicate Matched(t: seq<int>, a: nat, len: nat, z: Sizes) {
    exists q :: 1 <= a - q <= MaxDist(z) && Agree(t, q, a, len)
  }

  /** What is known of the place p that has been put off, with a match of n bytes or none. */
  ghost predicate Waiting(n: nat, p: nat, l: Look, t: seq<int>, ins: set<int>, c: Tuning)
    requires GoodSizes(c.z) && IsBytes(t)
  {
    && p < l.end <= |t| && (n >= MIN_MATCH ==> p + MIN_MATCH <= l.end && Matched(t[..l.end], p, n, c.z))
    && (p + MIN_MATCH <= l.end ==>
          p in ins && if n >= MIN_MATCH then Best(t[..l.end], l.lo, ins, p, c, n) else Lean(t[..l.end], l.lo, ins, p, c))
  }

  /** A match worth adopting: not one of five bytes or less if these are filtered out, nor one of
      three bytes from too far back. */
  predicate Worth(len: nat, dist: int, filtered: bool) {
    if filtered then len > 5 else len > MIN_MATCH || dist <= TOO_FAR
  }

  lemma ThreeBytesFarBack()
    ensures Worth(3, 4096, false) && !Worth(3, 4097, false)
  {
  }

  /** At the next place a, nothing longer than n was found, or n are enough. */
  ghost predicate Kept(t: seq<int>, base: nat, ins: set<int>, a: nat, c: Tuning, n: nat)
    requires GoodSizes(c.z) && IsBytes(t) && a <= |t|
  {
    n >= NiceFor(c.nice, |t| - a)
    || NoBetter(t, base, ins, a, c.z, ChainLimit(c.chain, n, c.good), if c.filtered && n < 5 then 5 else n)
  }

  /** The token tok at place p, searched at the look l and settled at the look v: a literal only if
      there was nothing worth a match or the next place had a longer one; a match only if, unless it
      was long enough already, the next place had none longer. */
  ghost predicate SlowChoice(tok: Token, p: nat, l: Look, v: Look, t: seq<int>, ins: set<int>, c: Tuning)
    requires GoodSizes(c.z) && IsBytes(t)
  {
    && v.end <= |t|
    && match tok
       case Literal(_) =>
         exists n: nat :: Waiting(n, p, l, t, ins, c)
                          && (n >= MIN_MATCH ==> n < c.lazy && Matched(t[..v.end], p + 1, n + 1, c.z))
       case Match(len, dist) =>
         && len >= MIN_MATCH && Worth(len, dist, c.filtered) && Waiting(len, p, l, t, ins, c)
         && Strings(t[..v.end], p + 1, p + len) <= ins
         && (p + 1 + MIN_MATCH <= v.end && len < c.lazy ==> Kept(t[..v.end], v.lo, ins, p + 1, c, len))
  }

  ghost predicate SlowWise(ts: seq<Token>, looks: seq<Look>, verdicts: seq<Look>, t: seq<int>, ins: set<int>, c: Tuning) {
    && GoodSizes(c.z) && IsBytes(t) && |ts| == |verdicts| <= |looks|
    && forall i :: 0 <= i < |ts| ==> SlowChoice(ts[i], Covered(ts[..i]), looks[i], verdicts[i], t, ins, c)
  }

  /** The byte put off, if there is one, has a look of its own. */
  ghost predicate PutOff(put: bool, n: nat, ts: seq<Token>, looks: seq<Look>, t: seq<int>, ins: set<int>, c: Tuning) {
    && GoodSizes(c.z) && IsBytes(t) && |looks| == |ts| + (if put then 1 else 0)
    && (put ==> Waiting(n, Covered(ts), looks[|ts|], t, ins, c))
  }

  lemma LeanLater(t: seq<int>, base: nat, ins: set<int>, ins': set<int>, p: int, c: Tuning)
    requires GoodSizes(c.z) && IsBytes(t) && Lean(t, base, ins, p, c) && p in ins && Later(ins, ins')
    ensures Lean(t, base, ins', p, c)
  {
    hide GoodSizes, NoBetter, Later, FarOff;
    if c.filtered {
      NoBetterLater(t, base, ins, ins', p, c.z, c.chain, 5);
    } else if NoBetter(t, base, ins, p, c.z, c.chain, 2) {
      NoBetterLater(t, base, ins, ins', p, c.z, c.chain, 2);
    } else {
      NoBetterLater(t, base, ins, ins', p, c.z, c.chain, 3);
    }
  }

  lemma WaitingLater(n: nat, p: nat, l: Look, t: seq<int>, t': seq<int>, ins: set<int>, ins': set<int>, c: Tuning)
    requires GoodSizes(c.z) && IsBytes(t) && Waiting(n, p, l, t, ins, c) && t <= t' && IsBytes(t') && Later(ins, ins')
    ensures Waiting(n, p, l, t', ins', c)
  {
    hide GoodSizes, NoBetter, Lean, IsBytes, Matched;
    assert t'[..l.end] == t[..l.end];
    if p + MIN_MATCH <= l.end {
      var u := t[..l.end];
      TakeBytes(t, l.end);
      if n < MIN_MATCH {
        LeanLater(u, l.lo, ins, ins', p, c);
      } else if n < NiceFor(c.nice, |u| - p) {
        NoBetterLater(u, l.lo, ins, ins', p, c.z, c.chain / 4, n);
      }
    }
  }

  lemma KeptLater(t: seq<int>, base: nat, ins: set<int>, ins': set<int>, a: nat, c: Tuning, n: nat)
    requires GoodSizes(c.z) && IsBytes(t) && a <= |t| && Kept(t, base, ins, a, c, n) && a in ins && Later(ins, ins')
    ensures Kept(t, base, ins', a, c, n)
  {
    hide GoodSizes, NoBetter, Later;
    if n < NiceFor(c.nice, |t| - a) {
      NoBetterLater(t, base, ins, ins', a, c.z, ChainLimit(c.chain, n, c.good), if c.filtered && n < 5 then 5 else n);
    }
  }

  lemma SlowChoiceLater(tok: Token, p: nat, l: Look, v: Look, t: seq<int>, t': seq<int>, ins: set<int>, ins': set<int>, c: Tuning)
    requires GoodSizes(c.z) && IsBytes(t) && SlowChoice(tok, p, l, v, t, ins, c) && t <= t' && IsBytes(t') && Later(ins, ins')
    ensures SlowChoice(tok, p, l, v, t', ins', c)
  {
    hide GoodSizes, Waiting, IsBytes, Kept, Matched;
    assert t'[..v.end] == t[..v.end];
    TakeBytes(t, v.end);
    match tok {
      case Literal(_) =>
        var n: nat :| Waiting(n, p, l, t, ins, c) && (n >= MIN_MATCH ==> n < c.lazy && Matched(t[..v.end], p + 1, n + 1, c.z));
        WaitingLater(n, p, l, t, t', ins, ins', c);
      case Match(len, _) =>
        WaitingLater(len, p, l, t, t', ins, ins', c);
        if p + 1 + MIN_MATCH <= v.end && len < c.lazy {
          assert p + 1 in Strings(t[..v.end], p + 1, p + len);
          KeptLater(t[..v.end], v.lo, ins, ins', p + 1, c, len);
        }
    }
  }

  lemma SlowWiseLater(ts: seq<Token>, looks: seq<Look>, verdicts: seq<Look>, t: seq<int>, t': seq<int>,
                      ins: set<int>, ins': set<int>, c: Tuning)
    requires SlowWise(ts, looks, verdicts, t, ins, c) && t <= t' && IsBytes(t') && Later(ins, ins')
    ensures SlowWise(ts, looks, verdicts, t', ins', c)
  {
    hide GoodSizes, SlowChoice, Covered, Later, IsBytes;
    forall i | 0 <= i < |ts| ensures SlowChoice(ts[i], Covered(ts[..i]), looks[i], verdicts[i], t', ins', c) {
      SlowChoiceLater(ts[i], Covered(ts[..i]), looks[i], verdicts[i], t, t', ins, ins', c);
    }
  }

  lemma PutOffLater(put: bool, n: nat, ts: seq<Token>, looks: seq<Look>, t: seq<int>, t': seq<int>,
                    ins: set<int>, ins': set<int>, c: Tuning)
    requires PutOff(put, n, ts, looks, t, ins, c) && t <= t' && IsBytes(t') && Later(ins, ins')
    ensures PutOff(put, n, ts, looks, t', ins', c)
  {
    hide GoodSizes, Waiting, Later, IsBytes;
    if put { WaitingLater(n, Covered(ts), looks[|ts|], t, t', ins, ins', c); }
  }

  /** One more token is settled. */
  lemma SlowWiseMore(ts: seq<Token>, looks: seq<Look>, verdicts: seq<Look>, tok: Token, v: Look, t: seq<int>,
                     ins: set<int>, ins': set<int>, c: Tuning)
    requires SlowWise(ts, looks, verdicts, t, ins, c) && Later(ins, ins') && |looks| > |ts|
    requires SlowChoice(tok, Covered(ts), looks[|ts|], v, t, ins', c)
    ensures SlowWise(ts + [tok], looks, verdicts + [v], t, ins', c)
  {
    hide GoodSizes, SlowChoice, Covered, Later, IsBytes;
    SlowWiseLater(ts, looks, verdicts, t, t, ins, ins', c);
    var ts', verdicts' := ts + [tok], verdicts + [v];
    forall i | 0 <= i < |ts'| ensures SlowChoice(ts'[i], Covered(ts'[..i]), looks[i], verdicts'[i], t, ins', c) {
      if i < |ts| {
        assert ts'[..i] == ts[..i] && ts'[i] == ts[i] && verdicts'[i] == verdicts[i];
        assert SlowChoice(ts[i], Covered(ts[..i]), looks[i], verdicts[i], t, ins', c);
      } else {
        assert ts'[..i] == ts;
      }
    }
  }

  /** One more look is taken. */
  lemma SlowWiseLook(ts: seq<Token>, looks: seq<Look>, verdicts: seq<Look>, l: Look, t: seq<int>, ins: set<int>, c: Tuning)
    requires SlowWise(ts, looks, verdicts, t, ins, c)
    ensures SlowWise(ts, looks + [l], verdicts, t, ins, c)
  {
    hide GoodSizes, SlowChoice, Covered, IsBytes;
    forall i | 0 <= i < |ts| ensures SlowChoice(ts[i], Covered(ts[..i]), (looks + [l])[i], verdicts[i], t, ins, c) {
      assert (looks + [l])[i] == looks[i];
      assert SlowChoice(ts[i], Covered(ts[..i]), looks[i], verdicts[i], t, ins, c);
    }
  }
}
