/** The search for a match (deflate.c, longest_match). */
module DeflateMatch {
  import opened DeflateTokens
  import opened DeflateChains
  import opened DeflateState

  /** The positions a search looks at: at most chain links from cur on, above limit. */
  ghost function Candidates(prev: seq<int>, cur: nat, limit: nat, chain: nat, w: nat): set<int>
    requires |prev| == w > 0 && chain >= 1
    decreases chain
  {
    var next := prev[cur % w];
    {cur} + if next <= limit || chain == 1 then {} else Candidates(prev, next, limit, chain - 1, w)
  }

  /** The chain limit and the length that is good enough. */
  function ChainLimit(maxChain: nat, prevLength: nat, good: nat): nat {
    if prevLength >= good then maxChain / 4 else maxChain
  }

  function NiceFor(nice: nat, lookahead: nat): nat {
    if nice > lookahead then lookahead else nice
  }

  function LimitOf(strstart: nat, maxDist: int): nat {
    if strstart > maxDist then strstart - maxDist else 0
  }

  /** Following a chain finds every position of the slot that is near enough: those it passes over
      are counted. */
  lemma {:induction false} ChainFinds(head: seq<int>, prev: seq<int>, t: seq<int>, base: nat, ins: set<int>, top: int, z: Sizes,
                                      cur: nat, limit: nat, chain: nat, p: int)
    requires GoodSizes(z) && IsBytes(t) && Dict(head, prev, t, base, ins, top, z) && |prev| == z.w > 0
    requires base + cur in ins && top <= base + cur + MaxDist(z) && top <= base + limit + MaxDist(z) && chain >= 1
    requires p in ins && base < p <= base + cur && SameSlotAs(t, p, base + cur, z) && (p == base + cur || p - base > limit)
    requires p < base + cur ==> |Rivals(t, ins, p, base + cur, z)| + 1 < chain
    ensures p - base in Candidates(prev, cur, limit, chain, z.w)
    decreases chain
  {
    hide SlotAt, Dict, Rivals;
    CandidatesStep(prev, cur, limit, chain, z.w);
    if p < base + cur {
      ChainStep(head, prev, t, base, ins, top, z, cur);
      var next := prev[cur % z.w];
      assert p - base <= next;
      if p < base + next { SomeBetween(t, ins, p, base + next, base + cur, z); }
      ChainFinds(head, prev, t, base, ins, top, z, next, limit, chain - 1, p);
    }
  }

  /** Every position that should be found is a candidate, when the search starts from the head of
      the chain. */
  lemma HeadFinds(head: seq<int>, prev: seq<int>, t: seq<int>, base: nat, ins: set<int>, str: nat, z: Sizes,
                  cur: nat, chain: nat, p: int)
    requires GoodSizes(z) && IsBytes(t) && Dict(head, prev, t, base, ins, base + str, z) && |prev| == z.w > 0
    requires base + str + 2 < |t| && chain >= 1
    requires cur > 0 && Former(cur, t, base, ins, base + str, z) && str - cur <= MaxDist(z) && MaxDist(z) > 0
    requires Reached(t, base, ins, base + str, z, chain, p)
    ensures p - base in Candidates(prev, cur, LimitOf(str, MaxDist(z)), chain, z.w)
  {
    hide SlotAt, Dict, Candidates;
    assert p - base <= cur;
    if p < base + cur {
      SomeBetween(t, ins, p, base + cur, base + str, z);
      assert base + cur in Rivals(t, ins, p, base + str, z);
    }
    ChainFinds(head, prev, t, base, ins, base + str, z, cur, LimitOf(str, MaxDist(z)), chain, p);
  }

  /** Without a head within reach there is nothing to be found. */
  lemma NothingReached(t: seq<int>, base: nat, ins: set<int>, str: nat, z: Sizes, cur: int, chain: nat, p: int)
    requires GoodSizes(z) && IsBytes(t) && base + str + 2 < |t| && Former(cur, t, base, ins, base + str, z)
    requires cur == 0 || str - cur > MaxDist(z)
    ensures !Reached(t, base, ins, base + str, z, chain, p)
  {
    hide SlotAt;
    assert NoneAfter(cur, t, base, ins, base + str, z);
  }

  /** No candidate seen so far is a match of more than best bytes. */
  ghost predicate NoneLonger(done: set<int>, t: seq<int>, base: nat, top: nat, best: nat) {
    forall p :: p in done ==> !Agree(t, base + p, top, best + 1)
  }

  lemma NoneLongerThan(done: set<int>, t: seq<int>, base: nat, top: nat, best: nat, better: nat)
    requires NoneLonger(done, t, base, top, best) && best <= better
    ensures NoneLonger(done, t, base, top, better)
  {
    forall p | p in done ensures !Agree(t, base + p, top, better + 1) {
      if Agree(t, base + p, top, better + 1) {
        AgreeLess(t, base + p, top, better + 1, best + 1);
      }
    }
  }

  /** A place where the strings differ. */
  lemma Differs(t: seq<int>, a: int, n: int, k: nat, best: nat)
    requires 0 <= a && 0 <= n && a + k < |t| && n + k < |t| && t[a + k] != t[n + k] && k <= best
    ensures !Agree(t, a, n, best + 1)
  {
    if Agree(t, a, n, best + 1) { AgreeAt(t, a, n, best + 1, k); }
  }

  /** The length of the common prefix, from the fourth byte on; the end is checked for after
      every eighth comparison, the last of which is at MAX_MATCH itself. */
  method Compare(window: array<int>, m: nat, n: nat) returns (len: nat)
    requires m < n && n + MAX_MATCH < window.Length
    ensures 3 <= len <= MAX_MATCH && SameFrom3(window[..], m, n, len)
    ensures len < MAX_MATCH ==> window[m + len] != window[n + len]
  {
    len := 2;
    while true
      invariant 2 <= len < MAX_MATCH && SameFrom3(window[..], m, n, len + 1)
      decreases MAX_MATCH - len
    {
      len := len + 1;
      if window[n + len] != window[m + len] || len >= MAX_MATCH { break; }
    }
  }

  ghost predicate SameAt(w: seq<int>, m: nat, n: nat, k: nat) {
    m + k < |w| && n + k < |w| && w[m + k] == w[n + k]
  }

  ghost predicate SameFrom3(w: seq<int>, m: nat, n: nat, len: nat) {
    forall k :: 3 <= k < len ==> SameAt(w, m, n, k)
  }

  /** What the comparison found is a true match as far as the input reaches. */
  lemma MatchIsTrue(w: seq<int>, t: seq<int>, base: nat, cur: nat, str: nat, len: nat)
    requires IsBytes(t) && Shows(w, t, base) && cur < str && base + str + 3 <= |t| && len >= 3
    requires Agree(t, base + cur, base + str, 3) && SameFrom3(w, cur, str, len)
    ensures Agree(t, base + cur, base + str, Within(len, t, base + str))
  {
    hide Shows, Agree;
    var l := Within(len, t, base + str);
    var a, n := base + cur, base + str;
    forall k: nat | k < l ensures EqualAt(t, a, n, k) {
      if k < 3 {
        AgreeAt(t, a, n, 3, k);
      } else {
        ShownAt(w, t, base, cur + k);
        ShownAt(w, t, base, str + k);
        assert SameAt(w, cur, str, k);
      }
    }
    EqualsAgree(t, a, n, l);
  }

  ghost function Within(len: nat, t: seq<int>, n: nat): nat
    requires n <= |t|
  {
    if n + len <= |t| then len else |t| - n
  }

  ghost predicate EqualAt(t: seq<int>, a: nat, n: nat, k: nat) {
    a + k < |t| && n + k < |t| && t[a + k] == t[n + k]
  }

  lemma EqualsAgree(t: seq<int>, a: nat, n: nat, l: nat)
    requires a + l <= |t| && n + l <= |t| && forall k: nat :: k < l ==> EqualAt(t, a, n, k)
    ensures Agree(t, a, n, l)
  {
    var x, y := t[a..a + l], t[n..n + l];
    forall k: nat | k < l ensures x[k] == y[k] {
      assert EqualAt(t, a, n, k);
    }
  }

  /** Two equal bytes on one chain make three. */
  lemma ThreeAgree(w: seq<int>, t: seq<int>, base: nat, ins: set<int>, cur: nat, str: nat, z: Sizes)
    requires GoodSizes(z) && IsBytes(t) && Shows(w, t, base) && cur < str && base + str + 3 <= |t|
    requires OnChain(cur, t, base, ins, SlotAt(t, base + str, z), z)
    requires SameAt(w, cur, str, 0) && SameAt(w, cur, str, 1)
    ensures Agree(t, base + cur, base + str, 3)
  {
    hide SlotAt, IsBytes, Shows;
    ShownAt(w, t, base, cur);
    ShownAt(w, t, base, cur + 1);
    ShownAt(w, t, base, str);
    ShownAt(w, t, base, str + 1);
    var a, n := base + cur, base + str;
    assert t[a..a + 2] == t[n..n + 2];
    ThirdByteAgrees(t, a, n, z);
  }

  /** A mismatch in the window, within the lookahead. */
  lemma WindowDiffers(w: seq<int>, t: seq<int>, base: nat, cur: nat, str: nat, k: nat, best: nat)
    requires IsBytes(t) && Shows(w, t, base) && cur < str && base + str + k < |t| && k <= best && !SameAt(w, cur, str, k)
    ensures !Agree(t, base + cur, base + str, best + 1)
  {
    hide Shows;
    ShownAt(w, t, base, cur + k);
    ShownAt(w, t, base, str + k);
    Differs(t, base + cur, base + str, k, best);
  }

  /** cur is a candidate for the string at strstart. */
  ghost predicate Search(s: State, cur: int)
    reads s`strstart, s`lookahead, s`total, s`base, s`nextIn, s`ins, s.window, s.head, s.prev
  {
    && s.Sized() && s.Windowed() && Dict(s.head[..], s.prev[..], s.total, s.base, s.ins, s.Top(), s.z)
    && s.lookahead >= 3 && s.strstart + MIN_LOOKAHEAD <= s.window.Length
    && 0 <= cur < s.strstart <= cur + MaxDist(s.z)
    && OnChain(cur, s.total, s.base, s.ins, SlotAt(s.total, s.Top(), s.z), s.z)
  }

  /** Of the latest n positions of its slot within reach, none has more than len bytes in common
      with a. */
  ghost predicate NoBetter(t: seq<int>, base: nat, ins: set<int>, a: int, z: Sizes, n: nat, len: nat)
    requires GoodSizes(z) && IsBytes(t)
  {
    forall p :: Reached(t, base, ins, a, z, n, p) ==> !Agree(t, p, a, len + 1)
  }

  /** The string looked for is not one of the earlier ones. */
  lemma NoBetterThen(t: seq<int>, base: nat, ins: set<int>, a: int, z: Sizes, n: nat, len: nat)
    requires GoodSizes(z) && IsBytes(t) && NoBetter(t, base, ins + {a}, a, z, n, len)
    ensures NoBetter(t, base, ins, a, z, n, len)
  {
    hide SlotAt;
    forall p | Reached(t, base, ins, a, z, n, p) ensures !Agree(t, p, a, len + 1) {
      assert Rivals(t, ins, p, a, z) == Rivals(t, ins + {a}, p, a, z);
      assert Reached(t, base, ins + {a}, a, z, n, p);
    }
  }

  /** A search that has seen all candidates has seen all positions it should. */
  lemma Thorough(head: seq<int>, prev: seq<int>, t: seq<int>, base: nat, ins: set<int>, str: nat, z: Sizes,
                 cur: nat, chain: nat, len: nat)
    requires GoodSizes(z) && IsBytes(t) && Dict(head, prev, t, base, ins, base + str, z) && |prev| == z.w > 0
    requires base + str + 2 < |t| && chain >= 1
    requires cur > 0 && Former(cur, t, base, ins, base + str, z) && str - cur <= MaxDist(z) && MaxDist(z) > 0
    requires NoneLonger(Candidates(prev, cur, LimitOf(str, MaxDist(z)), chain, z.w), t, base, base + str, len)
    ensures NoBetter(t, base, ins, base + str, z, chain, len)
  {
    hide Dict, Candidates, Former, Reached;
    var a := base + str;
    forall p | Reached(t, base, ins, a, z, chain, p) ensures !Agree(t, p, a, len + 1) {
      HeadFinds(head, prev, t, base, ins, str, z, cur, chain, p);
      assert base + (p - base) == p;
    }
  }

  lemma NothingBetter(t: seq<int>, base: nat, ins: set<int>, str: nat, z: Sizes, cur: int, chain: nat, len: nat)
    requires GoodSizes(z) && IsBytes(t) && base + str + 2 < |t| && Former(cur, t, base, ins, base + str, z)
    requires cur == 0 || str - cur > MaxDist(z)
    ensures NoBetter(t, base, ins, base + str, z, chain, len)
  {
    hide Former, Reached;
    var a := base + str;
    forall p ensures !Reached(t, base, ins, a, z, chain, p) { NothingReached(t, base, ins, str, z, cur, chain, p); }
  }

  /** The next candidate is on the chain too. */
  lemma Walk(s: State, cur: int)
    requires Search(s, cur)
    ensures s.Sized() && s.z.w > 0 && s.prev.Length == s.z.w
    ensures var next := s.prev[cur % s.z.w];
            next > LimitOf(s.strstart, MaxDist(s.z)) ==> Search(s, next)
  {
    hide SlotAt, IsBytes, Dict;
    ChainStep(s.head[..], s.prev[..], s.total, s.base, s.ins, s.Top(), s.z, cur);
  }

  /** One candidate: the length of the match there if it is longer than best, or 0. */
  method TryCandidate(s: State, cur: nat, best: nat) returns (len: nat)
    requires Search(s, cur) && 1 <= best <= MAX_MATCH
    ensures len <= MAX_MATCH
    ensures s.Top() <= |s.total| && s.lookahead == |s.total| - s.Top()
    ensures len > best ==> len >= 3 && Agree(s.total, s.base + cur, s.Top(), Within(len, s.total, s.Top()))
    ensures var l := if len > best then len else best;
            l < s.lookahead && l < MAX_MATCH ==> !Agree(s.total, s.base + cur, s.Top(), l + 1)
  {
    hide SlotAt, IsBytes, OnChain, Agree, Shows, SameFrom3, Dict;
    s.WindowShows();
    ghost var w := s.window[..];
    len := 0;
    var scan := s.strstart;
    if s.window[cur + best] != s.window[scan + best] {
      if best < s.lookahead { WindowDiffers(w, s.total, s.base, cur, scan, best, best); }
    } else if s.window[cur + best - 1] != s.window[scan + best - 1] {
      if best < s.lookahead { WindowDiffers(w, s.total, s.base, cur, scan, best - 1, best); }
    } else if s.window[cur] != s.window[scan] {
      WindowDiffers(w, s.total, s.base, cur, scan, 0, best);
    } else if s.window[cur + 1] != s.window[scan + 1] {
      WindowDiffers(w, s.total, s.base, cur, scan, 1, best);
    } else {
      ThreeAgree(w, s.total, s.base, s.ins, cur, scan, s.z);
      len := Compare(s.window, cur, scan);
      MatchIsTrue(w, s.total, s.base, cur, scan, len);
      if len < s.lookahead && len < MAX_MATCH {
        WindowDiffers(w, s.total, s.base, cur, scan, len, if len > best then len else best);
      }
    }
  }

  /** There is a match of that length, as far as the input reaches, at matchStart. */
  ghost predicate MatchAt(s: State, len: nat)
    reads s`strstart, s`matchStart, s`total, s`base
  {
    && 1 <= s.strstart - s.matchStart <= MaxDist(s.z)
    && s.Top() <= |s.total| && Agree(s.total, s.base + s.matchStart, s.Top(), Within(len, s.total, s.Top()))
  }

  lemma NoneYet(t: seq<int>, base: nat, top: nat, best: nat)
    ensures NoneLonger({}, t, base, top, best)
  {
  }

  lemma OneMore(done: set<int>, cur: nat, t: seq<int>, base: nat, top: nat, best: nat, l: nat)
    requires NoneLonger(done, t, base, top, best) && best <= l && !Agree(t, base + cur, top, l + 1)
    ensures NoneLonger(done + {cur}, t, base, top, l)
  {
    NoneLongerThan(done, t, base, top, best, l);
  }

  lemma CandidatesStep(prev: seq<int>, cur: nat, limit: nat, chain: nat, w: nat)
    requires |prev| == w > 0 && chain >= 1
    ensures var next := prev[cur % w];
            Candidates(prev, cur, limit, chain, w)
            == {cur} + if next <= limit || chain == 1 then {} else Candidates(prev, next, limit, chain - 1, w)
  {
  }

  lemma SearchFacts(s: State, cur: int)
    requires Search(s, cur)
    ensures s.Sized() && s.prev.Length == s.z.w && 1 <= s.strstart - cur <= MaxDist(s.z) && MaxDist(s.z) > 0
    ensures s.niceMatch <= MAX_MATCH && s.maxChainLength >= 4
    ensures s.Top() <= |s.total| && s.lookahead == |s.total| - s.Top()
  {
    hide Dict, OnChain, SlotAt;
  }

  method Adopt(s: State, cur: nat, len: nat)
    requires 1 <= s.strstart - cur <= MaxDist(s.z) && s.Top() <= |s.total|
    requires Agree(s.total, s.base + cur, s.Top(), Within(len, s.total, s.Top()))
    modifies s`matchStart
    ensures MatchAt(s, len)
  {
    hide Agree;
    s.matchStart := cur;
  }

  /** No match reaches beyond the input. */
  method AtMost(s: State, best: nat) returns (r: nat)
    requires s.Top() <= |s.total| && s.lookahead == |s.total| - s.Top()
    ensures r == NiceFor(best, s.lookahead) && (MatchAt(s, best) ==> MatchAt(s, r))
  {
    r := if best <= s.lookahead then best else s.lookahead;
  }

  /** longest_match: the longest match of more than prevLength bytes among the candidates, or a
      match that is good enough; it never reaches beyond the input. */
  method LongestMatch(s: State, curMatch: nat) returns (r: nat)
    requires Search(s, curMatch) && 1 <= s.prevLength <= MAX_MATCH
    modifies s`matchStart
    ensures r <= s.lookahead && r <= MAX_MATCH && (r >= s.prevLength || r == s.lookahead)
    ensures r > s.prevLength ==> MatchAt(s, r)
    ensures s.Sized() && s.prev.Length == s.z.w
    ensures r >= NiceFor(s.niceMatch, s.lookahead)
            || NoneLonger(Candidates(s.prev[..], curMatch, LimitOf(s.strstart, MaxDist(s.z)),
                                     ChainLimit(s.maxChainLength, s.prevLength, s.goodMatch), s.z.w),
                          s.total, s.base, s.Top(), r)
  {
    hide Search, Candidates, NoneLonger, MatchAt, Agree, Within;
    SearchFacts(s, curMatch);
    var chain := ChainLimit(s.maxChainLength, s.prevLength, s.goodMatch);
    var nice := NiceFor(s.niceMatch, s.lookahead);
    var limit := LimitOf(s.strstart, MaxDist(s.z));
    var best := s.prevLength;
    var cur: nat := curMatch;
    ghost var t, base, top, prev, w := s.total, s.base, s.Top(), s.prev[..], s.z.w;
    ghost var all, done: set<int> := Candidates(prev, curMatch, limit, chain, w), {};
    NoneYet(t, base, top, best);
    while true
      invariant chain >= 1 && s.prevLength <= best <= MAX_MATCH
      invariant Search(s, cur)
      invariant best > s.prevLength ==> MatchAt(s, best)
      invariant best >= nice || NoneLonger(done, t, base, top, best)
      invariant all == done + Candidates(prev, cur, limit, chain, w)
      decreases chain
    {
      SearchFacts(s, cur);
      ghost var before := best;
      var len := TryCandidate(s, cur, best);
      if len > best {
        Adopt(s, cur, len);
        best := len;
        if len >= nice { break; }
      }
      if best < nice { OneMore(done, cur, t, base, top, before, best); }
      CandidatesStep(prev, cur, limit, chain, w);
      done := done + {cur};
      Walk(s, cur);
      var next := s.prev[cur % s.z.w];
      if next <= limit {
        assert done == all;
        break;
      }
      chain := chain - 1;
      if chain == 0 {
        assert done == all;
        break;
      }
      cur := next;
    }
    r := AtMost(s, best);
  }
}
