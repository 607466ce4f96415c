/** CRandomSFMT::IRandomX (SFMT.h): an integer from an interval by multiplying a random word
    and keeping the upper half, words that would favour some results being rejected.  The
    generator behind BRandom is an arbitrary source of 32-bit words. */
module RandomInteger {
  import opened Bits
  import opened RunLength

  const WORDS := 0x1_0000_0000

  /** How many words each result gets. */
  function Share(n: nat): (q: nat)
    requires n >= 2
    ensures 0 < n && q * n <= WORDS < q * n + n
  {
    var q := WORDS / n;
    assert WORDS == q * n + WORDS % n;
    q
  }

  /** The word is not rejected: the low half of its product stays within the limit. */
  predicate Accepted(x: nat, n: nat)
    requires n >= 2
  {
    x * n % WORDS <= Share(n) * n - 1
  }

  function Value(x: nat, n: nat): nat { x * n / WORDS }

  /** The first word with a result of v or more. */
  function FirstWord(v: nat, n: nat): nat
    requires n >= 2
  {
    (v * WORDS + n - 1) / n
  }

  /** x * n lies in one stretch of q * n products exactly for q consecutive words x. */
  lemma Stretch(v: nat, n: nat, x: nat)
    requires n >= 2
    ensures v * WORDS <= x * n < v * WORDS + Share(n) * n <==> FirstWord(v, n) <= x < FirstWord(v, n) + Share(n)
  {
    var q := Share(n);
    AtLeast(v * WORDS, n, x);
    if x >= q {
      AtLeast(v * WORDS, n, x - q);
      MulDifference(x, q, n);
    } else {
      MulLess(x, q, n);
    }
  }

  lemma MulLess(a: nat, b: nat, n: nat)
    requires a < b && n >= 1
    ensures a * n < b * n
  {
    MulDifference(b, a, n);
    MulAtLeast(b - a, n);
  }

  /** Rounding up: (y + n - 1) / n is the least x with x * n >= y. */
  lemma AtLeast(y: nat, n: nat, x: nat)
    requires n >= 1
    ensures y <= x * n <==> (y + n - 1) / n <= x
  {
    var c, r := (y + n - 1) / n, (y + n - 1) % n;
    assert y + n - 1 == c * n + r;
    if c <= x {
      if c < x { MulLess(c, x, n); }
    } else {
      MulDifference(c, x, n);
      MulAtLeast(c - x, n);
    }
  }

  lemma InStretch(v: nat, n: nat, x: nat)
    requires n >= 2
    ensures Accepted(x, n) && Value(x, n) == v <==> v * WORDS <= x * n < v * WORDS + Share(n) * n
  {
    var p := x * n;
    assert p == p / WORDS * WORDS + p % WORDS;
    if v * WORDS <= p < v * WORDS + Share(n) * n { DivUnique(p, WORDS, v, p - v * WORDS); }
  }

  ghost function Interval(lo: nat, k: nat): (s: set<nat>)
    ensures forall x :: x in s <==> lo <= x < lo + k
    ensures |s| == k
  {
    if k == 0 then {} else Interval(lo, k - 1) + {lo + k - 1}
  }

  /** The words that lead to the result v. */
  ghost function WordsFor(v: nat, n: nat): set<nat>
    requires n >= 2
  {
    set x: nat | x < WORDS && Accepted(x, n) && Value(x, n) == v
  }

  /** Every result has the same number of accepted words: the choice is exactly uniform. */
  lemma Uniform(v: nat, n: nat)
    requires 2 <= n <= 0x7fff_ffff && v < n
    ensures |WordsFor(v, n)| == WORDS / n
  {
    hide Accepted, Value, FirstWord;
    var s := Interval(FirstWord(v, n), Share(n));
    forall x: nat ensures x in s <==> x in WordsFor(v, n) {
      InStretch(v, n, x);
      Stretch(v, n, x);
      if v * WORDS <= x * n < v * WORDS + Share(n) * n { WordInRange(v, n, x); }
    }
    assert s == WordsFor(v, n);
  }

  lemma WordInRange(v: nat, n: nat, x: nat)
    requires 2 <= n && v < n && x * n < v * WORDS + WORDS
    ensures x < WORDS
  {
    if x >= WORDS {
      MulDifference(x, WORDS, n);
      if x > WORDS { MulAtLeast(x - WORDS, n); }
      MulDifference(n, v, WORDS);
      MulAtLeast(n - v, WORDS);
    }
  }

  /** No word leads outside the interval. */
  lemma ValueInRange(x: nat, n: nat)
    requires x < WORDS && n >= 2
    ensures Value(x, n) < n
  {
    MulDifference(WORDS, x, n);
    MulAtLeast(WORDS - x, n);
    assert x * n == Value(x, n) * WORDS + x * n % WORDS;
    if Value(x, n) >= n {
      MulDifference(Value(x, n), n, WORDS);
      if Value(x, n) > n { MulAtLeast(Value(x, n) - n, WORDS); }
    }
  }

  class CRandomSFMT {
    var LastInterval: nat
    var RLimit: nat

    /** The cached limit belongs to the last interval. */
    ghost predicate Valid()
      reads this
    {
      LastInterval == 0 || (LastInterval >= 2 && RLimit == Share(LastInterval) * LastInterval - 1)
    }

    constructor ()
      ensures Valid()
    {
      LastInterval, RLimit := 0, 0;
    }

    /** The rejection limit, in 32-bit arithmetic: it wraps around for powers of two. */
    method SetLimit(interval: nat)
      requires 2 <= interval <= 0x7fff_ffff
      modifies this
      ensures Valid() && LastInterval == interval
    {
      var q := Share(interval);
      assert q == WORDS / interval by { DivUnique(WORDS, interval, q, WORDS - q * interval); }
      RLimit := ((WORDS / interval) * interval - 1) % WORDS;
      LastInterval := interval;
      MulAtLeast(q, interval);
    }

    /** IRandomX: words are drawn until one is accepted.  used counts the words drawn; None
        says that the source gave no acceptable word. */
    method IRandomX(min: int, max: int, source: seq<nat>) returns (r: Option<int>, used: nat)
      requires Valid() && forall i :: 0 <= i < |source| ==> source[i] < WORDS
      requires -0x8000_0000 <= min < 0x8000_0000 && -0x8000_0000 <= max < 0x8000_0000 && max - min + 1 <= 0x7fff_ffff
      modifies this
      ensures Valid() && used <= |source|
      ensures max < min ==> r == Some(-0x8000_0000) && used == 0
      ensures max == min ==> r == Some(min) && used == 0
      ensures max > min ==>
                var n := max - min + 1;
                && (forall i :: 0 <= i < used - 1 ==> !Accepted(source[i], n))
                && (r.Some? ==> used > 0 && Accepted(source[used - 1], n) && r.value == min + Value(source[used - 1], n))
                && (r.Some? ==> min <= r.value <= max)
                && (r.None? ==> used == |source| && forall i :: 0 <= i < used ==> !Accepted(source[i], n))
    {
      used := 0;
      if max <= min {
        if max == min { return Some(min), 0; } else { return Some(-0x8000_0000), 0; }
      }
      hide Value;
      var interval := max - min + 1;
      if interval != LastInterval { SetLimit(interval); }
      while used < |source|
        invariant used <= |source| && Valid() && LastInterval == interval
        invariant forall i :: 0 <= i < used ==> !Accepted(source[i], interval)
      {
        var longran := source[used] * interval;
        var iran, remainder := Value(source[used], interval), longran % WORDS;
        ValueInRange(source[used], interval);
        used := used + 1;
        if remainder <= RLimit { return Some(iran + min), used; }
      }
      r := None;
    }
  }
}
