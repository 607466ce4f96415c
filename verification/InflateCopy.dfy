/** Copying a match out of what has been written (inffast.c and infback.c): from the output
    itself, or from a window in which older output goes round. */
module InflateCopy {
  import opened DeflateTokens

  /** The bytes a match adds. */
  ghost function Added(hist: seq<int>, dist: nat, len: nat): (g: seq<int>)
    requires 1 <= dist <= |hist|
    ensures |g| == len
  {
    Copied(hist, dist, len)[|hist|..]
  }

  lemma {:induction false} CopiedKeeps(hist: seq<int>, dist: nat, len: nat, k: nat)
    requires 1 <= dist <= |hist| && k <= len
    ensures Copied(hist, dist, len)[..|hist| + k] == Copied(hist, dist, k)
    decreases len
  {
    if k < len { CopiedKeeps(hist, dist, len - 1, k); }
  }

  /** Each byte equals the one dist before it. */
  lemma AddedAt(hist: seq<int>, dist: nat, len: nat, k: nat)
    requires 1 <= dist <= |hist| && k < len
    ensures Added(hist, dist, len)[k] == if k < dist then hist[|hist| - dist + k] else Added(hist, dist, len)[k - dist]
  {
    CopiedKeeps(hist, dist, len, k + 1);
    CopiedKeeps(hist, dist, len, k);
    CopiedKeeps(hist, dist, len, 0);
    var r := Copied(hist, dist, len);
    assert r[..|hist| + k + 1][|hist| + k] == Copied(hist, dist, k)[|hist| + k - dist];
    assert r[..|hist| + k][|hist| + k - dist] == r[|hist| + k - dist];
    assert r[..|hist|] == hist;
    if k < dist { assert r[..|hist|][|hist| + k - dist] == hist[|hist| + k - dist]; }
  }

  /** A copy can be made in two parts. */
  lemma AddedSplit(hist: seq<int>, dist: nat, len: nat, k: nat)
    requires 1 <= dist <= |hist| && k <= len
    ensures Added(hist, dist, len)[..k] == Added(hist, dist, k)
    ensures Added(hist, dist, len)[k..] == Added(hist + Added(hist, dist, k), dist, len - k)
    ensures Copied(hist, dist, len) == hist + Added(hist, dist, len)
  {
    CopiedKeeps(hist, dist, len, k);
    CopiedKeeps(hist, dist, len, 0);
    CopiedKeeps(hist, dist, k, 0);
    var r := Copied(hist, dist, len);
    assert r[..|hist| + k][|hist|..] == r[|hist|..][..k];
    assert hist + Added(hist, dist, k) == Copied(hist, dist, k);
    CopiedTwice(hist, dist, k, len - k);
    assert r[|hist|..][k..] == r[|hist| + k..];
  }

  lemma {:induction false} CopiedTwice(hist: seq<int>, dist: nat, k: nat, m: nat)
    requires 1 <= dist <= |hist|
    ensures Copied(hist, dist, k + m) == Copied(Copied(hist, dist, k), dist, m)
  {
    if m > 0 { CopiedTwice(hist, dist, k, m - 1); }
  }

  // ---------------------------------------------------------------- one run of bytes

  /** Reading n bytes of src from from, while they are being written to out at put, gives g. */
  ghost predicate WillRead(g: seq<int>, out: seq<int>, src: seq<int>, same: bool, put: nat, from: nat, n: nat) {
    && |g| == n && from + n <= |src| && put + n <= |out|
    && forall k :: 0 <= k < n ==> g[k] == ReadAt(g, src, same, put, from, k)
  }

  ghost function ReadAt(g: seq<int>, src: seq<int>, same: bool, put: nat, from: nat, k: nat): int
    requires k < |g| && from + k < |src|
  {
    if same && put <= from + k < put + k then g[from + k - put] else src[from + k]
  }

  /** Bytes copied one by one. */
  method CopyRun(out: array<int>, src: array<int>, put: nat, from: nat, n: nat, ghost g: seq<int>)
    requires WillRead(g, out[..], src[..], out == src, put, from, n)
    modifies out
    ensures out[..] == old(out[..put]) + g + old(out[put + n..])
  {
    hide WillRead;
    ghost var o, s := out[..], src[..];
    Bounds(g, o, s, out == src, put, from, n);
    assert out[..] == Written(o, put, g, 0);
    for k := 0 to n
      invariant out[..] == Written(o, put, g, k) && (out != src ==> src[..] == s)
    {
      CopyByte(out, src, put, from, n, k, g, o, s);
    }
    assert g[..n] == g;
  }

  /** The same, unrolled three times. */
  method CopyByThrees(out: array<int>, src: array<int>, put: nat, from: nat, n: nat, ghost g: seq<int>)
    requires WillRead(g, out[..], src[..], out == src, put, from, n)
    modifies out
    ensures out[..] == old(out[..put]) + g + old(out[put + n..])
  {
    hide WillRead, Written;
    var k := 0;
    ghost var o, s := out[..], src[..];
    Bounds(g, o, s, out == src, put, from, n);
    WrittenEnds(o, put, g);
    while n - k > 2
      invariant k <= n && out[..] == Written(o, put, g, k) && (out != src ==> src[..] == s)
    {
      CopyByte(out, src, put, from, n, k, g, o, s);
      CopyByte(out, src, put, from, n, k + 1, g, o, s);
      CopyByte(out, src, put, from, n, k + 2, g, o, s);
      k := k + 3;
    }
    if n - k != 0 {
      CopyByte(out, src, put, from, n, k, g, o, s);
      if n - k > 1 { CopyByte(out, src, put, from, n, k + 1, g, o, s); }
    }
  }

  lemma WrittenEnds(o: seq<int>, put: nat, g: seq<int>)
    requires put + |g| <= |o|
    ensures Written(o, put, g, 0) == o && Written(o, put, g, |g|) == o[..put] + g + o[put + |g|..]
  {
    assert g[..|g|] == g;
  }

  lemma Bounds(g: seq<int>, out: seq<int>, src: seq<int>, same: bool, put: nat, from: nat, n: nat)
    requires WillRead(g, out, src, same, put, from, n)
    ensures |g| == n && from + n <= |src| && put + n <= |out|
  {
  }

  ghost function Written(o: seq<int>, put: nat, g: seq<int>, k: nat): seq<int>
    requires put + k <= |o| && k <= |g|
  {
    o[..put] + g[..k] + o[put + k..]
  }

  method CopyByte(out: array<int>, src: array<int>, put: nat, from: nat, n: nat, k: nat, ghost g: seq<int>, ghost o: seq<int>, ghost s: seq<int>)
    requires WillRead(g, o, s, out == src, put, from, n) && k < n && out[..] == Written(o, put, g, k)
    requires if out == src then s == o else src[..] == s
    modifies out
    ensures out[..] == Written(o, put, g, k + 1)
  {
    assert g[k] == ReadAt(g, s, out == src, put, from, k);
    assert out == src ==> src[from + k] == Written(o, put, g, k)[from + k];
    out[put + k] := src[from + k];
    assert g[..k + 1] == g[..k] + [g[k]];
  }

  // ---------------------------------------------------------------- a whole match

  /** Where the byte x back from the write position wnext is in a window of size w. */
  function RingAt(w: nat, wnext: nat, x: nat): int { if x <= wnext then wnext - x else w + wnext - x }

  /** The dist bytes before put are those of hist: first those in the output from beg on, then
      those in the window. */
  ghost predicate Behind(out: seq<int>, beg: nat, put: nat, window: seq<int>, wnext: nat, hist: seq<int>, dist: nat) {
    && beg <= put <= |out| && wnext <= |window| && 1 <= dist <= |hist| && dist - (put - beg) <= |window|
    && (forall x :: 1 <= x <= dist && x <= put - beg ==> InOutput(out, put, x, hist))
    && var n := put - beg;
       forall x :: 1 <= x && x + n <= dist ==> InWindow(window, wnext, x, hist, n)
  }

  ghost predicate InOutput(out: seq<int>, put: nat, x: nat, hist: seq<int>) {
    1 <= x <= put <= |out| && x <= |hist| && out[put - x] == hist[|hist| - x]
  }

  ghost predicate InWindow(window: seq<int>, wnext: nat, x: nat, hist: seq<int>, n: nat) {
    wnext <= |window| && 1 <= x <= |window| && x + n <= |hist| && window[RingAt(|window|, wnext, x)] == hist[|hist| - n - x]
  }

  /** From byte a of the match on, the rest comes from the output. */
  lemma ReadsOut(out: seq<int>, beg: nat, put: nat, window: seq<int>, wnext: nat, hist: seq<int>, dist: nat, len: nat, a: nat)
    requires Behind(out, beg, put, window, wnext, hist, dist) && put + len <= |out| && a <= len && dist - (put - beg) <= a
    ensures var g := Added(hist, dist, len);
            put + a >= dist && WillRead(g[a..], Written(out, put, g, a), Written(out, put, g, a), true, put + a, put + a - dist, len - a)
  {
    hide Added;
    var g := Added(hist, dist, len);
    var w, rest := Written(out, put, g, a), g[a..];
    forall k | 0 <= k < len - a ensures rest[k] == ReadAt(rest, w, true, put + a, put + a - dist, k) {
      AddedAt(hist, dist, len, a + k);
      if a + k < dist { assert InOutput(out, put, dist - a - k, hist); }
    }
  }

  /** Bytes a to a + n of the match come from the window, starting at from. */
  lemma ReadsWindow(out: seq<int>, beg: nat, put: nat, window: seq<int>, same: bool, wnext: nat, hist: seq<int>, dist: nat, len: nat,
                    a: nat, n: nat, from: nat)
    requires Behind(out, beg, put, window, wnext, hist, dist) && put + len <= |out| && a + n <= len
    requires same ==> window == out && wnext == 0 && beg == 0 && dist <= |out|
    requires n > 0 ==> a + n <= dist - (put - beg) && from == RingAt(|window|, wnext, dist - (put - beg) - a)
    requires n > 0 ==> from + n - 1 == RingAt(|window|, wnext, dist - (put - beg) - a - (n - 1))
    requires from + n <= |window|
    ensures var g := Added(hist, dist, len);
            WillRead(g[a..a + n], Written(out, put, g, a), if same then Written(out, put, g, a) else window, same, put + a, from, n)
  {
    hide Added;
    var g := Added(hist, dist, len);
    var w := Written(out, put, g, a);
    var src, part := if same then w else window, g[a..a + n];
    forall k | 0 <= k < n ensures part[k] == ReadAt(part, src, same, put + a, from, k) {
      AddedAt(hist, dist, len, a + k);
      var x := dist - (put - beg) - a - k;
      assert InWindow(window, wnext, x, hist, put - beg);
      assert from + k == RingAt(|window|, wnext, x);
    }
  }

  /** Some bytes from the window. */
  method TakeFromWindow(out: array<int>, window: array<int>, ghost beg: nat, ghost put: nat, ghost wnext: nat, ghost hist: seq<int>, ghost dist: nat,
                        ghost len: nat, ghost o: seq<int>, ghost w: seq<int>, ghost a: nat, at: nat, n: nat, from: nat)
    requires Behind(o, beg, put, w, wnext, hist, dist) && 1 <= dist <= |hist| && put + len <= |o| && a + n <= len && at == put + a
    requires out[..] == Written(o, put, Added(hist, dist, len), a) && (out != window ==> window[..] == w)
    requires out == window ==> w == o && wnext == 0 && beg == 0 && dist <= |o|
    requires 0 < n <= dist - (put - beg) - a && from == RingAt(|w|, wnext, dist - (put - beg) - a)
    requires from + n - 1 == RingAt(|w|, wnext, dist - (put - beg) - a - (n - 1)) && from + n <= |w|
    modifies out
    ensures out[..] == Written(o, put, Added(hist, dist, len), a + n)
  {
    hide Behind, Added, WillRead;
    ghost var g := Added(hist, dist, len);
    ReadsWindow(o, beg, put, w, out == window, wnext, hist, dist, len, a, n, from);
    CopyRun(out, window, at, from, n, g[a..a + n]);
    assert g[..a + n] == g[..a] + g[a..a + n];
  }

  /** The rest, from the window or from the output. */
  method TakeRest(out: array<int>, window: array<int>, ghost beg: nat, ghost put: nat, ghost wnext: nat, ghost hist: seq<int>, ghost dist: nat,
                  ghost len: nat, ghost o: seq<int>, ghost w: seq<int>, ghost a: nat, at: nat, n: nat, fromOut: bool, from: nat)
    requires Behind(o, beg, put, w, wnext, hist, dist) && 1 <= dist <= |hist| && put + len <= |o| && a + n == len && at == put + a
    requires out[..] == Written(o, put, Added(hist, dist, len), a) && (out != window ==> window[..] == w)
    requires out == window ==> w == o && wnext == 0 && beg == 0 && dist <= |o|
    requires if fromOut then dist - (put - beg) <= a && from + dist == at
             else 0 < n <= dist - (put - beg) - a && from == RingAt(|w|, wnext, dist - (put - beg) - a)
                  && from + n - 1 == RingAt(|w|, wnext, dist - (put - beg) - a - (n - 1)) && from + n <= |w|
    modifies out
    ensures out[..] == o[..put] + Added(hist, dist, len) + o[put + len..]
  {
    hide Behind, Added, WillRead;
    ghost var g := Added(hist, dist, len);
    assert g == g[..a] + g[a..] && g[a..a + n] == g[a..];
    if fromOut {
      ReadsOut(o, beg, put, w, wnext, hist, dist, len, a);
      CopyByThrees(out, out, at, from, n, g[a..]);
    } else {
      ReadsWindow(o, beg, put, w, out == window, wnext, hist, dist, len, a, n, from);
      CopyByThrees(out, window, at, from, n, g[a..]);
    }
  }

  /** The bytes wanted start near the end of the window, op bytes back, and may go on at its
      start and in the output. */
  method TakeWrapped(out: array<int>, window: array<int>, ghost beg: nat, put: nat, wnext: nat, ghost hist: seq<int>, dist: nat,
                     len: nat, ghost o: seq<int>, ghost w: seq<int>, op: nat)
      returns (at: nat, left: nat, from: int, fromOut: bool, ghost a: nat)
    requires Behind(o, beg, put, w, wnext, hist, dist) && 1 <= dist <= |hist| && put + len <= |o| && beg <= put
    requires out[..] == Written(o, put, Added(hist, dist, len), 0) && window[..] == w && out != window
    requires 0 < wnext < op <= |w| && op == dist - (put - beg) && len >= 1
    modifies out
    ensures a + left == len && left >= 1 && at == put + a && out[..] == Written(o, put, Added(hist, dist, len), a)
    ensures if fromOut then op <= a && from + dist == at && from >= 0
            else left <= op - a && from == RingAt(|w|, wnext, op - a)
                 && from + left - 1 == RingAt(|w|, wnext, op - a - (left - 1)) && 0 <= from && from + left <= |w|
  {
    hide Behind, Added;
    left, at, a, fromOut := len, put, 0, false;
    from := window.Length + wnext - op;
    var n := op - wnext;
    if n < left {
      TakeFromWindow(out, window, beg, put, wnext, hist, dist, len, o, w, a, at, n, from);
      at, left, a := at + n, left - n, a + n;
      from := 0;
      if wnext < left {
        n := wnext;
        TakeFromWindow(out, window, beg, put, wnext, hist, dist, len, o, w, a, at, n, from);
        at, left, a := at + n, left - n, a + n;
        OutputStart(o, beg, put, w, wnext, hist, dist);
        fromOut, from := true, at - dist;
      }
    }
  }

  lemma OutputStart(out: seq<int>, beg: nat, put: nat, window: seq<int>, wnext: nat, hist: seq<int>, dist: nat)
    requires Behind(out, beg, put, window, wnext, hist, dist)
    ensures dist - (put - beg) <= |window|
  {
  }

  /** The copy inflate_fast makes, when the distance is within what there is.  The window may be
      the output buffer itself; then wnext is 0, and what has not been overwritten yet is the
      older output. */
  method CopyMatch(out: array<int>, beg: nat, put: nat, window: array<int>, wnext: nat, len: nat, dist: nat, ghost hist: seq<int>)
    requires Behind(out[..], beg, put, window[..], wnext, hist, dist) && put + len <= out.Length && len >= 1
    requires out == window ==> wnext == 0 && beg == 0 && dist <= out.Length
    modifies out
    ensures 1 <= dist <= |hist| && out[..] == old(out[..put]) + Added(hist, dist, len) + old(out[put + len..])
  {
    hide Behind, Added;
    ghost var o, w := out[..], window[..];
    BehindBounds(o, beg, put, w, wnext, hist, dist);
    assert Written(o, put, Added(hist, dist, len), 0) == o;
    var op: int := put - beg;
    var left, at, from := len, put, put - dist;
    ghost var a := 0;
    var fromOut := true;
    if dist > op {
      op := dist - op;
      fromOut := false;
      if wnext == 0 {
        from := window.Length - op;
        if op < left {
          TakeFromWindow(out, window, beg, put, wnext, hist, dist, len, o, w, a, at, op, from);
          at, left, a := at + op, left - op, a + op;
          fromOut, from := true, at - dist;
        }
      } else if wnext < op {
        at, left, from, fromOut, a := TakeWrapped(out, window, beg, put, wnext, hist, dist, len, o, w, op);
      } else {
        from := wnext - op;
        if op < left {
          TakeFromWindow(out, window, beg, put, wnext, hist, dist, len, o, w, a, at, op, from);
          at, left, a := at + op, left - op, a + op;
          fromOut, from := true, at - dist;
        }
      }
    }
    TakeRest(out, window, beg, put, wnext, hist, dist, len, o, w, a, at, left, fromOut, from);
  }

  lemma BehindBounds(out: seq<int>, beg: nat, put: nat, window: seq<int>, wnext: nat, hist: seq<int>, dist: nat)
    requires Behind(out, beg, put, window, wnext, hist, dist)
    ensures beg <= put <= |out| && wnext <= |window| && 1 <= dist <= |hist| && dist - (put - beg) <= |window|
  {
  }
}
