/** What the tokens of deflate stand for (deflate.h, _tr_tally_lit and _tr_tally_dist; section 4
    of RFC 1951): literals, and copies from a given distance back. */
module DeflateTokens {
  import opened RunLength

  const MIN_MATCH := 3
  const MAX_MATCH := 258
  const MIN_LOOKAHEAD := MAX_MATCH + MIN_MATCH + 1

  datatype Token = Literal(c: int) | Match(len: nat, dist: nat)

  /** len bytes are copied one by one from dist back, so that a copy may overlap itself. */
  ghost function Copied(out: seq<int>, dist: nat, len: nat): (r: seq<int>)
    requires 1 <= dist <= |out|
    ensures |r| == |out| + len
  {
    if len == 0 then out
    else
      var o := Copied(out, dist, len - 1);
      o + [o[|o| - dist]]
  }

  /** The bytes tokens expand to; None if a copy would start before the first byte. */
  ghost function Expand(ts: seq<Token>): Option<seq<int>> {
    if |ts| == 0 then Some([])
    else
      match Expand(ts[..|ts| - 1])
      case None => None
      case Some(out) =>
        match ts[|ts| - 1]
        case Literal(c) => Some(out + [c])
        case Match(len, dist) => if 1 <= dist <= |out| then Some(Copied(out, dist, len)) else None
  }

  /** A token as d_buf and l_buf hold it: distance 0 marks a literal. */
  function FromBuffer(d: int, lc: int): Token {
    if d == 0 then Literal(lc) else Match(if lc >= 0 then lc + MIN_MATCH else 0, if d > 0 then d else 0)
  }

  ghost function FromBuffers(ds: seq<int>, lcs: seq<int>): (ts: seq<Token>)
    requires |ds| == |lcs|
    ensures |ts| == |ds| && forall i :: 0 <= i < |ds| ==> ts[i] == FromBuffer(ds[i], lcs[i])
  {
    seq(|ds|, i requires 0 <= i < |ds| => FromBuffer(ds[i], lcs[i]))
  }

  /** A match the format allows. */
  ghost predicate Allowed(t: Token, maxDist: int) {
    t.Match? ==> MIN_MATCH <= t.len <= MAX_MATCH && 1 <= t.dist <= maxDist
  }

  /** The tokens are those of t up to place n, and every match is an allowed one. */
  ghost predicate Spells(ts: seq<Token>, t: seq<int>, n: nat, maxDist: int) {
    && n <= |t| && Expand(ts) == Some(t[..n])
    && forall i :: 0 <= i < |ts| ==> Allowed(ts[i], maxDist)
  }

  lemma ExpandSnoc(ts: seq<Token>, x: Token)
    ensures (ts + [x])[..|ts|] == ts && (ts + [x])[|ts|] == x
  {
  }

  lemma LiteralSpells(ts: seq<Token>, t: seq<int>, n: nat, maxDist: int)
    requires Spells(ts, t, n, maxDist) && n < |t|
    ensures Spells(ts + [Literal(t[n])], t, n + 1, maxDist)
  {
    ExpandSnoc(ts, Literal(t[n]));
    assert t[..n + 1] == t[..n] + [t[n]];
  }

  /** The strings at a and at n agree for len bytes. */
  ghost predicate Agree(t: seq<int>, a: int, n: int, len: nat) {
    0 <= a && 0 <= n && a + len <= |t| && n + len <= |t| && t[a..a + len] == t[n..n + len]
  }

  lemma AgreeAt(t: seq<int>, a: int, n: int, len: nat, k: nat)
    requires Agree(t, a, n, len) && k < len
    ensures t[a + k] == t[n + k]
  {
    assert t[a..a + len][k] == t[n..n + len][k];
  }

  lemma AgreeLess(t: seq<int>, a: int, n: int, len: nat, k: nat)
    requires Agree(t, a, n, len) && k <= len
    ensures Agree(t, a, n, k)
  {
    assert t[a..a + len][..k] == t[a..a + k] && t[n..n + len][..k] == t[n..n + k];
  }

  lemma AgreeMore(t: seq<int>, a: int, n: int, len: nat)
    requires Agree(t, a, n, len) && a + len < |t| && n + len < |t| && t[a + len] == t[n + len]
    ensures Agree(t, a, n, len + 1)
  {
    assert t[a..a + len + 1] == t[a..a + len] + [t[a + len]];
    assert t[n..n + len + 1] == t[n..n + len] + [t[n + len]];
  }

  lemma {:induction false} CopySpells(t: seq<int>, n: nat, dist: nat, len: nat)
    requires 1 <= dist <= n <= |t| && Agree(t, n - dist, n, len)
    ensures Copied(t[..n], dist, len) == t[..n + len]
  {
    if len > 0 {
      hide Agree;
      AgreeLess(t, n - dist, n, len, len - 1);
      AgreeAt(t, n - dist, n, len, len - 1);
      InRange(t, n - dist, n, len);
      CopySpells(t, n, dist, len - 1);
      assert t[..n + len] == t[..n + len - 1] + [t[n + len - 1]];
    }
  }

  lemma InRange(t: seq<int>, a: int, n: int, len: nat)
    requires Agree(t, a, n, len)
    ensures a + len <= |t| && n + len <= |t|
  {
  }

  /** A true match, overlapping or not, is one token. */
  lemma MatchSpells(ts: seq<Token>, t: seq<int>, n: nat, len: nat, dist: nat, maxDist: int)
    requires Spells(ts, t, n, maxDist) && MIN_MATCH <= len <= MAX_MATCH && 1 <= dist <= maxDist && dist <= n
    requires Agree(t, n - dist, n, len)
    ensures Spells(ts + [Match(len, dist)], t, n + len, maxDist)
  {
    ExpandSnoc(ts, Match(len, dist));
    CopySpells(t, n, dist, len);
  }

  /** More input changes nothing in what was there. */
  lemma MoreInput(ts: seq<Token>, t: seq<int>, t': seq<int>, n: nat, maxDist: int)
    requires Spells(ts, t, n, maxDist) && t <= t'
    ensures Spells(ts, t', n, maxDist)
  {
    assert t'[..n] == t[..n];
  }

  lemma AgreeLonger(t: seq<int>, t': seq<int>, a: int, n: int, len: nat)
    requires Agree(t, a, n, len) && t <= t'
    ensures Agree(t', a, n, len)
  {
    assert t'[a..a + len] == t[a..a + len] && t'[n..n + len] == t[n..n + len];
  }
}
