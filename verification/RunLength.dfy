/** The initial run-length layer of bzip2 (bzlib.c): runs of 1 to 255 equal bytes, of which
    those of four or more are written as four bytes and a count. */
module RunLength {

  datatype Option<+T> = None | Some(value: T)

  datatype Run = Run(ch: int, len: nat)

  function Rep(ch: int, k: nat): (r: seq<int>)
    ensures |r| == k
    ensures forall i :: 0 <= i < k ==> r[i] == ch
  {
    seq(k, _ => ch)
  }

  /** How many of the first four symbols equal the first. */
  function LeadingRun(s: seq<int>): (k: nat)
    requires |s| > 0
    ensures 1 <= k <= 4 && k <= |s|
    ensures forall i :: 0 <= i < k ==> s[i] == s[0]
  {
    if |s| == 1 || s[1] != s[0] then 1
    else if |s| == 2 || s[2] != s[0] then 2
    else if |s| == 3 || s[3] != s[0] then 3
    else 4
  }

  /** The bytes a block stands for; None when it breaks off before a count. */
  function Expand(s: seq<int>): (r: Option<seq<int>>)
    decreases |s|
  {
    if |s| == 0 then Some([])
    else
      var k := LeadingRun(s);
      if k < 4 then Prefixed(Rep(s[0], k), Expand(s[k..]))
      else if |s| == 4 then None
      else Prefixed(Rep(s[0], 4 + s[4] % 256), Expand(s[5..]))
  }

  function Prefixed(p: seq<int>, r: Option<seq<int>>): Option<seq<int>> {
    if r.None? then None else Some(p + r.value)
  }

  /** What the decoder puts out for a block: the bytes, and whether the block is whole. */
  datatype Text = Text(bytes: seq<int>, whole: bool)

  function Led(p: seq<int>, t: Text): Text { Text(p + t.bytes, t.whole) }

  /** The bytes put out for s.  A block that breaks off before a count is followed by one more
      run: the symbol next, which does not belong to the block, is taken for its count. */
  function Spelt(s: seq<int>, next: int): (t: Text)
    decreases |s|
  {
    if |s| == 0 then Text([], true)
    else
      var k := LeadingRun(s);
      if k < 4 then Led(Rep(s[0], k), Spelt(s[k..], next))
      else if |s| == 4 then Text(Rep(s[0], 4 + next % 256), false)
      else Led(Rep(s[0], 4 + s[4] % 256), Spelt(s[5..], next))
  }

  /** One run at a time. */
  lemma FirstRun(s: seq<int>, next: int)
    requires |s| > 0
    ensures var k := LeadingRun(s);
            if k < 4 then
              Expand(s) == Prefixed(Rep(s[0], k), Expand(s[k..])) && Spelt(s, next) == Led(Rep(s[0], k), Spelt(s[k..], next))
            else if |s| == 4 then Expand(s) == None && Spelt(s, next) == Text(Rep(s[0], 4 + next % 256), false)
            else
              && Expand(s) == Prefixed(Rep(s[0], 4 + s[4] % 256), Expand(s[5..]))
              && Spelt(s, next) == Led(Rep(s[0], 4 + s[4] % 256), Spelt(s[5..], next))
  {
  }

  lemma ExpandNone()
    ensures Expand([]) == Some([]) && forall next :: Spelt([], next) == Text([], true)
  {
  }

  /** A block that stands for something is put out as that; one that does not, as what it would
      stand for with the next symbol added. */
  lemma {:induction false} SpeltIsExpansion(s: seq<int>, next: int)
    ensures Expand(s).Some? ==> Spelt(s, next) == Text(Expand(s).value, true)
    ensures Expand(s).None? ==> Expand(s + [next]) == Some(Spelt(s, next).bytes) && !Spelt(s, next).whole
    decreases |s|
  {
    hide Expand, Spelt;
    ExpandNone();
    if |s| > 0 {
      var k := LeadingRun(s);
      var e := s + [next];
      FirstRun(s, next);
      FirstRun(e, next);
      if k < 4 {
        SpeltIsExpansion(s[k..], next);
        if |s| > k {
          assert LeadingRun(e) == k && e[k..] == s[k..] + [next];
        }
      } else if |s| == 4 {
        assert LeadingRun(e) == 4 && e[5..] == [] && e[4] == next;
        assert Rep(s[0], 4 + next % 256) + [] == Rep(s[0], 4 + next % 256);
      } else {
        SpeltIsExpansion(s[5..], next);
        assert LeadingRun(e) == 4 && e[4] == s[4] && e[5..] == s[5..] + [next];
      }
    }
  }

  lemma SpeltShortRun(ch: int, k: nat, t: seq<int>, next: int)
    requires 1 <= k < 4 && (|t| > 0 ==> t[0] != ch)
    ensures Spelt(Rep(ch, k) + t, next) == Led(Rep(ch, k), Spelt(t, next))
  {
    var s := Rep(ch, k) + t;
    assert s[k..] == t;
    assert forall i :: 0 <= i < k ==> s[i] == ch;
    assert |t| > 0 ==> s[k] == t[0];
    assert LeadingRun(s) == k;
  }

  lemma SpeltCounted(s: seq<int>, next: int)
    requires |s| >= 4 && LeadingRun(s) == 4
    ensures Spelt(s, next) == if |s| == 4 then Text(Rep(s[0], 4 + next % 256), false)
                              else Led(Rep(s[0], 4 + s[4] % 256), Spelt(s[5..], next))
  {
  }

  /** What add_pair_to_block appends for one run. */
  function EncodeRun(r: Run): (s: seq<int>)
    ensures r.len >= 1 ==> 1 <= |s| <= 5
  {
    if r.len < 4 then Rep(r.ch, r.len) else Rep(r.ch, 4) + [r.len - 4]
  }

  function EncodeRuns(rs: seq<Run>): seq<int> {
    if |rs| == 0 then [] else EncodeRun(rs[0]) + EncodeRuns(rs[1..])
  }

  function Flatten(rs: seq<Run>): seq<int> {
    if |rs| == 0 then [] else Rep(rs[0].ch, rs[0].len) + Flatten(rs[1..])
  }

  /** The runs ADD_CHAR_TO_BLOCK produces: none empty or over 255, and two neighbours
      share a byte only when the first of them is full. */
  ghost predicate Separated(rs: seq<Run>) {
    && (forall i :: 0 <= i < |rs| ==> 1 <= rs[i].len <= 255 && 0 <= rs[i].ch < 256)
    && (forall i :: 0 <= i < |rs| - 1 ==> rs[i].ch != rs[i + 1].ch || rs[i].len == 255)
  }

  lemma {:induction false} EncodedBytes(rs: seq<Run>)
    requires Separated(rs)
    ensures forall i :: 0 <= i < |EncodeRuns(rs)| ==> 0 <= EncodeRuns(rs)[i] < 256
  {
    if |rs| > 0 { EncodedBytes(rs[1..]); }
  }

  lemma FirstOfEncoded(rs: seq<Run>)
    requires Separated(rs) && |rs| > 0
    ensures |EncodeRuns(rs)| > 0 && EncodeRuns(rs)[0] == rs[0].ch
  {
  }

  lemma ExpandShortRun(ch: int, k: nat, t: seq<int>)
    requires 1 <= k < 4
    requires |t| > 0 ==> t[0] != ch
    ensures Expand(Rep(ch, k) + t) == Prefixed(Rep(ch, k), Expand(t))
  {
    var s := Rep(ch, k) + t;
    assert s[k..] == t;
    assert forall i :: 0 <= i < k ==> s[i] == ch;
    assert |t| > 0 ==> s[k] == t[0];
    assert LeadingRun(s) == k;
  }

  lemma ExpandCounted(s: seq<int>)
    requires |s| > 4 && LeadingRun(s) == 4
    ensures Expand(s) == Prefixed(Rep(s[0], 4 + s[4] % 256), Expand(s[5..]))
  {
  }

  lemma ExpandLongRun(ch: int, count: nat, t: seq<int>)
    requires count < 256
    ensures Expand(Rep(ch, 4) + [count] + t) == Prefixed(Rep(ch, 4 + count), Expand(t))
  {
    hide Expand;
    var s := Rep(ch, 4) + [count] + t;
    assert s[0] == ch && s[1] == ch && s[2] == ch && s[3] == ch;
    assert s[5..] == t && s[4] == count;
    ExpandCounted(s);
  }

  /** One encoded run expands to itself, whatever well-separated data follows. */
  lemma ExpandOneRun(r: Run, t: seq<int>)
    requires 1 <= r.len <= 255
    requires |t| > 0 && r.len < 4 ==> t[0] != r.ch
    ensures Expand(EncodeRun(r) + t) == Prefixed(Rep(r.ch, r.len), Expand(t))
  {
    if r.len < 4 {
      ExpandShortRun(r.ch, r.len, t);
    } else {
      ExpandLongRun(r.ch, r.len - 4, t);
    }
  }

  /** Expanding undoes encoding. */
  lemma {:induction false} ExpandUndoesEncode(rs: seq<Run>)
    requires Separated(rs)
    ensures Expand(EncodeRuns(rs)) == Some(Flatten(rs))
  {
    if |rs| > 0 {
      ExpandUndoesEncode(rs[1..]);
      if |rs| > 1 { FirstOfEncoded(rs[1..]); }
      hide Expand, EncodeRun;
      ExpandOneRun(rs[0], EncodeRuns(rs[1..]));
    }
  }

  lemma {:induction false} EncodeAppend(rs: seq<Run>, r: Run)
    ensures EncodeRuns(rs + [r]) == EncodeRuns(rs) + EncodeRun(r)
  {
    hide EncodeRun;
    if |rs| == 0 {
      assert rs + [r] == [r] && [r][1..] == [];
    } else {
      EncodeAppend(rs[1..], r);
      assert (rs + [r])[1..] == rs[1..] + [r];
    }
  }

  lemma {:induction false} FlattenAppend(rs: seq<Run>, r: Run)
    ensures Flatten(rs + [r]) == Flatten(rs) + Rep(r.ch, r.len)
  {
    hide Rep;
    if |rs| == 0 {
      assert rs + [r] == [r] && [r][1..] == [];
    } else {
      FlattenAppend(rs[1..], r);
      assert (rs + [r])[1..] == rs[1..] + [r];
    }
  }
}
