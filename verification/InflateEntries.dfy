/** Decoding tables of inflate (inftrees.h): what an entry means, how a table is looked up, and
    what it is for a code to be in its place. */
module InflateEntries {
  import opened Bits
  import opened LsbBits

  /** What the code is for: code lengths, literals and lengths, or distances. */
  datatype Kind = Codes | Lens | Dists

  datatype Entry = Entry(op: nat, bits: nat, val: nat)

  const LBASE: seq<nat> := [3, 4, 5, 6, 7, 8, 9, 10, 11, 13, 15, 17, 19, 23, 27, 31,
                            35, 43, 51, 59, 67, 83, 99, 115, 131, 163, 195, 227, 258, 0, 0]
  const LEXT: seq<nat> := [16, 16, 16, 16, 16, 16, 16, 16, 17, 17, 17, 17, 18, 18, 18, 18,
                           19, 19, 19, 19, 20, 20, 20, 20, 21, 21, 21, 21, 16, 77, 202]
  const DBASE: seq<nat> := [1, 2, 3, 4, 5, 7, 9, 13, 17, 25, 33, 49, 65, 97, 129, 193,
                            257, 385, 513, 769, 1025, 1537, 2049, 3073, 4097, 6145,
                            8193, 12289, 16385, 24577, 0, 0]
  const DEXT: seq<nat> := [16, 16, 16, 16, 17, 17, 18, 18, 19, 19, 20, 20, 21, 21, 22, 22,
                           23, 23, 24, 24, 25, 25, 26, 26, 27, 27, 28, 28, 29, 29, 64, 64]

  /** The symbols a code of each kind can have. */
  function Alphabet(kind: Kind): nat {
    match kind
    case Codes => 19
    case Lens => 288
    case Dists => 32
  }

  function MatchOf(kind: Kind): nat {
    match kind
    case Codes => 20
    case Lens => 257
    case Dists => 0
  }

  /** The entry for a symbol. */
  function EntryOf(kind: Kind, sym: nat, bits: nat): (e: Entry)
    requires sym < Alphabet(kind)
    ensures e.bits == bits
  {
    var match_ := MatchOf(kind);
    if sym + 1 < match_ then Entry(0, bits, sym)
    else if sym >= match_ then
      if kind.Lens? then Entry(LEXT[sym - match_], bits, LBASE[sym - match_])
      else Entry(DEXT[sym - match_], bits, DBASE[sym - match_])
    else Entry(32 + 64, bits, 0)
  }

  /** No symbol's entry looks like a link to another table. */
  lemma NotALink(kind: Kind, sym: nat, bits: nat)
    requires sym < Alphabet(kind)
    ensures !IsLink(EntryOf(kind, sym, bits))
  {
    if kind.Lens? && sym >= 257 {
      assert forall k :: 0 <= k < 31 ==> LEXT[k] >= 16;
    } else if kind.Dists? {
      assert forall k :: 0 <= k < 32 ==> DEXT[k] >= 16;
    }
  }

  predicate IsLink(e: Entry) { 0 < e.op < 16 }

  function At(t: seq<Entry>, x: nat): Entry { if x < |t| then t[x] else Entry(64, 1, 0) }

  /** The next n bits, zeros being taken for bits that have not been read yet. */
  function Peek(b: seq<bool>, n: nat): (w: seq<bool>)
    ensures |w| == n
  {
    if n <= |b| then b[..n] else b + Falses(n - |b|)
  }

  datatype Found = Found(op: nat, val: nat, total: nat)

  /** One lookup, or two. */
  function Lookup(t: seq<Entry>, root: nat, b: seq<bool>): Found {
    var e := At(t, LsbVal(Peek(b, root)));
    if IsLink(e) then
      var f := At(t, e.val + LsbVal(Peek(b, e.bits + e.op)[e.bits..]));
      Found(f.op, f.val, e.bits + f.bits)
    else Found(e.op, e.val, e.bits)
  }

  // ---------------------------------------------------------------- codes in place

  /** Every index that starts with c leads to e. */
  ghost predicate Fills(t: seq<Entry>, off: nat, k: nat, c: seq<bool>, e: Entry) {
    |c| <= k && forall w: seq<bool> :: |w| == k && c <= w ==> At(t, off + LsbVal(w)) == e
  }

  /** The sub-table for the first root bits of c. */
  ghost function LinkOf(t: seq<Entry>, root: nat, c: seq<bool>): Entry
    requires root <= |c|
  {
    At(t, LsbVal(c[..root]))
  }

  /** Code c of symbol i is in its place, in the root table or in a sub-table. */
  ghost predicate InPlace(t: seq<Entry>, root: nat, kind: Kind, i: nat, c: seq<bool>)
    requires i < Alphabet(kind)
  {
    if |c| <= root then Fills(t, 0, root, c, EntryOf(kind, i, |c|))
    else
      var l := LinkOf(t, root, c);
      IsLink(l) && l.bits == root && Fills(t, l.val, l.op, c[root..], EntryOf(kind, i, |c| - root))
  }

  /** The bits of an entry are independent of the rest. */
  lemma EntryParts(kind: Kind, sym: nat, bits: nat)
    requires sym < Alphabet(kind)
    ensures EntryOf(kind, sym, bits) == Entry(EntryOf(kind, sym, 0).op, bits, EntryOf(kind, sym, 0).val)
  {
  }

  /** A code in its place is found, whatever bits follow. */
  lemma InPlaceFound(t: seq<Entry>, root: nat, kind: Kind, i: nat, c: seq<bool>, b: seq<bool>)
    requires i < Alphabet(kind) && InPlace(t, root, kind, i, c) && c <= Peek(b, |c|)
    ensures Lookup(t, root, b) == Found(EntryOf(kind, i, 0).op, EntryOf(kind, i, 0).val, |c|)
  {
    hide LsbVal, EntryOf, At, Peek;
    if |c| <= root {
      PeekLonger(b, c, root);
      EntryParts(kind, i, |c|);
      NotALink(kind, i, |c|);
      assert At(t, 0 + LsbVal(Peek(b, root))) == EntryOf(kind, i, |c|);
    } else {
      var l := LinkOf(t, root, c);
      PeekLonger(b, c, root + l.op);
      RootPart(b, c, root, root + l.op);
      EntryParts(kind, i, |c| - root);
      assert At(t, l.val + LsbVal(Peek(b, root + l.op)[root..])) == EntryOf(kind, i, |c| - root);
    }
  }

  lemma RootPart(b: seq<bool>, c: seq<bool>, root: nat, k: nat)
    requires c <= Peek(b, |c|) && c <= Peek(b, k) && root <= |c| <= k
    ensures c[..root] == Peek(b, root) && c[root..] <= Peek(b, k)[root..]
  {
  }

  lemma PeekLonger(b: seq<bool>, c: seq<bool>, k: nat)
    requires c <= Peek(b, |c|) && |c| <= k
    ensures c <= Peek(b, k)
  {
  }

  // ---------------------------------------------------------------- writing entries

  /** What the replication loop does: h is the low n bits of the indices it writes. */
  ghost predicate Replicated(t': seq<Entry>, t: seq<Entry>, off: nat, k: nat, n: nat, h: nat, here: Entry) {
    && |t'| == |t| && off + Pow2(k) <= |t|
    && forall x: nat :: x < |t| ==> t'[x] == if Hit(x, off, k, n, h) then here else t[x]
  }

  predicate Hit(x: nat, off: nat, k: nat, n: nat, h: nat) {
    off <= x < off + Pow2(k) && (x - off) % Pow2(n) == h
  }

  lemma ReplicatedAt(t': seq<Entry>, t: seq<Entry>, off: nat, k: nat, c: seq<bool>, here: Entry, w: seq<bool>)
    requires Replicated(t', t, off, k, |c|, LsbVal(c), here) && |w| == k && |c| <= k
    ensures At(t', off + LsbVal(w)) == if c <= w then here else At(t, off + LsbVal(w))
  {
    hide LsbVal, Pow2;
    LsbBound(w);
    LsbSplit(w, |c|);
    if w[..|c|] != c {
      if LsbVal(w[..|c|]) == LsbVal(c) { LsbInjective(w[..|c|], c); }
    }
  }

  lemma ReplicatedElsewhere(t': seq<Entry>, t: seq<Entry>, off: nat, k: nat, n: nat, h: nat, here: Entry, x: nat)
    requires Replicated(t', t, off, k, n, h, here) && !(off <= x < off + Pow2(k))
    ensures At(t', x) == At(t, x)
  {
    assert !Hit(x, off, k, n, h);
  }

  lemma ReplicatedFills(t': seq<Entry>, t: seq<Entry>, off: nat, k: nat, c: seq<bool>, here: Entry)
    requires Replicated(t', t, off, k, |c|, LsbVal(c), here) && |c| <= k
    ensures Fills(t', off, k, c, here)
  {
    forall w: seq<bool> | |w| == k && c <= w ensures At(t', off + LsbVal(w)) == here {
      ReplicatedAt(t', t, off, k, c, here, w);
    }
  }

  /** Neither string is the beginning of the other. */
  ghost predicate Apart(c: seq<bool>, d: seq<bool>) { !(c <= d) && !(d <= c) }

  lemma Comparable(c: seq<bool>, d: seq<bool>, w: seq<bool>)
    requires c <= w && d <= w
    ensures !Apart(c, d)
  {
    if |c| <= |d| { assert d[..|c|] == c; } else { assert c[..|d|] == d; }
  }

  /** Other codes of the same table stay. */
  lemma SameTableKeeps(t': seq<Entry>, t: seq<Entry>, off: nat, k: nat, c: seq<bool>, here: Entry, d: seq<bool>, e: Entry)
    requires Replicated(t', t, off, k, |c|, LsbVal(c), here) && |c| <= k && Fills(t, off, k, d, e) && Apart(d, c)
    ensures Fills(t', off, k, d, e)
  {
    hide Apart;
    forall w: seq<bool> | |w| == k && d <= w ensures At(t', off + LsbVal(w)) == e {
      if c <= w { Comparable(d, c, w); }
      ReplicatedAt(t', t, off, k, c, here, w);
    }
  }

  /** Codes of another table stay. */
  lemma OtherTableKeeps(t': seq<Entry>, t: seq<Entry>, off: nat, k: nat, n: nat, h: nat, here: Entry,
                        off2: nat, k2: nat, d: seq<bool>, e: Entry)
    requires Replicated(t', t, off, k, n, h, here) && Fills(t, off2, k2, d, e) && off2 + Pow2(k2) <= off
    ensures Fills(t', off2, k2, d, e)
  {
    forall w: seq<bool> | |w| == k2 && d <= w ensures At(t', off2 + LsbVal(w)) == e {
      LsbBound(w);
      ReplicatedElsewhere(t', t, off, k, n, h, here, off2 + LsbVal(w));
    }
  }

  /** A link is put into the root table at index p. */
  lemma LinkKeeps(t: seq<Entry>, p: seq<bool>, l: Entry, off: nat, k: nat, d: seq<bool>, e: Entry)
    requires Fills(t, off, k, d, e) && LsbVal(p) < |t|
    requires off > LsbVal(p) || (off == 0 && k == |p| && !(d <= p))
    ensures Fills(t[LsbVal(p) := l], off, k, d, e)
  {
    forall w: seq<bool> | |w| == k && d <= w ensures At(t[LsbVal(p) := l], off + LsbVal(w)) == e {
      if off == 0 && LsbVal(w) == LsbVal(p) { LsbInjective(w, p); }
    }
  }
}
