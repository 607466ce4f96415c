/** What the table building loop of inflate_table keeps: all codes entered so far stay in their
    places, while sub-tables are added one after the other. */
module InflateSettled {
  import opened Bits
  import opened LsbBits
  import opened HuffmanCodes
  import opened InverseTransform
  import opened InflateCodes
  import opened InflateEntries

  ghost predicate Settled(t: seq<Entry>, root: nat, kind: Kind, i: nat, c: seq<bool>, next: nat, curr: nat, p: seq<bool>)
    requires i < Alphabet(kind)
  {
    && InPlace(t, root, kind, i, c)
    && (|c| > root ==> WellInside(LinkOf(t, root, c), root, next, curr, c[..root] == p))
  }

  /** A sub-table lies below the current one, or is the current one. */
  ghost predicate WellInside(l: Entry, root: nat, next: nat, curr: nat, same: bool) {
    Pow2(root) <= l.val && (l.val + Pow2(l.op) <= next || (l.val == next && l.op == curr && same))
  }

  /** Where the code c that is to be entered next goes. */
  ghost predicate Placing(t: seq<Entry>, root: nat, c: seq<bool>, next: nat, curr: nat, drop: nat) {
    && next + Pow2(curr) <= |t|
    && if |c| <= root then drop == 0 && next == 0 && curr == root
       else drop == root && next >= Pow2(root) && LinkOf(t, root, c) == Entry(curr, root, next) && 0 < curr < 16 && |c| - root <= curr
  }

  lemma ApartRests(c: seq<bool>, d: seq<bool>, r: nat)
    requires Apart(c, d) && r <= |c| && r <= |d| && c[..r] == d[..r]
    ensures Apart(c[r..], d[r..])
  {
    Joined(c, d, r);
    Joined(d, c, r);
  }

  lemma Joined(c: seq<bool>, d: seq<bool>, r: nat)
    requires r <= |c| && r <= |d| && c[..r] == d[..r]
    ensures c[r..] <= d[r..] ==> c <= d
  {
    if c[r..] <= d[r..] { assert c == c[..r] + c[r..] && d == d[..r] + d[r..]; }
  }

  lemma BegunBack(c: seq<bool>, d: seq<bool>)
    requires |c| <= |d|
    ensures d <= c ==> c <= d
  {
    if d <= c { assert c[..|d|] == c; }
  }

  lemma LinkStays(t': seq<Entry>, t: seq<Entry>, next: nat, curr: nat, n: nat, h: nat, here: Entry, root: nat, d: seq<bool>)
    requires Replicated(t', t, next, curr, n, h, here) && Pow2(root) <= next && root <= |d|
    ensures LinkOf(t', root, d) == LinkOf(t, root, d)
  {
    LsbBound(d[..root]);
    ReplicatedElsewhere(t', t, next, curr, n, h, here, LsbVal(d[..root]));
  }

  /** Entering code c leaves code d of an earlier symbol where it is. */
  lemma EnteringKeeps(t': seq<Entry>, t: seq<Entry>, root: nat, kind: Kind, j: nat, d: seq<bool>, c: seq<bool>,
                      next: nat, curr: nat, drop: nat, here: Entry)
    requires j < Alphabet(kind) && Placing(t, root, c, next, curr, drop) && |d| <= |c| && Apart(d, c)
    requires Settled(t, root, kind, j, d, next, curr, if root < |c| then c[..root] else [])
    requires Replicated(t', t, next, curr, |c| - drop, LsbVal(c[drop..]), here)
    ensures Settled(t', root, kind, j, d, next, curr, if root < |c| then c[..root] else [])
  {
    hide Fills, EntryOf, Replicated, Pow2, Apart, LsbVal;
    assert c[0..] == c;
    if |c| <= root {
      SameTableKeeps(t', t, 0, root, c, here, d, EntryOf(kind, j, |d|));
    } else if |d| <= root {
      OtherTableKeeps(t', t, next, curr, |c| - drop, LsbVal(c[drop..]), here, 0, root, d, EntryOf(kind, j, |d|));
    } else {
      LinkStays(t', t, next, curr, |c| - drop, LsbVal(c[drop..]), here, root, d);
      var l := LinkOf(t, root, d);
      if l.val + Pow2(l.op) <= next {
        OtherTableKeeps(t', t, next, curr, |c| - drop, LsbVal(c[drop..]), here, l.val, l.op, d[root..], EntryOf(kind, j, |d| - root));
      } else {
        ApartRests(d, c, root);
        SameTableKeeps(t', t, next, curr, c[root..], here, d[root..], EntryOf(kind, j, |d| - root));
      }
    }
  }

  lemma EnteringSettles(t': seq<Entry>, t: seq<Entry>, root: nat, kind: Kind, i: nat, c: seq<bool>, next: nat, curr: nat, drop: nat)
    requires i < Alphabet(kind) && Placing(t, root, c, next, curr, drop)
    requires Replicated(t', t, next, curr, |c| - drop, LsbVal(c[drop..]), EntryOf(kind, i, |c| - drop))
    ensures Settled(t', root, kind, i, c, next, curr, if root < |c| then c[..root] else [])
  {
    hide Fills, EntryOf, Replicated, Pow2, LsbVal;
    assert c[0..] == c;
    if |c| <= root {
      ReplicatedFills(t', t, 0, root, c, EntryOf(kind, i, |c|));
    } else {
      LinkStays(t', t, next, curr, |c| - drop, LsbVal(c[drop..]), EntryOf(kind, i, |c| - drop), root, c);
      ReplicatedFills(t', t, next, curr, c[root..], EntryOf(kind, i, |c| - root));
    }
  }

  /** A new sub-table for the prefix p leaves earlier codes, whose prefixes are others, in place. */
  lemma LinkingKeeps(t: seq<Entry>, root: nat, kind: Kind, j: nat, d: seq<bool>, next: nat, curr: nat, q: seq<bool>,
                     p: seq<bool>, curr': nat)
    requires j < Alphabet(kind) && Settled(t, root, kind, j, d, next, curr, q)
    requires |p| == root && LsbVal(p) < |t| && (|d| <= root ==> !(d <= p)) && (|d| > root ==> d[..root] != p)
    ensures Settled(t[LsbVal(p) := Entry(curr', root, next + Pow2(curr))], root, kind, j, d, next + Pow2(curr), curr', p)
  {
    hide Fills, EntryOf, Pow2, LsbVal;
    LsbBound(p);
    var l' := Entry(curr', root, next + Pow2(curr));
    if |d| <= root {
      LinkKeeps(t, p, l', 0, root, d, EntryOf(kind, j, |d|));
    } else {
      if LsbVal(d[..root]) == LsbVal(p) { LsbInjective(d[..root], p); }
      var l := LinkOf(t, root, d);
      LinkKeeps(t, p, l', l.val, l.op, d[root..], EntryOf(kind, j, |d| - root));
    }
  }

  // ---------------------------------------------------------------- all symbols

  ghost predicate Symbols(u: seq<int>, kind: Kind) {
    |u| <= Alphabet(kind) && (forall i :: 0 <= i < |u| ==> 1 <= u[i] <= MAXBITS + 1) && Fits(u, MAXBITS)
  }

  /** The codes of the first k symbols in the sorted order are in place. */
  ghost predicate AllSettled(t: seq<Entry>, root: nat, kind: Kind, u: seq<int>, k: nat, next: nat, curr: nat, p: seq<bool>)
    requires Symbols(u, kind)
  {
    forall i :: 0 <= i < |u| && Rank(u, i) < k ==> Settled(t, root, kind, i, CodeBits(u, i), next, curr, p)
  }

  /** Codes are prefix-free. */
  lemma CodesApart(u: seq<int>, kind: Kind, i: nat, j: nat)
    requires Symbols(u, kind) && i < |u| && j < |u| && i != j && u[i] <= u[j] <= MAXBITS
    ensures Apart(CodeBits(u, i), CodeBits(u, j))
  {
    hide BitsOf, Code, Fits;
    PrefixFree(u, i, j, MAXBITS);
    BegunBack(CodeBits(u, i), CodeBits(u, j));
  }

  lemma EarlierSymbol(u: seq<int>, i: nat, j: nat)
    requires i < |u| && j < |u| && Rank(u, i) < Rank(u, j)
    ensures i != j && u[i] <= u[j]
  {
    RankOrder(u, i, j);
  }

  lemma RankDistinct(u: seq<int>, i: nat, j: nat)
    requires i < |u| && j < |u| && Rank(u, i) == Rank(u, j)
    ensures i == j
  {
    RankOrder(u, i, j);
    RankOrder(u, j, i);
  }

  /** One turn of the loop enters one more symbol. */
  lemma EnterSymbol(t': seq<Entry>, t: seq<Entry>, root: nat, kind: Kind, u: seq<int>, i: nat, next: nat, curr: nat, drop: nat)
    requires Symbols(u, kind) && i < |u| && u[i] <= MAXBITS
    requires var c := CodeBits(u, i);
             && Placing(t, root, c, next, curr, drop)
             && AllSettled(t, root, kind, u, Rank(u, i), next, curr, if root < |c| then c[..root] else [])
             && Replicated(t', t, next, curr, |c| - drop, LsbVal(c[drop..]), EntryOf(kind, i, |c| - drop))
    ensures var c := CodeBits(u, i);
            AllSettled(t', root, kind, u, Rank(u, i) + 1, next, curr, if root < |c| then c[..root] else [])
  {
    hide Rank, CodeBits, Fits, Placing, Settled, Replicated, EntryOf, Apart, LsbVal;
    var c := CodeBits(u, i);
    var p := if root < |c| then c[..root] else [];
    forall j | 0 <= j < |u| && Rank(u, j) < Rank(u, i) + 1 ensures Settled(t', root, kind, j, CodeBits(u, j), next, curr, p) {
      if Rank(u, j) == Rank(u, i) {
        RankDistinct(u, i, j);
        EnteringSettles(t', t, root, kind, i, c, next, curr, drop);
      } else {
        EarlierSymbol(u, j, i);
        CodesApart(u, kind, j, i);
        EnteringKeeps(t', t, root, kind, j, CodeBits(u, j), c, next, curr, drop, EntryOf(kind, i, |c| - drop));
      }
    }
  }

  /** The first bits of a code, as bits and as a number. */
  lemma PrefixBits(u: seq<int>, kind: Kind, i: nat, r: nat)
    requires Symbols(u, kind) && i < |u| && r <= u[i] <= MAXBITS
    ensures Val(CodeBits(u, i)[..r]) == Prefix(u, i, r)
  {
    hide Fits, Code;
    CodeFits(u, i, MAXBITS);
    CodePrefix(u, i, r);
  }

  /** The last symbol entered has another prefix than the next one: so have all before it. */
  lemma OtherPrefix(u: seq<int>, kind: Kind, j: nat, last: nat, i: nat, r: nat)
    requires Symbols(u, kind) && j < |u| && last < |u| && i < |u|
    requires Rank(u, j) <= Rank(u, last) < Rank(u, i) && r < u[j] && r < u[i] <= MAXBITS
    requires u[last] > r ==> CodeBits(u, last)[..r] != CodeBits(u, i)[..r]
    ensures u[j] <= u[i] && CodeBits(u, j)[..r] != CodeBits(u, i)[..r]
  {
    hide Rank, CodeBits, Fits, Prefix, Val;
    EarlierSymbol(u, last, i);
    if Rank(u, j) == Rank(u, last) {
      RankDistinct(u, j, last);
    } else {
      EarlierSymbol(u, j, last);
      PrefixOrder(u, j, last, r);
      PrefixOrder(u, last, i, r);
      PrefixBits(u, kind, j, r);
      PrefixBits(u, kind, last, r);
      PrefixBits(u, kind, i, r);
      SamePrefix(CodeBits(u, last)[..r], CodeBits(u, i)[..r]);
    }
  }

  lemma SamePrefix(a: seq<bool>, b: seq<bool>)
    requires |a| == |b|
    ensures Val(a) == Val(b) ==> a == b
  {
    BitsOfVal(a);
    BitsOfVal(b);
  }

  /** A sub-table is started for symbol i. */
  lemma StartTable(t: seq<Entry>, root: nat, kind: Kind, u: seq<int>, last: nat, i: nat, next: nat, curr: nat, q: seq<bool>, curr': nat)
    requires Symbols(u, kind) && last < |u| && i < |u| && root < u[i] <= MAXBITS && Rank(u, i) == Rank(u, last) + 1
    requires u[last] > root ==> CodeBits(u, last)[..root] != CodeBits(u, i)[..root]
    requires AllSettled(t, root, kind, u, Rank(u, i), next, curr, q) && LsbVal(CodeBits(u, i)[..root]) < |t|
    ensures var p := CodeBits(u, i)[..root];
            AllSettled(t[LsbVal(p) := Entry(curr', root, next + Pow2(curr))], root, kind, u, Rank(u, i), next + Pow2(curr), curr', p)
  {
    hide Rank, CodeBits, Fits, Settled, EntryOf, Apart, LsbVal, Pow2;
    var c := CodeBits(u, i);
    var p := c[..root];
    LsbBound(p);
    var t' := t[LsbVal(p) := Entry(curr', root, next + Pow2(curr))];
    forall j | 0 <= j < |u| && Rank(u, j) < Rank(u, i) ensures Settled(t', root, kind, j, CodeBits(u, j), next + Pow2(curr), curr', p) {
      EarlierSymbol(u, j, i);
      if u[j] > root {
        OtherPrefix(u, kind, j, last, i, root);
      } else {
        CodesApart(u, kind, j, i);
        NotBegun(CodeBits(u, j), c, root);
      }
      LinkingKeeps(t, root, kind, j, CodeBits(u, j), next, curr, q, p, curr');
    }
  }

  lemma NotBegun(d: seq<bool>, c: seq<bool>, r: nat)
    requires Apart(d, c) && |d| <= r <= |c|
    ensures !(d <= c[..r])
  {
    BegunMore(d, c, r);
  }

  lemma BegunMore(d: seq<bool>, c: seq<bool>, r: nat)
    requires r <= |c|
    ensures d <= c[..r] ==> d <= c
  {
    if d <= c[..r] { assert c[..r][..|d|] == c[..|d|]; }
  }
}
