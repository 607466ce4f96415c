/** The hash chains of deflate (deflate.c): head holds the latest window position for every
    hash value, prev the one before it, in a ring of w_size entries; entries that have become
    too old are left to rot.  Positions are also given absolutely, in the whole input. */
module DeflateChains {
  import opened Bits
  import opened DeflateTokens
  import opened DeflateHash

  ghost predicate IsBytes(t: seq<int>) {
    forall i :: 0 <= i < |t| ==> 0 <= t[i] < 256
  }

  /** How a place was looked at: the end of the input read by then, and what the window began with. */
  datatype Look = Look(end: nat, lo: nat)

  /** The sizes of the tables. */
  datatype Sizes = Sizes(w: nat, bits: nat, shift: nat)

  function MaxDist(z: Sizes): int { z.w - MIN_LOOKAHEAD }

  ghost predicate GoodSizes(z: Sizes) {
    HashShape(z.bits, z.shift) && 512 <= z.w <= 32768
  }

  /** Where the string at a hashes to. */
  ghost function SlotAt(t: seq<int>, a: int, z: Sizes): (n: nat)
    requires GoodSizes(z) && IsBytes(t) && 0 <= a && a + 2 < |t|
    ensures n < Pow2(z.bits)
  {
    Slot(Hash3(t[a], t[a + 1], t[a + 2], z.bits, z.shift))
  }

  /** v is a window position whose string has been inserted and hashes to slot i. */
  ghost predicate OnChain(v: int, t: seq<int>, base: nat, ins: set<int>, i: nat, z: Sizes)
    requires GoodSizes(z) && IsBytes(t)
  {
    v > 0 && base + v in ins && base + v + 2 < |t| && SlotAt(t, base + v, z) == i
  }

  ghost predicate Heads(head: seq<int>, t: seq<int>, base: nat, ins: set<int>, z: Sizes)
    requires GoodSizes(z) && IsBytes(t)
  {
    && |head| == Pow2(z.bits)
    && forall i :: 0 <= i < |head| ==> head[i] == 0 || OnChain(head[i], t, base, ins, i, z)
  }

  /** head knows the latest position of every slot: none that has been inserted, after window
      index 0, lies behind it. */
  ghost predicate Latest(head: seq<int>, t: seq<int>, base: nat, ins: set<int>, z: Sizes)
    requires GoodSizes(z) && IsBytes(t) && |head| == Pow2(z.bits)
  {
    forall a :: a in ins && base < a && a + 2 < |t| ==> a - base <= HeadOf(head, t, a, z)
  }

  ghost function HeadOf(head: seq<int>, t: seq<int>, a: int, z: Sizes): int
    requires GoodSizes(z) && IsBytes(t) && |head| == Pow2(z.bits) && 0 <= a && a + 2 < |t|
  {
    head[SlotAt(t, a, z)]
  }

  /** v is no earlier than any position of the same slot inserted before a. */
  ghost predicate NoneAfter(v: int, t: seq<int>, base: nat, ins: set<int>, a: int, z: Sizes)
    requires GoodSizes(z) && IsBytes(t) && 0 <= a && a + 2 < |t|
  {
    forall b :: b in ins && base < b < a && SlotAt(t, b, z) == SlotAt(t, a, z) ==> b - base <= v
  }

  /** v is the latest position of a's slot that has been inserted before a; 0 if there is none after
      window index 0. */
  ghost predicate Former(v: int, t: seq<int>, base: nat, ins: set<int>, a: int, z: Sizes)
    requires GoodSizes(z) && IsBytes(t) && 0 <= a && a + 2 < |t|
  {
    && (v == 0 || (base + v < a && OnChain(v, t, base, ins, SlotAt(t, a, z), z)))
    && NoneAfter(v, t, base, ins, a, z)
  }

  /** What prev holds for the inserted position a: the next earlier one on the same chain. */
  ghost predicate Linked(prev: seq<int>, t: seq<int>, base: nat, ins: set<int>, a: int, z: Sizes)
    requires GoodSizes(z) && IsBytes(t) && |prev| == z.w
  {
    base <= a && a + 2 < |t| && Former(prev[(a - base) % z.w], t, base, ins, a, z)
  }

  /** The links of all positions still within reach of top are in place. */
  ghost predicate Dict(head: seq<int>, prev: seq<int>, t: seq<int>, base: nat, ins: set<int>, top: int, z: Sizes)
  {
    && GoodSizes(z) && IsBytes(t) && |prev| == z.w && Heads(head, t, base, ins, z)
    && (forall a :: a in ins ==> 0 <= a && a + 2 < |t|) && Latest(head, t, base, ins, z)
    && (forall a :: a in ins && base <= a && top <= a + MaxDist(z) ==> Linked(prev, t, base, ins, a, z))
  }

  lemma DistinctSlots(p: int, q: int, w: nat)
    requires 0 <= p < q < p + w
    ensures p % w != q % w
  {
    if p % w == q % w {
      var k, l := p / w, q / w;
      assert p == k * w + p % w && q == l * w + q % w;
      MulDifference(l, k, w);
      if l - k >= 1 { MulAtLeast(l - k, w); }
      if l - k < 0 { MulAtLeast(k - l, w); }
    }
  }

  lemma InsertHead(head: seq<int>, t: seq<int>, base: nat, ins: set<int>, z: Sizes, str: nat)
    requires GoodSizes(z) && IsBytes(t) && Heads(head, t, base, ins, z) && base + str + 2 < |t|
    requires str == 0 || base + str in ins
    ensures var i := SlotAt(t, base + str, z); i < |head| && Heads(head[i := str], t, base, ins, z)
  {
    var i := SlotAt(t, base + str, z);
    var head' := head[i := str];
    forall k | 0 <= k < |head| ensures head'[k] == 0 || OnChain(head'[k], t, base, ins, k, z) {
      assert head[k] == 0 || OnChain(head[k], t, base, ins, k, z);
    }
  }

  lemma HeadsGrow(head: seq<int>, t: seq<int>, base: nat, ins: set<int>, a: int, z: Sizes)
    requires GoodSizes(z) && IsBytes(t) && Heads(head, t, base, ins, z)
    ensures Heads(head, t, base, ins + {a}, z)
  {
    hide SlotAt;
    forall k | 0 <= k < |head| ensures head[k] == 0 || OnChain(head[k], t, base, ins + {a}, k, z) {
      assert head[k] == 0 || OnChain(head[k], t, base, ins, k, z);
    }
  }

  /** The inserted string is now the latest of its slot. */
  lemma LatestInserted(head: seq<int>, t: seq<int>, base: nat, ins: set<int>, z: Sizes, str: nat)
    requires GoodSizes(z) && IsBytes(t) && |head| == Pow2(z.bits) && Latest(head, t, base, ins, z)
    requires (forall a :: a in ins ==> 0 <= a && a + 2 < |t|) && base + str + 2 < |t| && forall a :: a in ins ==> a < base + str
    ensures Latest(head[SlotAt(t, base + str, z) := str], t, base, ins + {base + str}, z)
  {
    hide SlotAt;
    var i := SlotAt(t, base + str, z);
    var head' := head[i := str];
    forall a | a in ins + {base + str} && base < a && a + 2 < |t| ensures a - base <= HeadOf(head', t, a, z) {
      if a in ins && SlotAt(t, a, z) != i { assert HeadOf(head', t, a, z) == HeadOf(head, t, a, z); }
    }
  }

  /** Its link leads to the one that was the latest before. */
  lemma LinkNew(head: seq<int>, prev: seq<int>, t: seq<int>, base: nat, ins: set<int>, z: Sizes, str: nat)
    requires GoodSizes(z) && IsBytes(t) && |prev| == z.w && Heads(head, t, base, ins, z) && Latest(head, t, base, ins, z)
    requires (forall a :: a in ins ==> 0 <= a && a + 2 < |t|) && base + str + 2 < |t| && forall a :: a in ins ==> a < base + str
    ensures Linked(prev[str % z.w := head[SlotAt(t, base + str, z)]], t, base, ins + {base + str}, base + str, z)
  {
    hide SlotAt;
    var a0 := base + str;
    var i := SlotAt(t, a0, z);
    assert head[i] == 0 || OnChain(head[i], t, base, ins, i, z);
    forall b | b in ins + {a0} && base < b < a0 && SlotAt(t, b, z) == i ensures b - base <= head[i] {
      assert b - base <= HeadOf(head, t, b, z);
    }
  }

  /** Links of earlier strings stay as they are, if they are not overwritten. */
  lemma LinkOld(prev: seq<int>, t: seq<int>, base: nat, ins: set<int>, z: Sizes, str: nat, v: int, a: int)
    requires GoodSizes(z) && IsBytes(t) && |prev| == z.w && Linked(prev, t, base, ins, a, z)
    requires a < base + str && (a - base) % z.w != str % z.w
    ensures Linked(prev[str % z.w := v], t, base, ins + {base + str}, a, z)
  {
    hide SlotAt;
    var u := prev[(a - base) % z.w];
    assert NoneAfter(u, t, base, ins, a, z);
  }

  /** INSERT_STRING keeps the dictionary: the entry of prev it overwrites belongs to a position
      out of reach. */
  lemma InsertKeeps(head: seq<int>, prev: seq<int>, t: seq<int>, base: nat, ins: set<int>, top: int, z: Sizes, str: nat)
    requires Dict(head, prev, t, base, ins, top, z)
    requires base + str <= top && base + str + 2 < |t| && forall a :: a in ins ==> a < base + str
    ensures var i := SlotAt(t, base + str, z);
            i < |head| && Dict(head[i := str], prev[str % z.w := head[i]], t, base, ins + {base + str}, top, z)
  {
    hide SlotAt, Linked, Latest, Heads, OnChain, GoodSizes;
    DictSizes(head, prev, t, base, ins, top, z);
    var a0 := base + str;
    var i := SlotAt(t, a0, z);
    var ins' := ins + {a0};
    var head', prev' := head[i := str], prev[str % z.w := head[i]];
    HeadsGrow(head, t, base, ins, a0, z);
    InsertHead(head, t, base, ins', z, str);
    LatestInserted(head, t, base, ins, z, str);
    LinkNew(head, prev, t, base, ins, z, str);
    forall a | a in ins' && base <= a && top <= a + MaxDist(z) ensures Linked(prev', t, base, ins', a, z) {
      if a != a0 {
        LinkedAt(prev, t, base, ins, a, z);
        DistinctSlots(a - base, str, z.w);
        LinkOld(prev, t, base, ins, z, str, head[i], a);
      }
    }
  }

  lemma DictSizes(head: seq<int>, prev: seq<int>, t: seq<int>, base: nat, ins: set<int>, top: int, z: Sizes)
    requires Dict(head, prev, t, base, ins, top, z)
    ensures |head| == Pow2(z.bits) && |prev| == z.w > 0
  {
  }

  lemma LinkedAt(prev: seq<int>, t: seq<int>, base: nat, ins: set<int>, a: int, z: Sizes)
    requires GoodSizes(z) && IsBytes(t) && |prev| == z.w && Linked(prev, t, base, ins, a, z)
    ensures base <= a && a + 2 < |t|
  {
  }

  lemma DictLater(head: seq<int>, prev: seq<int>, t: seq<int>, base: nat, ins: set<int>, top: int, z: Sizes, top': int)
    requires Dict(head, prev, t, base, ins, top, z) && top <= top'
    ensures Dict(head, prev, t, base, ins, top', z)
  {
  }

  /** More input does not disturb the dictionary. */
  lemma DictGrows(head: seq<int>, prev: seq<int>, t: seq<int>, u: seq<int>, base: nat, ins: set<int>, top: int, z: Sizes)
    requires Dict(head, prev, t, base, ins, top, z) && IsBytes(u)
    ensures Dict(head, prev, t + u, base, ins, top, z)
  {
    forall a: int | 0 <= a && a + 2 < |t| ensures SlotAt(t + u, a, z) == SlotAt(t, a, z) {}
    hide SlotAt;
    forall i | 0 <= i < |head| ensures head[i] == 0 || OnChain(head[i], t + u, base, ins, i, z) {
      assert head[i] == 0 || OnChain(head[i], t, base, ins, i, z);
    }
    forall a | a in ins && base <= a && top <= a + MaxDist(z) ensures Linked(prev, t + u, base, ins, a, z) {
      assert Linked(prev, t, base, ins, a, z);
    }
  }

  function Slid(m: int, w: int): int { if m >= w then m - w else 0 }

  ghost predicate AllSlid(s': seq<int>, s: seq<int>, w: int) {
    |s'| == |s| && forall i :: 0 <= i < |s| ==> s'[i] == Slid(s[i], w)
  }

  lemma HeadsSlid(head: seq<int>, t: seq<int>, base: nat, ins: set<int>, z: Sizes, head': seq<int>)
    requires GoodSizes(z) && IsBytes(t) && Heads(head, t, base, ins, z) && AllSlid(head', head, z.w)
    ensures Heads(head', t, base + z.w, ins, z)
  {
    hide SlotAt;
    forall i | 0 <= i < |head| ensures head'[i] == 0 || OnChain(head'[i], t, base + z.w, ins, i, z) {
      assert head[i] == 0 || OnChain(head[i], t, base, ins, i, z);
    }
  }

  lemma LatestSlid(head: seq<int>, t: seq<int>, base: nat, ins: set<int>, z: Sizes, head': seq<int>)
    requires GoodSizes(z) && IsBytes(t) && |head| == Pow2(z.bits) && Latest(head, t, base, ins, z) && AllSlid(head', head, z.w)
    ensures Latest(head', t, base + z.w, ins, z)
  {
    hide SlotAt;
    forall a | a in ins && base + z.w < a && a + 2 < |t| ensures a - (base + z.w) <= HeadOf(head', t, a, z) {
      assert a - base <= HeadOf(head, t, a, z);
    }
  }

  lemma LinkSlid(prev: seq<int>, t: seq<int>, base: nat, ins: set<int>, z: Sizes, prev': seq<int>, a: int)
    requires GoodSizes(z) && IsBytes(t) && |prev| == z.w && Linked(prev, t, base, ins, a, z) && AllSlid(prev', prev, z.w)
    requires a >= base + z.w
    ensures Linked(prev', t, base + z.w, ins, a, z)
  {
    hide SlotAt;
    SameSlot(a - base, z.w);
    var v := prev[(a - base) % z.w];
    assert NoneAfter(v, t, base, ins, a, z);
  }

  /** slide_hash: what is still in the window is found at its new place. */
  lemma SlideKeeps(head: seq<int>, prev: seq<int>, t: seq<int>, base: nat, ins: set<int>, top: int, z: Sizes,
                   head': seq<int>, prev': seq<int>)
    requires Dict(head, prev, t, base, ins, top, z) && AllSlid(head', head, z.w) && AllSlid(prev', prev, z.w)
    requires top >= base + z.w + MaxDist(z)
    ensures Dict(head', prev', t, base + z.w, ins, top, z)
  {
    hide SlotAt, Linked, Latest, OnChain;
    HeadsSlid(head, t, base, ins, z, head');
    LatestSlid(head, t, base, ins, z, head');
    forall a | a in ins && base + z.w <= a && top <= a + MaxDist(z) ensures Linked(prev', t, base + z.w, ins, a, z) {
      LinkSlid(prev, t, base, ins, z, prev', a);
    }
  }

  lemma SameSlot(p: int, w: nat)
    requires p >= w > 0
    ensures (p - w) % w == p % w
  {
    var k := p / w;
    assert p == k * w + p % w;
    MulDifference(k, 1, w);
    if k < 1 { MulDifference(1, k, w); if k < 0 { MulAtLeast(-k, w); } }
    DivUnique(p - w, w, k - 1, p % w);
  }

  /** One step along a chain from cur stays on it and goes back, as long as it stays above
      the limit. */
  lemma ChainStep(head: seq<int>, prev: seq<int>, t: seq<int>, base: nat, ins: set<int>, top: int, z: Sizes, cur: nat)
    requires Dict(head, prev, t, base, ins, top, z) && base + cur in ins && top <= base + cur + MaxDist(z)
    ensures base + cur + 2 < |t|
    ensures var next := prev[cur % z.w];
            && Former(next, t, base, ins, base + cur, z)
            && (next == 0 || (0 < next < cur && OnChain(next, t, base, ins, SlotAt(t, base + cur, z), z)))
  {
    assert Linked(prev, t, base, ins, base + cur, z);
  }

  /** Strings in the same slot that agree in two bytes agree in three. */
  lemma ThirdByteAgrees(t: seq<int>, a: int, n: int, z: Sizes)
    requires GoodSizes(z) && IsBytes(t) && 0 <= a && 0 <= n && a + 2 < |t| && n + 2 < |t|
    requires SlotAt(t, a, z) == SlotAt(t, n, z) && Agree(t, a, n, 2)
    ensures Agree(t, a, n, 3)
  {
    hide Hash3, Slot;
    AgreeAt(t, a, n, 2, 0);
    AgreeAt(t, a, n, 2, 1);
    SlotInjective(Hash3(t[a], t[a + 1], t[a + 2], z.bits, z.shift), Hash3(t[n], t[n + 1], t[n + 2], z.bits, z.shift));
    ThirdByte(t[a], t[a + 1], t[a + 2], t[n + 2], z.bits, z.shift);
    AgreeMore(t, a, n, 2);
  }

  /** The places from a to b where a whole string of three bytes begins. */
  ghost function Strings(t: seq<int>, a: int, b: int): set<int> {
    set x | a <= x < b && Begins(t, x)
  }

  predicate Begins(t: seq<int>, x: int) { x + 2 < |t| }

  /** Positions are inserted in ascending order. */
  ghost predicate Later(ins: set<int>, ins': set<int>) {
    ins <= ins' && forall x, a :: x in ins' && x !in ins && a in ins ==> a < x
  }

  lemma StringsLater(ins: set<int>, t: seq<int>, a: int, b: int)
    requires forall x :: x in ins ==> x < a
    ensures Later(ins, ins + Strings(t, a, b))
  {
  }

  // ---------------------------------------------------------------- what a search should find

  ghost predicate SameSlotAs(t: seq<int>, q: int, a: int, z: Sizes)
    requires GoodSizes(z) && IsBytes(t)
  {
    0 <= q && q + 2 < |t| && 0 <= a && a + 2 < |t| && SlotAt(t, q, z) == SlotAt(t, a, z)
  }

  /** The inserted positions of a's slot between p and a. */
  ghost function Rivals(t: seq<int>, ins: set<int>, p: int, a: int, z: Sizes): set<int>
    requires GoodSizes(z) && IsBytes(t)
  {
    set q | q in ins && p < q < a && SameSlotAs(t, q, a, z)
  }

  /** p is one of the latest n positions of a's slot, and not too far back. */
  ghost predicate Reached(t: seq<int>, base: nat, ins: set<int>, a: int, z: Sizes, n: nat, p: int)
    requires GoodSizes(z) && IsBytes(t)
  {
    && p in ins && base < p < a && SameSlotAs(t, p, a, z) && |Rivals(t, ins, p, a, z)| < n
    && (a - p < MaxDist(z) || (a - p == MaxDist(z) && Rivals(t, ins, p, a, z) == {}))
  }

  /** Strings that agree in three bytes have the same slot. */
  lemma AgreeingSlot(t: seq<int>, p: int, a: int, z: Sizes)
    requires GoodSizes(z) && IsBytes(t) && Agree(t, p, a, 3)
    ensures SameSlotAs(t, p, a, z)
  {
    AgreeAt(t, p, a, 3, 0);
    AgreeAt(t, p, a, 3, 1);
    AgreeAt(t, p, a, 3, 2);
  }

  lemma SomeBetween(t: seq<int>, ins: set<int>, p: int, m: int, a: int, z: Sizes)
    requires GoodSizes(z) && IsBytes(t) && p < m < a && m in ins && SameSlotAs(t, m, a, z)
    ensures |Rivals(t, ins, p, m, z)| + 1 <= |Rivals(t, ins, p, a, z)|
  {
    hide SlotAt;
    Larger(Rivals(t, ins, p, m, z), m, Rivals(t, ins, p, a, z));
  }

  lemma Larger(x: set<int>, m: int, y: set<int>)
    requires m !in x && m in y && x <= y
    ensures |x| + 1 <= |y|
  {
    assert x + {m} <= y;
    Subset(x + {m}, y);
  }

  lemma Subset(x: set<int>, y: set<int>)
    requires x <= y
    ensures |x| <= |y|
  {
    assert y == x + (y - x);
  }

  /** No more positions lie between p and a than there are numbers. */
  lemma {:induction false} FewRivals(t: seq<int>, ins: set<int>, p: int, a: int, z: Sizes)
    requires GoodSizes(z) && IsBytes(t) && p < a
    ensures |Rivals(t, ins, p, a, z)| <= a - p - 1
  {
    hide SlotAt;
    FewBetween(Rivals(t, ins, p, a, z), p, a);
  }

  lemma {:induction false} FewBetween(x: set<int>, p: int, a: int)
    requires p < a && forall q :: q in x ==> p < q < a
    ensures |x| <= a - p - 1
    decreases a - p
  {
    if a == p + 1 {
      forall q: int ensures q !in x {}
      assert x == {};
    } else {
      FewBetween(x - {a - 1}, p, a - 1);
      assert x <= (x - {a - 1}) + {a - 1};
      Subset(x, (x - {a - 1}) + {a - 1});
    }
  }
}
