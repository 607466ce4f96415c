/** The rolling hash of deflate (deflate.c, UPDATE_HASH) on three bytes.  A hash value is its
    bits, most significant first; there are at least eight of them. */
module DeflateHash {
  import opened Bits

  function XorBits(a: seq<bool>, b: seq<bool>): (c: seq<bool>)
    requires |a| == |b|
    ensures |c| == |a| && forall i :: 0 <= i < |a| ==> c[i] == (a[i] != b[i])
  {
    seq(|a|, i requires 0 <= i < |a| => a[i] != b[i])
  }

  function Zeros(k: nat): (s: seq<bool>)
    ensures |s| == k && forall i :: 0 <= i < k ==> !s[i]
  {
    seq(k, _ => false)
  }

  /** h << shift, within the mask. */
  function Shifted(h: seq<bool>, shift: nat): (r: seq<bool>)
    requires shift <= |h|
    ensures |r| == |h|
  {
    h[shift..] + Zeros(shift)
  }

  /** A byte in the low bits. */
  function Low(c: nat, bits: nat): (r: seq<bool>)
    requires bits >= 8
    ensures |r| == bits
  {
    Zeros(bits - 8) + BitsOf(c, 8)
  }

  /** UPDATE_HASH. */
  function Update(h: seq<bool>, c: nat, shift: nat): (r: seq<bool>)
    requires |h| >= 8 && shift <= |h|
    ensures |r| == |h|
  {
    XorBits(Shifted(h, shift), Low(c, |h|))
  }

  /** The sizes deflateInit2 chooses: three shifts move a byte out. */
  ghost predicate HashShape(bits: nat, shift: nat) {
    8 <= bits <= 16 && shift == (bits + 2) / 3
  }

  function Pair(b0: nat, b1: nat, bits: nat, shift: nat): (r: seq<bool>)
    requires bits >= 8 && shift <= bits
    ensures |r| == bits
  {
    Update(Low(b0, bits), b1, shift)
  }

  /** The hash of a string of three bytes. */
  function Hash3(b0: nat, b1: nat, b2: nat, bits: nat, shift: nat): (r: seq<bool>)
    requires bits >= 8 && shift <= bits
    ensures |r| == bits
  {
    Update(Pair(b0, b1, bits, shift), b2, shift)
  }

  /** h is the running hash when b0 and b1 were the last two bytes. */
  ghost predicate Rolls(h: seq<bool>, b0: nat, b1: nat, bits: nat, shift: nat)
    requires bits >= 8 && shift <= bits
  {
    |h| == bits && Shifted(h, shift) == Shifted(Pair(b0, b1, bits, shift), shift)
  }

  lemma RollsToHash(h: seq<bool>, b0: nat, b1: nat, b2: nat, bits: nat, shift: nat)
    requires HashShape(bits, shift) && Rolls(h, b0, b1, bits, shift)
    ensures Update(h, b2, shift) == Hash3(b0, b1, b2, bits, shift)
  {
  }

  /** The oldest byte has been shifted out. */
  lemma HashRolls(b0: nat, b1: nat, b2: nat, bits: nat, shift: nat)
    requires HashShape(bits, shift)
    ensures Rolls(Hash3(b0, b1, b2, bits, shift), b1, b2, bits, shift)
  {
    hide BitsOf;
    var h, p := Hash3(b0, b1, b2, bits, shift), Pair(b1, b2, bits, shift);
    var x, y := Shifted(h, shift), Shifted(p, shift);
    forall i | 0 <= i < bits ensures x[i] == y[i] {
      if i + shift < bits {
        TwiceShifted(b0, b1, b2, bits, shift, i + shift);
      }
    }
  }

  /** Of the bits that survive another shift, none comes from b0. */
  lemma TwiceShifted(b0: nat, b1: nat, b2: nat, bits: nat, shift: nat, j: nat)
    requires HashShape(bits, shift) && shift <= j < bits
    ensures Hash3(b0, b1, b2, bits, shift)[j] == Pair(b1, b2, bits, shift)[j]
  {
    hide BitsOf;
    var a := Pair(b0, b1, bits, shift);
    if j + shift < bits {
      assert Shifted(a, shift)[j] == a[j + shift];
      assert Shifted(Low(b1, bits), shift)[j] == Low(b1, bits)[j + shift];
      var m := j + shift;
      assert a[m] == (Shifted(Low(b0, bits), shift)[m] != Low(b1, bits)[m]);
      assert m + shift >= bits;
    }
  }

  /** The running hash is started with two bytes. */
  lemma PairRolls(b0: nat, b1: nat, bits: nat, shift: nat)
    requires HashShape(bits, shift)
    ensures Rolls(Pair(b0, b1, bits, shift), b0, b1, bits, shift)
  {
  }

  /** Strings with the same hash that agree in two bytes agree in the third: hash_bits >= 8
      lets the third byte show. */
  lemma ThirdByte(b0: nat, b1: nat, b2: nat, c2: nat, bits: nat, shift: nat)
    requires HashShape(bits, shift) && b2 < 256 && c2 < 256
    requires Hash3(b0, b1, b2, bits, shift) == Hash3(b0, b1, c2, bits, shift)
    ensures b2 == c2
  {
    hide Pair;
    var s := Shifted(Pair(b0, b1, bits, shift), shift);
    var x, y := Low(b2, bits), Low(c2, bits);
    forall i | 0 <= i < bits ensures x[i] == y[i] {
      assert XorBits(s, x)[i] == XorBits(s, y)[i];
    }
    assert BitsOf(b2, 8) == x[bits - 8..] && BitsOf(c2, 8) == y[bits - 8..];
    assert x == y;
    assert Pow2(8) == 256;
    ValOfBits(b2, 8);
    ValOfBits(c2, 8);
  }

  /** The place of a hash value in the table of heads. */
  function Slot(h: seq<bool>): (n: nat)
    ensures n < Pow2(|h|)
  {
    ValBound(h);
    Val(h)
  }

  lemma SlotInjective(g: seq<bool>, h: seq<bool>)
    requires |g| == |h| && Slot(g) == Slot(h)
    ensures g == h
  {
    BitsOfVal(g);
    BitsOfVal(h);
  }
}
