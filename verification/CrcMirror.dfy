/** The two checksums: that of bzip2 (bzlib_private.h) is that of zlib (crc32.c) with the bits of
    every byte in the opposite order.  A word of the one, read from its most significant bit on,
    is a word of the other, read from its least significant bit on. */
module CrcMirror {
  import Bits
  import opened BlockCrc
  import opened Crc32

  lemma EightVal(l: seq<bool>)
    requires |l| == 8
    ensures Bits.Val(l) == 128 * Bits.Bit(l[0]) + 64 * Bits.Bit(l[1]) + 32 * Bits.Bit(l[2]) + 16 * Bits.Bit(l[3])
                         + 8 * Bits.Bit(l[4]) + 4 * Bits.Bit(l[5]) + 2 * Bits.Bit(l[6]) + Bits.Bit(l[7])
  {
    hide Bits.Bit;
    assert l[..7][..6] == l[..6] && l[..6][..5] == l[..5] && l[..5][..4] == l[..4];
    assert l[..4][..3] == l[..3] && l[..3][..2] == l[..2] && l[..2][..1] == l[..1] && l[..1][..0] == [];
    assert Bits.Val(l[..1]) == Bits.Bit(l[0]);
    assert Bits.Val(l[..2]) == 2 * Bits.Val(l[..1]) + Bits.Bit(l[1]);
    assert Bits.Val(l[..3]) == 2 * Bits.Val(l[..2]) + Bits.Bit(l[2]);
    assert Bits.Val(l[..4]) == 2 * Bits.Val(l[..3]) + Bits.Bit(l[3]);
    assert Bits.Val(l[..5]) == 2 * Bits.Val(l[..4]) + Bits.Bit(l[4]);
    assert Bits.Val(l[..6]) == 2 * Bits.Val(l[..5]) + Bits.Bit(l[5]);
    assert Bits.Val(l[..7]) == 2 * Bits.Val(l[..6]) + Bits.Bit(l[6]);
  }

  /** The number a word spells, byte by byte. */
  lemma WordVal(w: Word)
    ensures Bits.Val(w) == 0x1000000 * Bits.Val(w[..8]) + 0x10000 * Bits.Val(w[8..16]) + 0x100 * Bits.Val(w[16..24])
                         + Bits.Val(w[24..])
  {
    hide Bits.Val;
    assert Bits.Pow2(8) == 256;
    assert w == w[..24] + w[24..] && w[..24] == w[..16] + w[16..24] && w[..16] == w[..8] + w[8..16];
    Bits.ValConcat(w[..24], w[24..]);
    Bits.ValConcat(w[..16], w[16..24]);
    Bits.ValConcat(w[..8], w[8..16]);
  }

  lemma PolyBytes()
    ensures POLY[..8] == [false, false, false, false, false, true, false, false]
    ensures POLY[8..16] == [true, true, false, false, false, false, false, true]
    ensures POLY[16..24] == [false, false, false, true, true, true, false, true]
    ensures POLY[24..] == [true, false, true, true, false, true, true, true]
  {
    var p := POLY;
    assert !p[0] && !p[1] && !p[2] && !p[3] && !p[4] && p[5] && !p[6] && !p[7];
    assert p[8] && p[9] && !p[10] && !p[11] && !p[12] && !p[13] && !p[14] && p[15];
    assert !p[16] && !p[17] && !p[18] && p[19] && p[20] && p[21] && !p[22] && p[23];
    assert p[24] && !p[25] && p[26] && p[27] && !p[28] && p[29] && p[30] && p[31];
  }

  lemma PolyVal()
    ensures Bits.Val(POLY) == 0x04c11db7
  {
    hide Bits.Val, POLY;
    PolyBytes();
    WordVal(POLY);
    EightVal(POLY[..8]);
    EightVal(POLY[8..16]);
    EightVal(POLY[16..24]);
    EightVal(POLY[24..]);
  }

  /** The polynomials are the same, written down from opposite ends. */
  lemma SamePolynomial()
    ensures POLYNOMIAL == POLY
  {
    PolyVal();
    hide Bits.Val, POLY, Bits.BitsOf;
    Bits.BitsOfVal(POLY);
  }

  lemma SameWords(a: CrcWord, b: CrcWord, k: nat)
    requires k <= 32
    ensures Plus(a, b) == Xor(a, b) && Negated(a) == Not(a) && Left(a, k) == Down(a, k) && NO_SUM == ZERO
  {
  }

  /** Zero bits run through both registers alike. */
  lemma {:induction false} SameZeros(c: CrcWord, k: nat)
    ensures Shifted(c, k) == Zeros(c, k)
    decreases k
  {
    hide POLY, POLYNOMIAL, Plus, Xor, Left, Down, ZeroBit;
    if k > 0 {
      var d := if c[0] then Plus(Left(c, 1), POLYNOMIAL) else Left(c, 1);
      SameStep(c);
      SameZeros(d, k - 1);
      ZerosAdd(c, 1, k - 1);
      OneZero(c);
    }
  }

  lemma SameStep(c: CrcWord)
    ensures (if c[0] then Plus(Left(c, 1), POLYNOMIAL) else Left(c, 1)) == ZeroBit(c)
  {
    hide POLY, POLYNOMIAL, Plus, Xor;
    SamePolynomial();
    SameWords(Left(c, 1), POLYNOMIAL, 1);
    SameWords(c, c, 1);
    XorLaws(POLY, Down(c, 1), ZERO);
  }

  /** BZ_UPDATE_CRC is the step of the other checksum on the byte with its bits reversed. */
  lemma SameUpdate(c: CrcWord, cha: int)
    requires 0 <= cha < 256
    ensures Update(c, cha) == Enter(c, Bits.BitsOf(cha, 8))
  {
    hide Zeros, Xor, Plus, Pad, Bits.BitsOf, Low8, Down, Left, Shifted, IndexFor, Crc32.Entry;
    var b := Bits.BitsOf(cha, 8);
    var x := Xor(c, Pad(b));
    SameIndex(c, cha);
    SameZeros(IndexFor(c, cha) + Bits.Falses(24), 8);
    EntryNow(Low8(x));
    TableStep(x);
    DropEntered(c, b);
    SameWords(Left(c, 8), Zeros(Pad(Low8(x)), 8), 8);
    SameWords(c, c, 8);
    XorLaws(Down(c, 8), Zeros(Pad(Low8(x)), 8), ZERO);
  }

  lemma SameIndex(c: CrcWord, cha: int)
    requires 0 <= cha < 256
    ensures IndexFor(c, cha) + Bits.Falses(24) == Pad(Low8(Xor(c, Pad(Bits.BitsOf(cha, 8)))))
  {
  }

  lemma EntryNow(b: Byte)
    ensures Crc32.Entry(0, b) == Zeros(Pad(b), 8)
  {
  }

  ghost predicate Bytes(s: seq<int>) { forall i :: 0 <= i < |s| ==> 0 <= s[i] < 256 }

  /** The bytes, each read from its most significant bit on. */
  function Mirrored(s: seq<int>): (m: seq<Byte>)
    requires Bytes(s)
    ensures |m| == |s| && forall i :: 0 <= i < |s| ==> m[i] == Bits.BitsOf(s[i], 8)
  {
    seq(|s|, i requires 0 <= i < |s| => Bits.BitsOf(s[i], 8))
  }

  lemma {:induction false} SameRegister(c: CrcWord, s: seq<int>)
    requires Bytes(s)
    ensures Fold(c, s) == Register(c, Mirrored(s))
  {
    hide Update, Enter, Bits.BitsOf;
    if |s| > 0 {
      var t, cha := s[..|s| - 1], s[|s| - 1];
      SameRegister(c, t);
      SameUpdate(Fold(c, t), cha);
      assert Mirrored(s) == Mirrored(t) + [Bits.BitsOf(cha, 8)];
      RegisterSnoc(c, Mirrored(t), Bits.BitsOf(cha, 8));
    }
  }

  /** For every string: initial value, polynomial, table and finalisation taken together, the
      checksum of a block is the CRC-32 of its bytes with their bits reversed. */
  lemma SameChecksum(s: seq<int>)
    requires Bytes(s)
    ensures BlockSum(s) == Crc(ZERO, Mirrored(s))
  {
    hide Fold, Register;
    SameRegister(INITIAL, s);
    SameWords(Fold(INITIAL, s), NO_SUM, 0);
    SameWords(NO_SUM, NO_SUM, 0);
  }

  // ---------------------------------------------------------------- what a checksum detects

  lemma MirroredConcat(s: seq<int>, t: seq<int>)
    requires Bytes(s) && Bytes(t)
    ensures Bytes(s + t) && Mirrored(s + t) == Mirrored(s) + Mirrored(t)
  {
    hide Bits.BitsOf;
  }

  lemma MirroredApart(s: seq<int>, t: seq<int>)
    requires Bytes(s) && Bytes(t) && |s| == |t| && s != t
    ensures Mirrored(s) != Mirrored(t)
  {
    hide Bits.BitsOf;
    assert Bits.Pow2(8) == 256;
    var i :| 0 <= i < |s| && s[i] != t[i];
    Bits.ValOfBits(s[i], 8);
    Bits.ValOfBits(t[i], 8);
    assert Mirrored(s)[i] != Mirrored(t)[i];
  }

  /** Blocks that differ within four neighbouring bytes, and so those that differ in one byte, have
      different checksums. */
  lemma BlockBurst(a: seq<int>, u: seq<int>, v: seq<int>, b: seq<int>)
    requires Bytes(a) && Bytes(u) && Bytes(v) && Bytes(b) && |u| == |v| <= 4 && u != v
    ensures BlockSum(a + u + b) != BlockSum(a + v + b)
  {
    hide Fold, Crc;
    MirroredConcat(a, u);
    MirroredConcat(a + u, b);
    MirroredConcat(a, v);
    MirroredConcat(a + v, b);
    SameChecksum(a + u + b);
    SameChecksum(a + v + b);
    MirroredApart(u, v);
    Burst(ZERO, Mirrored(a), Mirrored(u), Mirrored(v), Mirrored(b));
  }
}
