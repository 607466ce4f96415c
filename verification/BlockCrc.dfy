/** The block checksum of bzip2 (bzlib_private.h, BZ_UPDATE_CRC): a most-significant-bit-first
    CRC over the raw bytes a block stands for.  A word is its bits, the most significant first;
    the literal table is replaced by its generator. */
module BlockCrc {
  import Bits

  type CrcWord = w: seq<bool> | |w| == 32 witness Bits.Falses(32)

  const NO_SUM: CrcWord := Bits.Falses(32)

  /** 0xffffffff. */
  const INITIAL: CrcWord := Negated(NO_SUM)

  /** x^26 + x^23 + x^22 + x^16 + x^12 + x^11 + x^10 + x^8 + x^7 + x^5 + x^4 + x^2 + x + 1, and
      x^32, which has left the register. */
  const POLYNOMIAL: CrcWord := Bits.BitsOf(0x04c11db7, 32)

  function Negated(a: CrcWord): (c: CrcWord)
    ensures forall i :: 0 <= i < 32 ==> c[i] == !a[i]
  {
    seq(32, i requires 0 <= i < 32 => !a[i])
  }

  function Plus(a: CrcWord, b: CrcWord): (c: CrcWord)
    ensures forall i :: 0 <= i < 32 ==> c[i] == (a[i] != b[i])
  {
    seq(32, i requires 0 <= i < 32 => a[i] != b[i])
  }

  /** c << k. */
  function Left(c: CrcWord, k: nat): CrcWord
    requires k <= 32
  {
    c[k..] + Bits.Falses(k)
  }

  /** Shift k zero bits through the register. */
  function Shifted(c: CrcWord, k: nat): CrcWord
    decreases k
  {
    if k == 0 then c else Shifted(if c[0] then Plus(Left(c, 1), POLYNOMIAL) else Left(c, 1), k - 1)
  }

  /** The entry of the table for an index of eight bits. */
  function TableEntry(i: seq<bool>): CrcWord
    requires |i| == 8
  {
    Shifted(i + Bits.Falses(24), 8)
  }

  /** The byte that leaves the register, with the new one added. */
  function IndexFor(crc: CrcWord, cha: int): (i: seq<bool>)
    ensures |i| == 8
  {
    var b := Bits.BitsOf(if cha >= 0 then cha else 0, 8);
    seq(8, j requires 0 <= j < 8 => crc[j] != b[j])
  }

  /** BZ_UPDATE_CRC. */
  function Update(crc: CrcWord, cha: int): CrcWord {
    Plus(Left(crc, 8), TableEntry(IndexFor(crc, cha)))
  }

  function Fold(crc: CrcWord, s: seq<int>): CrcWord {
    if |s| == 0 then crc else Update(Fold(crc, s[..|s| - 1]), s[|s| - 1])
  }

  lemma FoldStep(crc: CrcWord, s: seq<int>, c: int)
    ensures Fold(crc, s + [c]) == Update(Fold(crc, s), c)
  {
    hide Update;
    assert (s + [c])[..|s|] == s;
  }

  lemma {:induction false} FoldConcat(crc: CrcWord, s: seq<int>, t: seq<int>)
    ensures Fold(crc, s + t) == Fold(Fold(crc, s), t)
  {
    hide Update;
    if |t| == 0 {
      assert s + t == s;
    } else {
      var u, c := t[..|t| - 1], t[|t| - 1];
      FoldConcat(crc, s, u);
      assert s + t == (s + u) + [c];
      FoldStep(crc, s + u, c);
    }
  }

  /** BZ_FINALISE_CRC. */
  function Finalised(crc: CrcWord): CrcWord { Negated(crc) }

  /** A word rotated left by one place. */
  function Rotated(c: CrcWord): CrcWord { c[1..] + [c[0]] }

  /** The combined checksum of a stream, rotated before every block. */
  function Combine(combined: CrcWord, block: CrcWord): CrcWord {
    Plus(Rotated(combined), block)
  }

  /** The checksum of a block of raw bytes. */
  function BlockSum(raw: seq<int>): CrcWord {
    Finalised(Fold(INITIAL, raw))
  }

  /** A checksum as the number that is transmitted. */
  function Number(crc: CrcWord): (n: nat)
    ensures n < 0x1_0000_0000
  {
    Bits.ValBound(crc);
    assert Bits.Pow2(32) == 0x1_0000_0000 by { FourGiga(); }
    Bits.Val(crc)
  }

  lemma FourGiga()
    ensures Bits.Pow2(32) == 0x1_0000_0000
  {
    assert Bits.Pow2(8) == 256;
    Bits.Pow2Sum(8, 8);
    Bits.Pow2Sum(16, 16);
  }
}
