/** The bit streams of bzip2: the encoder's 32-bit buffer filled from the top (compress.c) and
    the decoder's buffer filled from the bottom (decompress.c, GET_BITS). */
module BitStream {
  import opened Bits

  ghost function BytesBits(s: seq<int>): (b: seq<bool>)
    requires forall i :: 0 <= i < |s| ==> 0 <= s[i]
    ensures |b| == 8 * |s|
  {
    if |s| == 0 then [] else BytesBits(s[..|s| - 1]) + BitsOf(s[|s| - 1], 8)
  }

  lemma BytesSnoc(s: seq<int>, c: int)
    requires 0 <= c && forall i :: 0 <= i < |s| ==> 0 <= s[i]
    ensures BytesBits(s + [c]) == BytesBits(s) + BitsOf(c, 8)
  {
    assert (s + [c])[..|s|] == s;
  }

  lemma NoBytes()
    ensures BytesBits([]) == []
  {
  }

  lemma {:induction false} BytesConcat(s: seq<int>, t: seq<int>)
    requires forall i :: 0 <= i < |s| ==> 0 <= s[i]
    requires forall i :: 0 <= i < |t| ==> 0 <= t[i]
    ensures BytesBits(s + t) == BytesBits(s) + BytesBits(t)
  {
    hide BytesBits, BitsOf;
    if |t| == 0 {
      NoBytes();
      assert s + t == s && t == [] && BytesBits(s) + [] == BytesBits(s);
    } else {
      var u, c := t[..|t| - 1], t[|t| - 1];
      BytesConcat(s, u);
      assert t == u + [c] && s + t == (s + u) + [c];
      BytesSnoc(u, c);
      BytesSnoc(s + u, c);
      assert (BytesBits(s) + BytesBits(u)) + BitsOf(c, 8) == BytesBits(s) + (BytesBits(u) + BitsOf(c, 8));
    }
  }

  lemma PowersOfTwo()
    ensures Pow2(8) == 0x100 && Pow2(24) == 0x100_0000 && Pow2(32) == 0x1_0000_0000
  {
    assert Pow2(8) == 0x100;
    Pow2Sum(8, 8);
    Pow2Sum(16, 8);
    Pow2Sum(24, 8);
  }

  // ---------------------------------------------------------------- the encoder's buffer

  class BitWriter {
    var zbits: seq<int>
    var bsBuff: nat
    var bsLive: int
    /** The bits waiting in the buffer. */
    ghost var live: seq<bool>

    ghost predicate Valid()
      reads this
    {
      && (forall i :: 0 <= i < |zbits| ==> 0 <= zbits[i] < 256)
      && 0 <= bsLive == |live| <= 32 && bsBuff == Val(live) * Pow2(32 - |live|)
    }

    /** Everything written so far. */
    ghost function Bits(): seq<bool>
      reads this
      requires Valid()
    {
      BytesBits(zbits) + live
    }

    /** BZ2_bsInitWrite. */
    constructor ()
      ensures Valid() && Bits() == []
    {
      zbits, bsBuff, bsLive, live := [], 0, 0, [];
    }

    /** The bytes written so far have been taken away (numZ = 0); the waiting bits remain. */
    method Restart()
      requires Valid()
      modifies this`zbits
      ensures Valid() && zbits == [] && old(Bits()) == BytesBits(old(zbits)) + Bits()
    {
      zbits := [];
      NoBytes();
      assert [] + live == live;
    }

    method DrainByte()
      requires Valid() && bsLive >= 8
      modifies this
      ensures Valid() && Bits() == old(Bits()) && bsLive == old(bsLive) - 8
    {
      hide Val, BitsOf, Pow2, BytesBits;
      TopByte(live, bsBuff);
      BytesSnoc(zbits, bsBuff / 0x100_0000);
      zbits := zbits + [bsBuff / 0x100_0000];
      bsBuff := bsBuff * 256 % 0x1_0000_0000;
      bsLive := bsLive - 8;
      live := live[8..];
    }

    /** bsNEEDW. */
    method NeedW()
      requires Valid()
      modifies this
      ensures Valid() && Bits() == old(Bits()) && bsLive < 8
    {
      while bsLive >= 8
        invariant Valid() && Bits() == old(Bits())
        decreases bsLive
      {
        DrainByte();
      }
    }

    /** bsW.  The live bits and the shifted value do not overlap, so that or-ing them in is
        addition. */
    method BsW(n: nat, v: nat)
      requires Valid() && n <= 24 && v < Pow2(n)
      modifies this
      ensures Valid() && Bits() == old(Bits()) + BitsOf(v, n)
    {
      hide Val, BitsOf, Pow2, BytesBits;
      NeedW();
      Appended(live, v, n);
      bsBuff := bsBuff + v * Pow2(32 - bsLive - n);
      bsLive := bsLive + n;
      live := live + BitsOf(v, n);
    }

    /** bsFinishWrite: the last byte is padded with zeros. */
    method FinishWrite()
      requires Valid()
      modifies this
      ensures forall i :: 0 <= i < |zbits| ==> 0 <= zbits[i] < 256
      ensures |BytesBits(zbits)| < |old(Bits())| + 8
      ensures old(Bits()) <= BytesBits(zbits)
    {
      hide Val, BitsOf, Pow2, BytesBits;
      ghost var all := Bits();
      while bsLive >= 8
        invariant Valid() && Bits() == all
        decreases bsLive
      {
        DrainByte();
      }
      if bsLive > 0 {
        LastByte(live, bsBuff);
        BytesSnoc(zbits, bsBuff / 0x100_0000);
        zbits := zbits + [bsBuff / 0x100_0000];
        bsBuff := bsBuff * 256 % 0x1_0000_0000;
        bsLive := bsLive - 8;
      }
    }
  }

  lemma TopByte(live: seq<bool>, buff: nat)
    requires 8 <= |live| <= 32 && buff == Val(live) * Pow2(32 - |live|)
    ensures 0 <= buff / 0x100_0000 < 256 && BitsOf(buff / 0x100_0000, 8) == live[..8]
    ensures buff * 256 % 0x1_0000_0000 == Val(live[8..]) * Pow2(32 - |live[8..]|)
  {
    hide Val, BitsOf, Pow2;
    var k := |live| - 8;
    var a, b, p := Val(live[..8]), Val(live[8..]), Pow2(24 - k);
    ValConcat(live[..8], live[8..]);
    assert live[..8] + live[8..] == live;
    PowersOfTwo();
    Pow2Sum(k, 24 - k);
    Pow2Sum(24 - k, 8);
    ValBound(live[..8]);
    ValBound(live[8..]);
    BitsOfVal(live[..8]);
    SplitTop(a, b, Pow2(k), p);
  }

  lemma SplitTop(a: nat, b: nat, q: nat, p: nat)
    requires q * p == 0x100_0000 && b < q && a < 256 && p >= 1
    ensures ((a * q + b) * p) / 0x100_0000 == a
    ensures ((a * q + b) * p) * 256 % 0x1_0000_0000 == b * (p * 256)
  {
    Distribute3(a, q, b, p);
    MulBelow(b, q, p);
    TopAndRest(a, b * p);
    assert b * (p * 256) == (b * p) * 256;
  }

  lemma TopAndRest(a: nat, r: nat)
    requires a < 256 && r < 0x100_0000
    ensures (a * 0x100_0000 + r) / 0x100_0000 == a
    ensures (a * 0x100_0000 + r) * 256 % 0x1_0000_0000 == r * 256
  {
    assert (a * 0x100_0000 + r) * 256 == a * 0x1_0000_0000 + r * 256;
  }

  lemma Distribute3(a: nat, q: nat, b: nat, p: nat)
    ensures (a * q + b) * p == a * (q * p) + b * p
  {
  }

  lemma MulBelow(b: nat, q: nat, p: nat)
    requires b < q && p >= 1
    ensures b * p < q * p
  {
    MulDifference(q, b, p);
    MulAtLeast(q - b, p);
  }

  lemma Appended(live: seq<bool>, v: nat, n: nat)
    requires |live| < 8 && n <= 24 && v < Pow2(n)
    ensures Val(live) * Pow2(32 - |live|) + v * Pow2(32 - |live| - n)
         == Val(live + BitsOf(v, n)) * Pow2(32 - |live + BitsOf(v, n)|)
  {
    hide Val, BitsOf, Pow2;
    var p := Pow2(32 - |live| - n);
    ValConcat(live, BitsOf(v, n));
    ValOfBits(v, n);
    Pow2Sum(32 - |live| - n, n);
    Distribute3(Val(live), Pow2(n), v, p);
    assert Pow2(n) * p == Pow2(32 - |live|);
  }

  function Padding(k: nat): (s: seq<bool>)
    ensures |s| == k
  {
    seq(k, _ => false)
  }

  lemma PowStep(k: nat)
    ensures Pow2(k + 1) == 2 * Pow2(k) && Pow2(0) == 1
  {
  }

  lemma {:induction false} ValPadded(s: seq<bool>, k: nat)
    ensures Val(s + Padding(k)) == Val(s) * Pow2(k)
  {
    hide Val, Pow2;
    if k == 0 {
      assert s + Padding(0) == s;
      PowStep(0);
    } else {
      ValPadded(s, k - 1);
      assert s + Padding(k) == (s + Padding(k - 1)) + [false];
      ValSnoc(s + Padding(k - 1), false);
      PowStep(k - 1);
      Doubled(Val(s), Pow2(k - 1), 0, 0);
    }
  }

  lemma LastByte(live: seq<bool>, buff: nat)
    requires 0 < |live| < 8 && buff == Val(live) * Pow2(32 - |live|)
    ensures 0 <= buff / 0x100_0000 < 256
    ensures BitsOf(buff / 0x100_0000, 8) == live + Padding(8 - |live|)
  {
    hide Val, BitsOf, Pow2;
    var m := 8 - |live|;
    var s := live + Padding(m);
    ValPadded(live, m);
    PowersOfTwo();
    Pow2Sum(m, 24);
    var v, p := Val(live), Pow2(m);
    assert buff == v * (p * 0x100_0000);
    Distribute3(v, p, 0, 0x100_0000);
    assert buff == Val(s) * 0x100_0000;
    DivUnique(buff, 0x100_0000, Val(s), 0);
    ValBound(s);
    BitsOfVal(s);
  }

  // ---------------------------------------------------------------- the decoder's buffer

  lemma {:induction false} LowBits(v: nat, n: nat, m: nat)
    requires n <= m
    ensures BitsOf(v % Pow2(m), n) == BitsOf(v, n)
    decreases m
  {
    if n > 0 {
      var p := Pow2(m - 1);
      HalfModulus(v, p);
      LowBits(v / 2, n - 1, m - 1);
    }
  }

  lemma HalfModulus(v: nat, p: nat)
    requires p >= 1
    ensures (v % (2 * p)) / 2 == (v / 2) % p
    ensures (v % (2 * p)) % 2 == v % 2
  {
    var q, r := v / 2 / p, v / 2 % p;
    assert v / 2 == q * p + r;
    assert v == 2 * (q * p + r) + v % 2;
    DivUnique(v, 2 * p, q, 2 * r + v % 2);
  }

  lemma {:induction false} ShiftIn(v: nat, c: nat, n: nat, k: nat)
    requires c < Pow2(k)
    ensures BitsOf(v * Pow2(k) + c, n + k) == BitsOf(v, n) + BitsOf(c, k)
    decreases k
  {
    if k == 0 {
      assert BitsOf(c, 0) == [];
    } else {
      ShiftIn(v, c / 2, n, k - 1);
      assert v * Pow2(k) + c == 2 * (v * Pow2(k - 1) + c / 2) + c % 2 by { Doubled(v, Pow2(k - 1), c / 2, c % 2); }
    }
  }

  /** The decoder's buffer: the unread bits are the low bsLive bits of bsBuff. */
  class BitReader {
    var bsBuff: nat
    var bsLive: nat
    var input: seq<int>
    var next: nat

    ghost predicate Valid()
      reads this
    {
      && bsBuff < 0x1_0000_0000 && bsLive <= 32 && next <= |input|
      && forall i :: 0 <= i < |input| ==> 0 <= input[i] < 256
    }

    /** Bits taken from the input but not yet used. */
    ghost function Buffered(): seq<bool>
      reads this
    {
      BitsOf(bsBuff, bsLive)
    }

    /** All bits available without new input. */
    ghost function Ahead(): seq<bool>
      reads this
      requires Valid()
    {
      BitsOf(bsBuff, bsLive) + BytesBits(input[next..])
    }

    constructor ()
      ensures Valid() && Ahead() == [] && Buffered() == [] && next == |input|
    {
      bsBuff, bsLive, input, next := 0, 0, [], 0;
    }

    /** The caller sets next_in and avail_in: new input follows what was left unread. */
    method Supply(chunk: seq<int>)
      requires Valid() && forall i :: 0 <= i < |chunk| ==> 0 <= chunk[i] < 256
      modifies this
      ensures Valid() && Ahead() == old(Ahead()) + BytesBits(chunk) && Buffered() == old(Buffered())
    {
      hide BytesBits, BitsOf;
      BytesConcat(input[next..], chunk);
      assert (input[next..] + chunk)[0..] == input[next..] + chunk;
      input, next := input[next..] + chunk, 0;
    }

    method TakeByte()
      requires Valid() && next < |input| && bsLive <= 24
      modifies this`bsBuff, this`bsLive, this`next
      ensures Valid() && Ahead() == old(Ahead()) && bsLive == old(bsLive) + 8 && next == old(next) + 1
    {
      hide BitsOf, Pow2, BytesBits;
      var c := input[next];
      PowersOfTwo();
      ShiftIn(bsBuff, c, bsLive, 8);
      LowBits(bsBuff * 256 + c, bsLive + 8, 32);
      BytesConcat([c], input[next + 1..]);
      assert input[next..] == [c] + input[next + 1..];
      BytesSnoc([], c);
      NoBytes();
      assert [] + [c] == [c];
      bsBuff := (bsBuff * 256 + c) % 0x1_0000_0000;
      bsLive := bsLive + 8;
      next := next + 1;
    }

    /** GET_BITS: either the next nnn bits, or nothing because the input ran out first. */
    method GetBits(nnn: nat) returns (ok: bool, v: nat)
      requires Valid() && nnn <= 24
      modifies this`bsBuff, this`bsLive, this`next
      ensures Valid()
      ensures ok ==> v < Pow2(nnn) && old(Ahead()) == BitsOf(v, nnn) + Ahead()
      ensures !ok ==> Ahead() == old(Ahead()) && next == |input| && |Ahead()| < nnn
    {
      hide BitsOf, BytesBits;
      while bsLive < nnn
        invariant Valid() && Ahead() == old(Ahead())
        decreases nnn - bsLive
      {
        if next == |input| {
          NoBytes();
          assert input[next..] == [];
          return false, 0;
        }
        TakeByte();
      }
      Extract(bsBuff, bsLive, nnn);
      ok, v := true, bsBuff / Pow2(bsLive - nnn) % Pow2(nnn);
      bsLive := bsLive - nnn;
    }
  }

  lemma Extract(buff: nat, live: nat, n: nat)
    requires n <= live
    ensures var v := buff / Pow2(live - n) % Pow2(n);
            v < Pow2(n) && BitsOf(buff, live) == BitsOf(v, n) + BitsOf(buff, live - n)
  {
    hide BitsOf, Pow2;
    LeadingBits(buff, live, n);
    LowBits(buff / Pow2(live - n), n, n);
    TrailingBits(buff, live, n);
    assert BitsOf(buff, live) == BitsOf(buff, live)[..n] + BitsOf(buff, live)[n..];
  }

  lemma {:induction false} TrailingBits(v: nat, n: nat, k: nat)
    requires k <= n
    ensures BitsOf(v, n)[k..] == BitsOf(v, n - k)
    decreases n
  {
    if k < n { TrailingBits(v / 2, n - 1, k); }
  }
}
