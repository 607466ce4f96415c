/** CRC-32 of zlib (crc32.c): the byte-at-a-time register, the tables that take four bytes at
    once, and combining two checksums by powers of a matrix over GF(2) (section 8 of
    RFC 1952).  A 32-bit word is its bits, least significant first. */
module Crc32 {
  import Bits

  type Word = w: seq<bool> | |w| == 32 witness Bits.Falses(32)

  type Byte = b: seq<bool> | |b| == 8 witness Bits.Falses(8)

  const ZERO: Word := Bits.Falses(32)

  /** 0xedb88320: bit 31 - e for every term x^e of the polynomial but x^32. */
  const POLY: Word := [
    false, false, false, false, false, true, false, false,
    true, true, false, false, false, false, false, true,
    false, false, false, true, true, true, false, true,
    true, false, true, true, false, true, true, true]

  // ---------------------------------------------------------------- words

  function Xor(a: Word, b: Word): (c: Word)
    ensures forall i :: 0 <= i < 32 ==> c[i] == (a[i] != b[i])
  {
    seq(32, i requires 0 <= i < 32 => a[i] != b[i])
  }

  function Not(a: Word): (c: Word)
    ensures forall i :: 0 <= i < 32 ==> c[i] == !a[i]
  {
    seq(32, i requires 0 <= i < 32 => !a[i])
  }

  /** a >> k. */
  function Down(a: Word, k: nat): (c: Word)
    requires k <= 32
  {
    a[k..] + Bits.Falses(k)
  }

  lemma XorLaws(a: Word, b: Word, c: Word)
    ensures Xor(a, b) == Xor(b, a) && Xor(Xor(a, b), c) == Xor(a, Xor(b, c))
    ensures Xor(a, ZERO) == a && Xor(ZERO, a) == a && Xor(a, a) == ZERO
  {
  }

  lemma NotLaws(a: Word, b: Word)
    ensures Xor(Not(ZERO), Not(a)) == a && Not(Xor(a, b)) == Xor(b, Not(a))
  {
  }

  lemma DownXor(a: Word, b: Word, k: nat)
    requires k <= 32
    ensures Down(Xor(a, b), k) == Xor(Down(a, k), Down(b, k))
  {
  }

  // ---------------------------------------------------------------- zero bits

  function IfSet(bit: bool, w: Word): Word { if bit then w else ZERO }

  /** One zero bit is shifted through the register. */
  function ZeroBit(c: Word): Word {
    if c[0] then Xor(POLY, Down(c, 1)) else Down(c, 1)
  }

  lemma ZeroBitLinear(a: Word, b: Word)
    ensures ZeroBit(Xor(a, b)) == Xor(ZeroBit(a), ZeroBit(b))
  {
    DownXor(a, b, 1);
    hide Down, POLY;
  }

  /** k zero bits. */
  function Zeros(c: Word, k: nat): Word {
    if k == 0 then c else ZeroBit(Zeros(c, k - 1))
  }

  lemma {:induction false} ZerosLinear(a: Word, b: Word, k: nat)
    ensures Zeros(Xor(a, b), k) == Xor(Zeros(a, k), Zeros(b, k))
  {
    hide ZeroBit, Xor;
    if k > 0 {
      ZerosLinear(a, b, k - 1);
      ZeroBitLinear(Zeros(a, k - 1), Zeros(b, k - 1));
    }
  }

  lemma {:induction false} ZerosOfZero(k: nat)
    ensures Zeros(ZERO, k) == ZERO
  {
    if k > 0 {
      ZerosOfZero(k - 1);
      assert Down(ZERO, 1) == ZERO;
    }
  }

  lemma {:induction false} ZerosAdd(c: Word, j: nat, k: nat)
    ensures Zeros(c, j + k) == Zeros(Zeros(c, j), k)
  {
    hide ZeroBit;
    if k > 0 { ZerosAdd(c, j, k - 1); }
  }

  /** As long as the low bits are clear they are only shifted out. */
  lemma {:induction false} ShiftOut(c: Word, k: nat)
    requires k <= 32 && forall i :: 0 <= i < k ==> !c[i]
    ensures Zeros(c, k) == Down(c, k)
  {
    hide POLY;
    if k == 0 {
      assert c[0..] + Bits.Falses(0) == c;
    } else {
      ShiftOut(c, k - 1);
      var d := Down(c, k - 1);
      assert d[0] == c[k - 1];
      assert Down(d, 1) == Down(c, k);
    }
  }

  // ---------------------------------------------------------------- the register

  function Pad(b: Byte): Word { b + Bits.Falses(24) }

  /** A byte enters the register. */
  function Enter(c: Word, b: Byte): Word {
    Zeros(Xor(c, Pad(b)), 8)
  }

  /** A string of bytes enters the register. */
  function Register(c: Word, s: seq<Byte>): Word {
    if |s| == 0 then c else Enter(Register(c, s[..|s| - 1]), s[|s| - 1])
  }

  /** The checksum of a string that follows one with checksum crc. */
  function Crc(crc: Word, s: seq<Byte>): Word {
    Not(Register(Not(crc), s))
  }

  lemma RegisterSnoc(c: Word, s: seq<Byte>, b: Byte)
    ensures Register(c, s + [b]) == Enter(Register(c, s), b)
  {
    hide Enter;
    assert (s + [b])[..|s|] == s;
  }

  lemma {:induction false} RegisterConcat(c: Word, s: seq<Byte>, t: seq<Byte>)
    ensures Register(c, s + t) == Register(Register(c, s), t)
  {
    hide Enter;
    if |t| == 0 {
      assert s + t == s;
    } else {
      var u, b := t[..|t| - 1], t[|t| - 1];
      RegisterConcat(c, s, u);
      assert s + t == (s + u) + [b];
      RegisterSnoc(c, s + u, b);
    }
  }

  lemma EnterDifference(x: Word, y: Word, b: Byte)
    ensures Enter(Xor(x, y), b) == Xor(Enter(x, b), Zeros(y, 8))
  {
    hide Zeros, Xor, Pad;
    var z := Pad(b);
    ZerosLinear(Xor(x, z), y, 8);
    XorLaws(x, y, z);
    XorLaws(y, z, ZERO);
    XorLaws(x, z, y);
  }

  /** A difference in the register runs through zeros, whatever enters meanwhile. */
  lemma {:induction false} RegisterDifference(c: Word, d: Word, s: seq<Byte>)
    ensures Register(Xor(c, d), s) == Xor(Register(c, s), Zeros(d, 8 * |s|))
  {
    hide Zeros, Xor, Enter;
    if |s| == 0 {
      NoZeros(d);
    } else {
      var t, b := s[..|s| - 1], s[|s| - 1];
      RegisterDifference(c, d, t);
      EnterDifference(Register(c, t), Zeros(d, 8 * |t|), b);
      ZerosAdd(d, 8 * |t|, 8);
    }
  }

  lemma NoZeros(d: Word)
    ensures Zeros(d, 0) == d
  {
  }

  /** The checksum of a concatenation. */
  lemma ConcatFormula(a: seq<Byte>, b: seq<Byte>)
    ensures Crc(ZERO, a + b) == Xor(Zeros(Crc(ZERO, a), 8 * |b|), Crc(ZERO, b))
  {
    hide Zeros, Register, Xor, Not;
    var ones := Not(ZERO);
    var x := Register(ones, a);
    RegisterConcat(ones, a, b);
    NotLaws(x, ZERO);
    RegisterDifference(ones, Not(x), b);
    NotLaws(Register(ones, b), Zeros(Not(x), 8 * |b|));
  }

  // ---------------------------------------------------------------- a check value

  /** 0x7f, and 0x12b88320. */
  const BYTE_7F: Byte := [true, true, true, true, true, true, true, false]

  const SUM_7F: Word := [
    false, false, false, false, false, true, false, false,
    true, true, false, false, false, false, false, true,
    false, false, false, true, true, true, false, true,
    false, true, false, false, true, false, false, false]

  /** The checksum of the one byte 0x7f is 0x12b88320: seven bits leave the register without
      effect, the eighth brings in the polynomial. */
  lemma CheckValue()
    ensures Crc(ZERO, [BYTE_7F]) == SUM_7F
  {
    hide POLY, Xor, Down, Pad, BYTE_7F, SUM_7F, ZeroBit, Zeros, Register, Not;
    var x := Xor(Not(ZERO), Pad(BYTE_7F));
    RegisterOne(Not(ZERO), BYTE_7F);
    EnteredBits(x);
    ShiftOut(x, 7);
    ZerosNext(x, 7);
    LastBit(x);
  }

  lemma RegisterOne(c: Word, b: Byte)
    ensures Register(c, [b]) == Enter(c, b)
  {
    hide Enter;
    assert [b][..0] == [];
    assert Register(c, []) == c;
  }

  lemma EnteredBits(x: Word)
    requires x == Xor(Not(ZERO), Pad(BYTE_7F))
    ensures forall i :: 0 <= i < 32 ==> x[i] == (i >= 7)
  {
  }

  lemma LastBit(x: Word)
    requires forall i :: 0 <= i < 32 ==> x[i] == (i >= 7)
    ensures Not(ZeroBit(Down(x, 7))) == SUM_7F
  {
    var d := Down(Down(x, 7), 1);
    forall i | 0 <= i < 32 ensures d[i] == (i < 24) {}
  }

  // ---------------------------------------------------------------- errors that show

  /** No bit gets lost: the constant term of the polynomial brings back what leaves. */
  lemma ZeroBitKeeps(c: Word)
    requires ZeroBit(c) == ZERO
    ensures c == ZERO
  {
    assert !ZeroBit(c)[31];
    assert !c[0];
    forall i | 1 <= i < 32 ensures !c[i] { assert Down(c, 1)[i - 1] == c[i]; }
  }

  lemma {:induction false} ZerosKeep(c: Word, k: nat)
    requires Zeros(c, k) == ZERO
    ensures c == ZERO
  {
    hide ZeroBit, POLY;
    if k > 0 {
      ZeroBitKeeps(Zeros(c, k - 1));
      ZerosKeep(c, k - 1);
    }
  }

  /** Up to four bytes as they would lie in a word. */
  function Laid(u: seq<Byte>): (w: Word)
    requires |u| <= 4
    ensures forall i :: 0 <= i < 32 ==> w[i] == (i / 8 < |u| && u[i / 8][i % 8])
  {
    seq(32, i requires 0 <= i < 32 => i / 8 < |u| && u[i / 8][i % 8])
  }

  lemma LaidMore(u: seq<Byte>, b: Byte)
    requires |u| < 4
    ensures Laid(u + [b]) == Xor(Laid(u), Placed(b, |u|))
  {
    forall i | 0 <= i < 32 ensures Laid(u + [b])[i] == (Laid(u)[i] != Placed(b, |u|)[i]) {
      if i / 8 == |u| { assert Placed(b, |u|)[i] == b[i % 8]; } else { assert !Placed(b, |u|)[i]; }
    }
  }

  lemma {:induction false} RegisterShort(c: Word, u: seq<Byte>)
    requires |u| <= 4
    ensures Register(c, u) == Zeros(Xor(c, Laid(u)), 8 * |u|)
  {
    hide Zeros, Xor, Laid, Enter, Placed;
    if |u| == 0 {
      NoZeros(c);
      NoneLaid();
      XorLaws(c, ZERO, ZERO);
    } else {
      var t, b := u[..|u| - 1], u[|u| - 1];
      RegisterShort(c, t);
      EnterLater(Xor(c, Laid(t)), b, |t|);
      LaidMore(t, b);
      assert u == t + [b];
      XorLaws(c, Laid(t), Placed(b, |t|));
    }
  }

  lemma NoneLaid()
    ensures Laid([]) == ZERO
  {
  }

  lemma LaidApart(u: seq<Byte>, v: seq<Byte>)
    requires |u| == |v| <= 4 && u != v
    ensures Xor(Laid(u), Laid(v)) != ZERO
  {
    var k :| 0 <= k < |u| && u[k] != v[k];
    var j :| 0 <= j < 8 && u[k][j] != v[k][j];
    assert (8 * k + j) / 8 == k && (8 * k + j) % 8 == j;
    assert Xor(Laid(u), Laid(v))[8 * k + j];
  }

  lemma XorCancels(c: Word, x: Word, y: Word)
    ensures Xor(Xor(c, x), Xor(x, y)) == Xor(c, y)
  {
  }

  /** Strings of equal length that differ within four neighbouring bytes only have different
      checksums. */
  lemma Burst(crc: Word, a: seq<Byte>, u: seq<Byte>, v: seq<Byte>, b: seq<Byte>)
    requires |u| == |v| <= 4 && u != v
    ensures Crc(crc, a + u + b) != Crc(crc, a + v + b)
  {
    hide Zeros, Xor, Register, Laid;
    var c := Not(crc);
    var x := Register(c, a);
    var d := Xor(Laid(u), Laid(v));
    RegisterConcat(c, a + u, b);
    RegisterConcat(c, a, u);
    RegisterConcat(c, a + v, b);
    RegisterConcat(c, a, v);
    RegisterShort(x, u);
    RegisterShort(x, v);
    XorCancels(x, Laid(u), Laid(v));
    ZerosLinear(Xor(x, Laid(u)), d, 8 * |u|);
    var e := Zeros(d, 8 * |u|);
    RegisterDifference(Register(x, u), e, b);
    var p, q := Register(c, a + u + b), Register(c, a + v + b);
    assert q == Xor(p, Zeros(e, 8 * |b|));
    if Not(p) == Not(q) {
      NotLaws(p, p);
      NotLaws(q, q);
      XorLaws(p, p, Zeros(e, 8 * |b|));
      XorLaws(Zeros(e, 8 * |b|), ZERO, ZERO);
      ZerosKeep(e, 8 * |b|);
      ZerosKeep(d, 8 * |u|);
      LaidApart(u, v);
      assert false;
    }
  }

  // ---------------------------------------------------------------- matrices

  function Unit(n: nat): (w: Word)
    requires n < 32
    ensures forall i :: 0 <= i < 32 ==> w[i] == (i == n)
  {
    seq(32, i => i == n)
  }

  /** v with its first i bits cleared. */
  function From(v: Word, i: nat): (w: Word)
    requires i <= 32
    ensures forall j :: 0 <= j < 32 ==> w[j] == (i <= j && v[j])
  {
    seq(32, j requires 0 <= j < 32 => i <= j && v[j])
  }

  lemma FromStep(v: Word, i: nat)
    requires i < 32
    ensures From(v, i) == Xor(IfSet(v[i], Unit(i)), From(v, i + 1))
    ensures From(v, 32) == ZERO && From(v, 0) == v
  {
  }

  /** The columns of mat selected by the bits of v from i on, added up. */
  function Selected(mat: seq<Word>, v: Word, i: nat): Word
    requires |mat| == 32 && i <= 32
    decreases 32 - i
  {
    if i == 32 then ZERO else Xor(IfSet(v[i], mat[i]), Selected(mat, v, i + 1))
  }

  /** mat is the operator of k zero bits. */
  ghost predicate Operator(mat: seq<Word>, k: nat) {
    |mat| == 32 && forall n :: 0 <= n < 32 ==> mat[n] == Zeros(Unit(n), k)
  }

  lemma {:induction false} SelectedIsZeros(mat: seq<Word>, k: nat, v: Word, i: nat)
    requires Operator(mat, k) && i <= 32
    ensures Selected(mat, v, i) == Zeros(From(v, i), k)
    decreases 32 - i
  {
    hide Zeros, Xor, From, Unit;
    FromStep(v, if i < 32 then i else 31);
    ZerosOfZero(k);
    if i < 32 {
      SelectedIsZeros(mat, k, v, i + 1);
      ZerosLinear(IfSet(v[i], Unit(i)), From(v, i + 1), k);
    }
  }

  lemma {:induction false} NoneSelected(mat: seq<Word>, v: Word, i: nat)
    requires |mat| == 32 && i <= 32 && forall j :: i <= j < 32 ==> !v[j]
    ensures Selected(mat, v, i) == ZERO
    decreases 32 - i
  {
    if i < 32 {
      NoneSelected(mat, v, i + 1);
      XorLaws(ZERO, ZERO, ZERO);
    }
  }

  /** gf2_matrix_times. */
  method MatrixTimes(mat: seq<Word>, v: Word) returns (sum: Word)
    requires |mat| == 32
    ensures sum == Selected(mat, v, 0)
  {
    hide Selected, Xor, Down, ZERO, IfSet;
    sum := ZERO;
    XorLaws(Selected(mat, v, 0), ZERO, ZERO);
    var vec, i := v, 0;
    DownFacts(v, 0);
    while vec != ZERO
      invariant i <= 32 && vec == Down(v, i)
      invariant Xor(sum, Selected(mat, v, i)) == Selected(mat, v, 0)
      decreases 32 - i
    {
      DownFacts(v, i);
      SelectStep(mat, v, i, sum);
      if vec[0] { sum := Xor(sum, mat[i]); }
      vec := Down(vec, 1);
      i := i + 1;
    }
    AllDown(v, i);
    NoneSelected(mat, v, i);
    XorLaws(sum, ZERO, ZERO);
  }

  lemma DownFacts(v: Word, i: nat)
    requires i <= 32
    ensures Down(v, 0) == v && Down(v, 32) == ZERO
    ensures i < 32 ==> Down(Down(v, i), 1) == Down(v, i + 1)
  {
    if i < 32 {
      assert Down(Down(v, i), 1) == Down(v, i + 1);
    }
  }

  lemma AllDown(v: Word, i: nat)
    requires i <= 32 && Down(v, i) == ZERO
    ensures forall j :: i <= j < 32 ==> !v[j]
  {
    forall j | i <= j < 32 ensures !v[j] { assert Down(v, i)[j - i] == v[j]; }
  }

  lemma SelectStep(mat: seq<Word>, v: Word, i: nat, sum: Word)
    requires |mat| == 32 && i < 32
    ensures Down(v, i)[0] == v[i]
    ensures Xor(sum, Selected(mat, v, i)) == Xor(if v[i] then Xor(sum, mat[i]) else sum, Selected(mat, v, i + 1))
  {
    hide Xor;
    XorLaws(sum, IfSet(v[i], mat[i]), Selected(mat, v, i + 1));
    XorLaws(Selected(mat, v, i + 1), ZERO, ZERO);
  }

  /** gf2_matrix_square. */
  method MatrixSquare(mat: seq<Word>, ghost k: nat) returns (square: seq<Word>)
    requires Operator(mat, k)
    ensures Operator(square, 2 * k)
  {
    hide Selected, Zeros, Unit;
    square := [];
    for n := 0 to 32
      invariant |square| == n && forall j :: 0 <= j < n ==> square[j] == Zeros(Unit(j), 2 * k)
    {
      var w := MatrixTimes(mat, mat[n]);
      SelectedIsZeros(mat, k, mat[n], 0);
      FromStep(mat[n], 0);
      ZerosAdd(Unit(n), k, k);
      square := square + [w];
    }
  }

  lemma UnitStep(n: nat)
    requires 1 <= n < 32
    ensures ZeroBit(Unit(n)) == Unit(n - 1)
  {
    assert Down(Unit(n), 1) == Unit(n - 1);
  }

  lemma UnitZero()
    ensures ZeroBit(Unit(0)) == POLY
  {
    assert Down(Unit(0), 1) == ZERO;
    XorLaws(POLY, ZERO, ZERO);
  }

  /** The operator for one zero bit. */
  method OneZeroBit() returns (odd: seq<Word>)
    ensures Operator(odd, 1)
  {
    hide POLY, Unit, ZeroBit;
    UnitZero();
    odd := [POLY];
    OneZero(Unit(0));
    var row := Unit(0);
    for n := 1 to 32
      invariant |odd| == n && row == Unit(n - 1)
      invariant forall j :: 0 <= j < n ==> odd[j] == Zeros(Unit(j), 1)
    {
      UnitStep(n);
      OneZero(Unit(n));
      odd := odd + [row];
      assert [false] + row[..31] == Unit(n);
      row := [false] + row[..31];
    }
  }

  lemma OneZero(c: Word)
    ensures Zeros(c, 1) == ZeroBit(c)
  {
    assert Zeros(c, 0) == c;
  }

  /** Applying an operator. */
  method ApplyZeros(mat: seq<Word>, ghost k: nat, crc: Word) returns (r: Word)
    requires Operator(mat, k)
    ensures r == Zeros(crc, k)
  {
    hide Selected, Zeros;
    r := MatrixTimes(mat, crc);
    SelectedIsZeros(mat, k, crc, 0);
    FromStep(crc, 0);
  }

  /** n units of u zero bits. */
  ghost function Span(u: nat, n: nat): nat { u * n }

  lemma SpanLaws(u: nat, n: nat)
    ensures Span(u, n) == Span(2 * u, n / 2) + (if n % 2 == 1 then u else 0)
    ensures Span(u, 0) == 0 && Span(8, n) == 8 * n
  {
    var q := n / 2;
    if n % 2 == 1 {
      assert n == 2 * q + 1;
      Times(u, q, 1);
    } else {
      assert n == 2 * q;
      Times(u, q, 0);
    }
  }

  lemma Times(k: int, q: int, r: int)
    ensures k * (2 * q + r) == (2 * k) * q + k * r
  {
  }

  /** One bit of the length: u zeros if it is set; twice as many stand for the next. */
  method LengthBit(mat: seq<Word>, ghost u: nat, crc: Word, n: nat) returns (r: Word)
    requires Operator(mat, u)
    ensures Zeros(r, Span(2 * u, n / 2)) == Zeros(crc, Span(u, n))
  {
    hide Zeros, Operator, Span;
    SpanLaws(u, n);
    r := crc;
    if n % 2 == 1 {
      r := ApplyZeros(mat, u, crc);
      ZerosAdd(crc, u, Span(2 * u, n / 2));
    }
  }

  /** With mat for half as many zero bits as u, n times u bits are still to be applied to crc, of
      all that were to be applied to crc1. */
  ghost predicate Applying(mat: seq<Word>, u: nat, crc: Word, n: nat, crc1: Word, all: nat) {
    u % 2 == 0 && Operator(mat, u / 2) && Zeros(crc, Span(u, n)) == Zeros(crc1, all)
  }

  lemma AllApplied(mat: seq<Word>, u: nat, crc: Word, crc1: Word, all: nat)
    requires Applying(mat, u, crc, 0, crc1, all)
    ensures crc == Zeros(crc1, all)
  {
    hide Operator, Zeros, Span;
    SpanLaws(u, 0);
    NoZeros(crc);
  }

  lemma NoneApplied(mat: seq<Word>, crc1: Word, n: nat)
    requires Operator(mat, 4)
    ensures Applying(mat, 8, crc1, n, crc1, 8 * n)
  {
    hide Operator, Zeros, Span;
    SpanLaws(8, n);
  }

  /** The operator is squared, and applied if the length is odd. */
  method HalfTurn(mat: seq<Word>, ghost u: nat, crc: Word, n: nat, ghost crc1: Word, ghost all: nat)
    returns (mat': seq<Word>, crc': Word)
    requires Applying(mat, u, crc, n, crc1, all)
    ensures Applying(mat', 2 * u, crc', n / 2, crc1, all)
  {
    hide Operator, Zeros, Span;
    assert 2 * (u / 2) == u && 2 * u / 2 == u;
    mat' := MatrixSquare(mat, u / 2);
    crc' := LengthBit(mat', u, crc, n);
  }

  /** crc32_combine_: the operators for 8, 16, 32, ... zero bits are applied where len2 has a
      bit, computed in even and odd by turns. */
  method Combine(crc1: Word, crc2: Word, len2: int) returns (r: Word)
    ensures r == if len2 <= 0 then crc1 else Xor(Zeros(crc1, 8 * len2), crc2)
  {
    if len2 <= 0 { return crc1; }
    hide Operator, Zeros, Xor, Applying;
    var odd := OneZeroBit();
    var even := MatrixSquare(odd, 1);
    odd := MatrixSquare(even, 2);
    ghost var u: nat := 8;
    var crc, n := crc1, len2;
    NoneApplied(odd, crc1, n);
    while true
      invariant n > 0 && Applying(odd, u, crc, n, crc1, 8 * len2)
      decreases n
    {
      even, crc := HalfTurn(odd, u, crc, n, crc1, 8 * len2);
      n := n / 2;
      u := 2 * u;
      if n == 0 {
        AllApplied(even, u, crc, crc1, 8 * len2);
        break;
      }
      odd, crc := HalfTurn(even, u, crc, n, crc1, 8 * len2);
      n := n / 2;
      u := 2 * u;
      if n == 0 {
        AllApplied(odd, u, crc, crc1, 8 * len2);
        break;
      }
    }
    r := Xor(crc, crc2);
  }

  /** Combining the checksums of two strings gives that of their concatenation. */
  method CombineStrings(a: seq<Byte>, b: seq<Byte>, crc1: Word, crc2: Word) returns (r: Word)
    requires crc1 == Crc(ZERO, a) && crc2 == Crc(ZERO, b)
    ensures r == Crc(ZERO, a + b)
  {
    hide Zeros, Xor, Register;
    r := Combine(crc1, crc2, |b|);
    if |b| == 0 {
      assert a + b == a;
    } else {
      ConcatFormula(a, b);
    }
  }

  // ---------------------------------------------------------------- tables

  /** The number eight bits spell, least significant first: an index into a table. */
  function Index(b: seq<bool>): (n: nat)
    ensures n < Bits.Pow2(|b|)
  {
    if |b| == 0 then 0 else (if b[0] then 1 else 0) + 2 * Index(b[1..])
  }

  function BitsOf(n: nat, k: nat): (b: seq<bool>)
    ensures |b| == k
  {
    if k == 0 then [] else [n % 2 == 1] + BitsOf(n / 2, k - 1)
  }

  lemma {:induction false} IndexBits(b: seq<bool>)
    ensures BitsOf(Index(b), |b|) == b
  {
    if |b| > 0 { IndexBits(b[1..]); }
  }

  /** The entry for byte b followed by k zero bytes. */
  function Entry(k: nat, b: Byte): Word {
    Zeros(Pad(b), 8 * (k + 1))
  }

  ghost predicate IsTable(t: seq<Word>, k: nat) {
    |t| == 256 && forall n :: 0 <= n < 256 ==> t[n] == Entry(k, BitsOf(n, 8))
  }

  lemma Lookup(t: seq<Word>, k: nat, b: Byte)
    requires IsTable(t, k)
    ensures Index(b) < 256 && t[Index(b)] == Entry(k, b)
  {
    assert Bits.Pow2(8) == 256;
    IndexBits(b);
  }

  function Low8(c: Word): Byte { c[..8] }

  lemma LowAndHigh(c: Word)
    ensures Xor(Pad(Low8(c)), Bits.Falses(8) + c[8..]) == c
    ensures Down(Bits.Falses(8) + c[8..], 8) == Down(c, 8)
  {
  }

  /** Eight zero bits by table. */
  lemma TableStep(c: Word)
    ensures Xor(Entry(0, Low8(c)), Down(c, 8)) == Zeros(c, 8)
  {
    hide Zeros, Xor, Pad;
    LowAndHigh(c);
    ShiftOut(Bits.Falses(8) + c[8..], 8);
    ZerosLinear(Pad(Low8(c)), Bits.Falses(8) + c[8..], 8);
  }

  lemma DropEntered(c: Word, b: Byte)
    ensures Down(Xor(c, Pad(b)), 8) == Down(c, 8)
  {
  }

  /** crc_table[0][(c ^ b) & 0xff] ^ (c >> 8). */
  method TakeByte(table: seq<seq<Word>>, c: Word, b: Byte) returns (r: Word)
    requires |table| == 4 && IsTable(table[0], 0)
    ensures r == Enter(c, b)
  {
    hide Xor, Pad, Entry, IsTable;
    var x := Xor(c, Pad(b));
    Lookup(table[0], 0, Low8(x));
    TableStep(x);
    DropEntered(c, b);
    TableSize(table[0], 0);
    r := Xor(table[0][Index(Low8(x))], Down(c, 8));
  }

  lemma TableSize(t: seq<Word>, k: nat)
    requires IsTable(t, k)
    ensures |t| == 256
  {
  }

  /** The polynomial from the list of its exponents. */
  method MakePoly() returns (poly: Word)
    ensures poly == POLY
  {
    var p := [0, 1, 2, 4, 5, 7, 8, 10, 11, 12, 16, 22, 23, 26];
    poly := ZERO;
    for n := 0 to 14
      invariant forall i :: 0 <= i < 32 ==> poly[i] == (31 - i in p[..n])
    {
      assert p[..n + 1] == p[..n] + [p[n]];
      poly := poly[31 - p[n] := true];
    }
    assert p[..14] == p;
  }

  /** make_crc_table, the tables for four bytes at once included. */
  method MakeCrcTable() returns (table: seq<seq<Word>>)
    ensures |table| == 4 && forall k :: 0 <= k < 4 ==> IsTable(table[k], k)
  {
    hide Zeros, POLY, Xor, Pad;
    var poly := MakePoly();
    var first := FirstTable(poly);
    table := [first];
    for k := 1 to 4
      invariant |table| == k && table[0] == first && forall j :: 0 <= j < k ==> IsTable(table[j], j)
    {
      var next := NextTable(first, table[k - 1], k);
      table := table + [next];
    }
  }

  method FirstTable(poly: Word) returns (t: seq<Word>)
    requires poly == POLY
    ensures IsTable(t, 0)
  {
    hide Zeros, POLY, Xor, Pad;
    t := [];
    for n := 0 to 256
      invariant |t| == n && forall j :: 0 <= j < n ==> t[j] == Entry(0, BitsOf(j, 8))
    {
      var c := Pad(BitsOf(n, 8));
      NoZeros(c);
      for k := 0 to 8
        invariant c == Zeros(Pad(BitsOf(n, 8)), k)
      {
        ZerosNext(Pad(BitsOf(n, 8)), k);
        c := if c[0] then Xor(poly, Down(c, 1)) else Down(c, 1);
      }
      t := t + [c];
    }
  }

  lemma ZerosNext(c: Word, k: nat)
    ensures Zeros(c, k + 1) == ZeroBit(Zeros(c, k))
  {
  }

  method NextEntry(first: seq<Word>, last: seq<Word>, k: nat, n: nat) returns (w: Word)
    requires IsTable(first, 0) && k >= 1 && IsTable(last, k - 1) && n < 256
    ensures w == Entry(k, BitsOf(n, 8))
  {
    hide Zeros, Xor, Pad, Down;
    var c := last[n];
    Lookup(first, 0, Low8(c));
    TableStep(c);
    ZerosAdd(Pad(BitsOf(n, 8)), 8 * k, 8);
    w := Xor(first[Index(Low8(c))], Down(c, 8));
  }

  /** Every entry runs through eight more zero bits. */
  method NextTable(first: seq<Word>, last: seq<Word>, k: nat) returns (t: seq<Word>)
    requires IsTable(first, 0) && k >= 1 && IsTable(last, k - 1)
    ensures IsTable(t, k)
  {
    hide Entry, BitsOf;
    t := [];
    for n := 0 to 256
      invariant |t| == n && forall j :: 0 <= j < n ==> t[j] == Entry(k, BitsOf(j, 8))
    {
      var w := NextEntry(first, last, k, n);
      t := t + [w];
    }
  }

  // ---------------------------------------------------------------- four bytes at once

  /** Byte b at place k of a word. */
  function Placed(b: Byte, k: nat): Word
    requires k < 4
  {
    Bits.Falses(8 * k) + b + Bits.Falses(24 - 8 * k)
  }

  lemma PlacedZeros(b: Byte, k: nat)
    requires k < 4
    ensures Zeros(Placed(b, k), 8 * k) == Pad(b)
  {
    ShiftOut(Placed(b, k), 8 * k);
    assert Down(Placed(b, k), 8 * k) == Pad(b);
  }

  /** Entering a byte after k others is entering it k places higher at the start. */
  lemma EnterLater(y: Word, b: Byte, k: nat)
    requires k < 4
    ensures Enter(Zeros(y, 8 * k), b) == Zeros(Xor(y, Placed(b, k)), 8 * k + 8)
  {
    hide Zeros, Xor, Pad, Placed;
    PlacedZeros(b, k);
    ZerosLinear(y, Placed(b, k), 8 * k);
    ZerosAdd(Xor(y, Placed(b, k)), 8 * k, 8);
  }

  /** A little-endian word of four bytes. */
  function Word4(w0: Byte, w1: Byte, w2: Byte, w3: Byte): Word { w0 + w1 + w2 + w3 }

  lemma Word4Sum(c: Word, w0: Byte, w1: Byte, w2: Byte, w3: Byte)
    ensures Xor(Xor(Xor(Xor(c, Placed(w0, 0)), Placed(w1, 1)), Placed(w2, 2)), Placed(w3, 3)) == Xor(c, Word4(w0, w1, w2, w3))
  {
    forall i | 0 <= i < 32
      ensures Xor(Xor(Xor(Xor(c, Placed(w0, 0)), Placed(w1, 1)), Placed(w2, 2)), Placed(w3, 3))[i]
           == Xor(c, Word4(w0, w1, w2, w3))[i]
    {
    }
  }

  /** Four bytes entered one by one. */
  lemma EnterFour(c: Word, w0: Byte, w1: Byte, w2: Byte, w3: Byte)
    ensures Enter(Enter(Enter(Enter(c, w0), w1), w2), w3) == Zeros(Xor(c, Word4(w0, w1, w2, w3)), 32)
  {
    hide Zeros, Xor, Placed, Enter, Word4;
    NoZeros(c);
    EnterLater(c, w0, 0);
    var y1 := Xor(c, Placed(w0, 0));
    EnterLater(y1, w1, 1);
    var y2 := Xor(y1, Placed(w1, 1));
    EnterLater(y2, w2, 2);
    EnterLater(Xor(y2, Placed(w2, 2)), w3, 3);
    Word4Sum(c, w0, w1, w2, w3);
  }

  lemma PlacedRun(b: Byte, k: nat)
    requires k < 4
    ensures Zeros(Placed(b, k), 32) == Entry(3 - k, b)
  {
    hide Zeros, Pad, Placed;
    PlacedZeros(b, k);
    ZerosAdd(Placed(b, k), 8 * k, 32 - 8 * k);
  }

  function Quarter(x: Word, k: nat): Byte
    requires k < 4
  {
    x[8 * k..8 * k + 8]
  }

  lemma Quarters(x: Word)
    ensures Word4(Quarter(x, 0), Quarter(x, 1), Quarter(x, 2), Quarter(x, 3)) == x
  {
  }

  /** The four table entries of a word add up to its run through 32 zero bits. */
  lemma FourEntries(x: Word)
    ensures Zeros(x, 32) == Xor(Xor(Xor(Entry(3, Quarter(x, 0)), Entry(2, Quarter(x, 1))), Entry(1, Quarter(x, 2))),
                                Entry(0, Quarter(x, 3)))
  {
    hide Zeros, Xor, Placed, Word4, Entry, Quarter;
    var a, b, c, d := Quarter(x, 0), Quarter(x, 1), Quarter(x, 2), Quarter(x, 3);
    Quarters(x);
    Word4Sum(ZERO, a, b, c, d);
    XorLaws(x, ZERO, ZERO);
    XorLaws(Placed(a, 0), ZERO, ZERO);
    ZerosLinear(Xor(Xor(Placed(a, 0), Placed(b, 1)), Placed(c, 2)), Placed(d, 3), 32);
    ZerosLinear(Xor(Placed(a, 0), Placed(b, 1)), Placed(c, 2), 32);
    ZerosLinear(Placed(a, 0), Placed(b, 1), 32);
    PlacedRun(a, 0);
    PlacedRun(b, 1);
    PlacedRun(c, 2);
    PlacedRun(d, 3);
  }

  ghost predicate Tables(table: seq<seq<Word>>) {
    |table| == 4 && forall k :: 0 <= k < 4 ==> IsTable(table[k], k)
  }

  method TableEntry(table: seq<seq<Word>>, k: nat, b: Byte) returns (e: Word)
    requires Tables(table) && k < 4
    ensures e == Entry(k, b)
  {
    hide Entry, IsTable;
    Lookup(table[k], k, b);
    TableSize(table[k], k);
    e := table[k][Index(b)];
  }

  /** DOLIT4. */
  method TakeFour(table: seq<seq<Word>>, c: Word, s: seq<Byte>) returns (r: Word)
    requires Tables(table) && |s| == 4
    ensures r == Register(c, s)
  {
    hide Zeros, Xor, Word4, Entry, Quarter, Tables, Enter;
    var x := Xor(c, Word4(s[0], s[1], s[2], s[3]));
    var a := TableEntry(table, 3, Quarter(x, 0));
    var b := TableEntry(table, 2, Quarter(x, 1));
    var d := TableEntry(table, 1, Quarter(x, 2));
    var e := TableEntry(table, 0, Quarter(x, 3));
    FourEntries(x);
    EnterFour(c, s[0], s[1], s[2], s[3]);
    RegisterFour(c, s);
    r := Xor(Xor(Xor(a, b), d), e);
  }

  lemma RegisterFour(c: Word, s: seq<Byte>)
    requires |s| == 4
    ensures Register(c, s) == Enter(Enter(Enter(Enter(c, s[0]), s[1]), s[2]), s[3])
  {
    hide Enter;
    assert s[..3][..2] == s[..2] && s[..2][..1] == s[..1] && s[..1][..0] == [];
    assert Register(c, s[..1]) == Enter(c, s[0]);
    assert Register(c, s[..2]) == Enter(Register(c, s[..1]), s[1]);
    assert Register(c, s[..3]) == Enter(Register(c, s[..2]), s[2]);
  }

  lemma TakeMore(c: Word, buf: seq<Byte>, i: nat, j: nat)
    requires i <= j <= |buf|
    ensures Register(c, buf[..j]) == Register(Register(c, buf[..i]), buf[i..j])
  {
    hide Register;
    RegisterConcat(c, buf[..i], buf[i..j]);
    assert buf[..j] == buf[..i] + buf[i..j];
  }

  /** One byte, by table. */
  method TakeNext(table: seq<seq<Word>>, ghost c0: Word, c: Word, buf: seq<Byte>, i: nat) returns (r: Word)
    requires Tables(table) && i < |buf| && c == Register(c0, buf[..i])
    ensures r == Register(c0, buf[..i + 1])
  {
    hide Enter, Register, IsTable;
    assert buf[..i + 1] == buf[..i] + [buf[i]];
    RegisterSnoc(c0, buf[..i], buf[i]);
    r := TakeByte(table, c, buf[i]);
  }

  /** Eight words. */
  method TakeEight(table: seq<seq<Word>>, ghost c0: Word, c: Word, buf: seq<Byte>, i: nat) returns (r: Word)
    requires Tables(table) && i + 32 <= |buf| && c == Register(c0, buf[..i])
    ensures r == Register(c0, buf[..i + 32])
  {
    hide Register, Tables;
    r := c;
    for k := 0 to 8
      invariant r == Register(c0, buf[..i + 4 * k])
    {
      TakeMore(c0, buf, i + 4 * k, i + 4 * k + 4);
      r := TakeFour(table, r, buf[i + 4 * k..i + 4 * k + 4]);
    }
  }

  /** crc32_little: bytes until the address is aligned, then words, then bytes.  Neither the
      address nor the length shows in the result. */
  method Crc32Little(table: seq<seq<Word>>, crc: Word, buf: seq<Byte>, address: nat) returns (r: Word)
    requires Tables(table)
    ensures r == Crc(crc, buf)
  {
    hide Register, Tables;
    ghost var c0 := Not(crc);
    var c := Not(crc);
    var i := 0;
    NothingEntered(c0, buf);
    while i < |buf| && (address + i) % 4 != 0
      invariant i <= |buf| && c == Register(c0, buf[..i])
    {
      c := TakeNext(table, c0, c, buf, i);
      i := i + 1;
    }
    while |buf| - i >= 32
      invariant i <= |buf| && c == Register(c0, buf[..i])
    {
      c := TakeEight(table, c0, c, buf, i);
      i := i + 32;
    }
    while |buf| - i >= 4
      invariant i <= |buf| && c == Register(c0, buf[..i])
    {
      TakeMore(c0, buf, i, i + 4);
      c := TakeFour(table, c, buf[i..i + 4]);
      i := i + 4;
    }
    while i < |buf|
      invariant i <= |buf| && c == Register(c0, buf[..i])
    {
      c := TakeNext(table, c0, c, buf, i);
      i := i + 1;
    }
    assert buf[..i] == buf;
    r := Not(c);
  }

  lemma NothingEntered(c: Word, buf: seq<Byte>)
    ensures Register(c, buf[..0]) == c
  {
  }
}
