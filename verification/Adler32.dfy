/** Adler-32 of zlib (adler32.c; section 2.2 of RFC 1950): two sums modulo a prime, reduced
    only once in 5552 bytes, and the checksum of a concatenation from those of its parts. */
module Adler32 {

  const BASE := 65521
  const NMAX := 5552
  const LIMIT := 0x1_0000_0000

  // ---------------------------------------------------------------- the two sums

  ghost predicate Bytes(s: seq<int>) {
    forall i :: 0 <= i < |s| ==> 0 <= s[i] < 256
  }

  /** The sum of the bytes, started at a. */
  ghost function SumA(a: int, s: seq<int>): int {
    if |s| == 0 then a else SumA(a, s[..|s| - 1]) + s[|s| - 1]
  }

  /** The sum of all the first sums, started at b. */
  ghost function SumB(a: int, b: int, s: seq<int>): int {
    if |s| == 0 then b else SumB(a, b, s[..|s| - 1]) + SumA(a, s)
  }

  lemma SumsSnoc(a: int, b: int, s: seq<int>, x: int)
    ensures SumA(a, s + [x]) == SumA(a, s) + x
    ensures SumB(a, b, s + [x]) == SumB(a, b, s) + SumA(a, s) + x
  {
    assert (s + [x])[..|s|] == s;
  }

  // ---------------------------------------------------------------- reductions

  function Rem(x: int): (r: int)
    ensures 0 <= r < BASE
  {
    x % BASE
  }

  ghost predicate Same(x: int, y: int) { Rem(x) == Rem(y) }

  lemma SameSum(x: int, y: int, u: int, v: int)
    requires Same(x, y) && Same(u, v)
    ensures Same(x + u, y + v)
  {
    RawSum(x, y, u, v);
  }

  lemma RawSum(x: int, y: int, u: int, v: int)
    requires x % BASE == y % BASE && u % BASE == v % BASE
    ensures (x + u) % BASE == (y + v) % BASE
  {
  }

  lemma SameShift(x: int, k: int)
    ensures Same(x, x + k * BASE)
  {
  }

  /** CHOP. */
  function Chop(a: nat): (r: nat)
    ensures Same(r, a)
  {
    var tmp := a / 0x1_0000;
    ChopSame(a, tmp);
    a % 0x1_0000 + (tmp * 16 - tmp)
  }

  lemma ChopSame(a: nat, tmp: nat)
    requires tmp == a / 0x1_0000
    ensures Same(a % 0x1_0000 + (tmp * 16 - tmp), a)
  {
    assert a == tmp * 0x1_0000 + a % 0x1_0000;
    SameShift(a % 0x1_0000 + 15 * tmp, tmp);
  }

  /** MOD28 without division. */
  function Mod28(a: nat): nat {
    var c := Chop(a);
    if c >= BASE then c - BASE else c
  }

  /** MOD28 reduces exactly those numbers that one CHOP brings below 2 * BASE, and so all
      below 2^28. */
  lemma Mod28Exact(a: nat)
    ensures Mod28(a) == a % BASE <==> a % 0x1_0000 + 15 * (a / 0x1_0000) < 2 * BASE
    ensures a < 0x1000_0000 ==> Mod28(a) == a % BASE
  {
    var c := Chop(a);
    assert c == a % 0x1_0000 + 15 * (a / 0x1_0000);
  }

  const FIRST_WRONG := 4368 * 0x1_0000 + 65522

  /** FIRST_WRONG is the first number MOD28 gets wrong. */
  lemma Mod28FirstWrong(a: nat)
    requires a <= FIRST_WRONG
    ensures Mod28(a) == a % BASE <==> a != FIRST_WRONG
  {
    Mod28Exact(a);
  }

  /** MOD without division. */
  function Mod(a: nat): nat { Mod28(Chop(a)) }

  lemma ModIsRemainder(a: nat)
    requires a < LIMIT
    ensures Mod(a) == a % BASE
  {
    Mod28Exact(Chop(a));
  }

  /** MOD63 without division. */
  function Mod63(a: nat): nat {
    var tmp := a / LIMIT;
    var b := a % LIMIT + (tmp * 256 - tmp * 32 + tmp);
    var c := Chop(Chop(b));
    if c >= BASE then c - BASE else c
  }

  lemma Mod63IsRemainder(a: nat)
    requires a < 0x8000_0000_0000_0000
    ensures Mod63(a) == a % BASE
  {
    hide Chop;
    var tmp := a / LIMIT;
    var b := a % LIMIT + (tmp * 256 - tmp * 32 + tmp);
    assert a == tmp * LIMIT + a % LIMIT;
    assert LIMIT == 225 + 65551 * BASE;
    assert b == a % LIMIT + 225 * tmp;
    assert a == b + (65551 * tmp) * BASE;
    SameShift(b, 65551 * tmp);
    assert tmp < 0x8000_0000;
    ChopBound(b, 227 * 0x8000_0000);
    ChopBound(Chop(b), 111640576);
  }

  lemma ChopBound(a: nat, bound: nat)
    requires a < bound
    ensures Chop(a) <= 65535 + 15 * (bound / 0x1_0000)
  {
  }

  // ---------------------------------------------------------------- sums over pieces

  lemma {:induction false} SumsConcat(a: int, b: int, s: seq<int>, t: seq<int>)
    ensures SumA(a, s + t) == SumA(SumA(a, s), t)
    ensures SumB(a, b, s + t) == SumB(SumA(a, s), SumB(a, b, s), t)
  {
    if |t| == 0 {
      assert s + t == s;
    } else {
      var u, x := t[..|t| - 1], t[|t| - 1];
      SumsConcat(a, b, s, u);
      assert s + t == (s + u) + [x] && t == u + [x];
      SumsSnoc(a, b, s + u, x);
      SumsSnoc(SumA(a, s), SumB(a, b, s), u, x);
    }
  }

  /** Reducing in between changes nothing modulo BASE. */
  lemma {:induction false} SumsSame(a: int, b: int, a': int, b': int, s: seq<int>)
    requires Same(a, a') && Same(b, b')
    ensures Same(SumA(a, s), SumA(a', s)) && Same(SumB(a, b, s), SumB(a', b', s))
  {
    hide Same;
    if |s| > 0 {
      var t, x := s[..|s| - 1], s[|s| - 1];
      SumsSame(a, b, a', b', t);
      SameSelf(x);
      SameSum(SumA(a, t), SumA(a', t), x, x);
      SameSum(SumB(a, b, t), SumB(a', b', t), SumA(a, s), SumA(a', s));
    }
  }

  lemma SameSelf(x: int)
    ensures Same(x, x) && Same(Rem(x), x)
  {
  }

  /** How large the sums can get. */
  lemma {:induction false} SumsBound(a: int, b: int, s: seq<int>)
    requires Bytes(s) && a >= 0 && b >= 0
    ensures 0 <= SumA(a, s) <= a + 255 * |s|
    ensures 0 <= SumB(a, b, s) && 2 * SumB(a, b, s) <= 2 * b + 2 * (|s| * a) + 255 * (|s| * (|s| + 1))
  {
    if |s| > 0 {
      var t, n := s[..|s| - 1], |s|;
      SumsBound(a, b, t);
      Products(n, a);
    }
  }

  lemma Products(n: int, a: int)
    ensures n * a == (n - 1) * a + a && n * (n + 1) == (n - 1) * n + 2 * n
  {
  }

  /** Within NMAX bytes neither sum leaves 32 bits, whatever the halves it starts from. */
  lemma NoOverflow(a: int, b: int, s: seq<int>)
    requires Bytes(s) && 0 <= a < 0x1_0000 && 0 <= b < 0x1_0000 && |s| <= NMAX
    ensures 0 <= SumA(a, s) < LIMIT && 0 <= SumB(a, b, s) < LIMIT
  {
    hide SumA, SumB;
    SumsBound(a, b, s);
    ProductBound(|s|, a);
  }

  lemma ProductBound(n: int, a: int)
    requires 0 <= n <= NMAX && 0 <= a < 0x1_0000
    ensures n * a <= NMAX * 0xffff && n * (n + 1) <= NMAX * (NMAX + 1)
  {
    MulUp(n, NMAX, a);
    MulUp(a, 0xffff, NMAX);
    MulUp(n, NMAX, n + 1);
    MulUp(n + 1, NMAX + 1, NMAX);
  }

  lemma MulUp(x: int, y: int, z: int)
    requires x <= y && z >= 0
    ensures x * z <= y * z && z * x <= z * y
  {
  }

  // ---------------------------------------------------------------- adler32_z

  function Pack(a: int, b: int): int { a + 0x1_0000 * b }

  /** What the checksum of buf is, continued from the reduced sums a and b. */
  ghost function Checksum(a: int, b: int, buf: seq<int>): int {
    Pack(Rem(SumA(a, buf)), Rem(SumB(a, b, buf)))
  }

  /** Add n bytes to the sums; no sum overflows on the way. */
  method AddBytes(a: int, b: int, ghost a0: int, ghost b0: int, buf: seq<int>, ghost start: nat, i: nat, n: nat)
    returns (adler: int, sum2: int)
    requires Bytes(buf) && start <= i && i + n <= |buf| && i + n - start <= NMAX
    requires 0 <= a0 < 0x1_0000 && 0 <= b0 < 0x1_0000
    requires a == SumA(a0, buf[start..i]) && b == SumB(a0, b0, buf[start..i])
    ensures adler == SumA(a0, buf[start..i + n]) && sum2 == SumB(a0, b0, buf[start..i + n])
    ensures 0 <= adler < LIMIT && 0 <= sum2 < LIMIT
  {
    hide SumA, SumB;
    adler, sum2 := a, b;
    NoOverflow(a0, b0, buf[start..i]);
    for k := 0 to n
      invariant adler == SumA(a0, buf[start..i + k]) && sum2 == SumB(a0, b0, buf[start..i + k])
      invariant 0 <= adler < LIMIT && 0 <= sum2 < LIMIT
    {
      SumsSnoc(a0, b0, buf[start..i + k], buf[i + k]);
      assert buf[start..i + k + 1] == buf[start..i + k] + [buf[i + k]];
      NoOverflow(a0, b0, buf[start..i + k + 1]);
      adler := adler + buf[i + k];
      sum2 := sum2 + adler;
    }
  }

  /** Both sums right modulo BASE, in sixteen bits, buf up to i taken in. */
  ghost predicate Congruent(adler: int, sum2: int, a0: int, b0: int, buf: seq<int>, i: nat)
    requires i <= |buf|
  {
    && 0 <= adler < 0x1_0000 && Same(adler, SumA(a0, buf[..i]))
    && 0 <= sum2 < 0x1_0000 && Same(sum2, SumB(a0, b0, buf[..i]))
  }

  /** The same, and reduced. */
  ghost predicate Reduced(adler: int, sum2: int, a0: int, b0: int, buf: seq<int>, i: nat)
    requires i <= |buf|
  {
    adler == Rem(SumA(a0, buf[..i])) && sum2 == Rem(SumB(a0, b0, buf[..i]))
  }

  lemma ReducedCongruent(adler: int, sum2: int, a0: int, b0: int, buf: seq<int>, i: nat)
    requires i <= |buf| && Reduced(adler, sum2, a0, b0, buf, i)
    ensures Congruent(adler, sum2, a0, b0, buf, i)
  {
    hide SumA, SumB;
    SameSelf(SumA(a0, buf[..i]));
    SameSelf(SumB(a0, b0, buf[..i]));
  }

  /** n bytes, sixteen at a time, then those left over, then one reduction. */
  method Block(a: int, b: int, ghost a0: int, ghost b0: int, buf: seq<int>, i: nat, n: nat) returns (adler: int, sum2: int)
    requires Bytes(buf) && i + n <= |buf| && n <= NMAX && Congruent(a, b, a0, b0, buf, i)
    ensures Reduced(adler, sum2, a0, b0, buf, i + n)
  {
    hide SumA, SumB, Mod, Same, Rem, Bytes, Reduced;
    adler, sum2 := a, b;
    var done := 0;
    SumsNone(a, b, buf, i);
    while n - done >= 16
      invariant 0 <= done <= n
      invariant adler == SumA(a, buf[i..i + done]) && sum2 == SumB(a, b, buf[i..i + done])
    {
      adler, sum2 := AddBytes(adler, sum2, a, b, buf, i, i + done, 16);
      done := done + 16;
    }
    adler, sum2 := AddBytes(adler, sum2, a, b, buf, i, i + done, n - done);
    BlockReduces(a, b, a0, b0, buf, i, n);
    adler, sum2 := Remainder(adler), Remainder(sum2);
  }

  function Remainder(x: nat): (r: nat)
    requires x < LIMIT
    ensures r == Rem(x)
  {
    ModIsRemainder(x);
    Mod(x)
  }

  lemma SumsNone(a: int, b: int, buf: seq<int>, i: nat)
    requires i <= |buf|
    ensures SumA(a, buf[i..i]) == a && SumB(a, b, buf[i..i]) == b
  {
  }

  lemma BlockReduces(a: int, b: int, a0: int, b0: int, buf: seq<int>, i: nat, n: nat)
    requires i + n <= |buf| && Congruent(a, b, a0, b0, buf, i)
    ensures Reduced(Rem(SumA(a, buf[i..i + n])), Rem(SumB(a, b, buf[i..i + n])), a0, b0, buf, i + n)
  {
    hide SumA, SumB;
    assert buf[..i + n] == buf[..i] + buf[i..i + n];
    SumsConcat(a0, b0, buf[..i], buf[i..i + n]);
    SumsSame(a, b, SumA(a0, buf[..i]), SumB(a0, b0, buf[..i]), buf[i..i + n]);
  }

  /** A byte at a time, BASE is subtracted from the second sum at most once: too little
      if that sum did not start out reduced and is too large. */
  ghost predicate Overshoots(a: int, b: int, buf: seq<int>) {
    |buf| == 1 && b + Rem(a + buf[0]) >= 2 * BASE
  }

  /** For example, a zero byte after the halves 65520 and 65535. */
  lemma OvershootAt()
    ensures Overshoots(65520, 65535, [0]) && Checksum(65520, 65535, [0]) == Pack(65520, 13)
  {
    SumsOne(65520, 65535, [0]);
  }

  /** adler32_z for any starting checksum. The result is the checksum, both halves reduced,
      if and only if the one byte of a buffer of length one does not overshoot; a starting
      checksum with a reduced second half never does. */
  method Adler32(adler0: nat, buf: seq<int>) returns (r: nat)
    requires Bytes(buf)
    ensures var a0, b0 := adler0 % 0x1_0000, adler0 / 0x1_0000 % 0x1_0000;
            && r == Checksum(a0, b0, buf) + (if Overshoots(a0, b0, buf) then Pack(0, BASE) else 0)
            && (Overshoots(a0, b0, buf) ==> b0 >= BASE)
    ensures r < LIMIT
  {
    hide SumA, SumB, Checksum, Overshoots;
    var sum2, adler := adler0 / 0x1_0000 % 0x1_0000, adler0 % 0x1_0000;
    if |buf| == 1 {
      r := OneByte(adler, sum2, buf);
    } else if |buf| < 16 {
      r := FewBytes(adler, sum2, buf);
    } else {
      r := ManyBytes(adler, sum2, buf);
    }
    ChecksumFits(adler, sum2, buf);
  }

  lemma ChecksumFits(a: int, b: int, buf: seq<int>)
    ensures 0 <= Checksum(a, b, buf) <= Pack(BASE - 1, BASE - 1)
    ensures |buf| != 1 ==> !Overshoots(a, b, buf)
  {
    hide SumA, SumB;
  }

  method OneByte(a: int, b: int, buf: seq<int>) returns (r: nat)
    requires Bytes(buf) && |buf| == 1 && 0 <= a < 0x1_0000 && 0 <= b < 0x1_0000
    ensures r == Checksum(a, b, buf) + (if Overshoots(a, b, buf) then Pack(0, BASE) else 0) && r < LIMIT
    ensures Overshoots(a, b, buf) ==> b >= BASE
  {
    hide SumA, SumB, Rem, Same;
    var adler, sum2 := a + buf[0], b;
    SumsOne(a, b, buf);
    SameSelf(adler);
    SmallReduced(adler, adler);
    if adler >= BASE { adler := adler - BASE; }
    sum2 := sum2 + adler;
    SecondSame(b, a + buf[0]);
    SmallReduced(sum2, b + (a + buf[0]));
    if sum2 >= BASE { sum2 := sum2 - BASE; }
    r := Pack(adler, sum2);
  }

  lemma SecondSame(b: int, x: int)
    ensures Same(b + Rem(x), b + x)
  {
    SameSelf(b);
    SameSelf(x);
    SameSum(b, b, Rem(x), x);
  }

  method FewBytes(a: int, b: int, buf: seq<int>) returns (r: nat)
    requires Bytes(buf) && |buf| < 16 && 0 <= a < 0x1_0000 && 0 <= b < 0x1_0000
    ensures r == Checksum(a, b, buf)
  {
    hide SumA, SumB, Mod28;
    SumsNone(a, b, buf, 0);
    var adler, sum2 := AddBytes(a, b, a, b, buf, 0, 0, |buf|);
    assert buf[0..|buf|] == buf;
    FewSums(a, b, buf);
    if adler >= BASE { adler := adler - BASE; }
    Mod28Exact(sum2);
    r := Pack(adler, Mod28(sum2));
  }

  lemma FewSums(a: int, b: int, s: seq<int>)
    requires Bytes(s) && 0 <= a < 0x1_0000 && 0 <= b < 0x1_0000 && |s| < 16
    ensures 0 <= SumA(a, s) < 2 * BASE && 0 <= SumB(a, b, s) < 0x1000_0000
  {
    hide SumA, SumB;
    SumsBound(a, b, s);
    MulUp(|s|, 15, a);
    MulUp(|s|, 15, |s| + 1);
  }

  method ManyBytes(a: int, b: int, buf: seq<int>) returns (r: nat)
    requires Bytes(buf) && |buf| >= 16 && 0 <= a < 0x1_0000 && 0 <= b < 0x1_0000
    ensures r == Checksum(a, b, buf)
  {
    hide SumA, SumB, Rem, Same, Bytes, Congruent, Reduced;
    var adler, sum2, i := a, b, 0;
    NothingRead(a, b, buf);
    while |buf| - i >= NMAX
      invariant i <= |buf| && Congruent(adler, sum2, a, b, buf, i)
      invariant i > 0 ==> Reduced(adler, sum2, a, b, buf, i)
    {
      adler, sum2 := Block(adler, sum2, a, b, buf, i, NMAX);
      i := i + NMAX;
      ReducedCongruent(adler, sum2, a, b, buf, i);
    }
    if i < |buf| {
      adler, sum2 := Block(adler, sum2, a, b, buf, i, |buf| - i);
    }
    WholeRead(adler, sum2, a, b, buf);
    ChecksumFits(a, b, buf);
    r := Pack(adler, sum2);
  }

  lemma NothingRead(a: int, b: int, buf: seq<int>)
    requires 0 <= a < 0x1_0000 && 0 <= b < 0x1_0000
    ensures Congruent(a, b, a, b, buf, 0)
  {
  }

  lemma WholeRead(adler: int, sum2: int, a: int, b: int, buf: seq<int>)
    requires Reduced(adler, sum2, a, b, buf, |buf|)
    ensures Pack(adler, sum2) == Checksum(a, b, buf)
  {
    hide SumA, SumB;
    assert buf[..|buf|] == buf;
  }

  lemma SumsOne(a: int, b: int, buf: seq<int>)
    requires |buf| == 1
    ensures SumA(a, buf) == a + buf[0] && SumB(a, b, buf) == b + (a + buf[0])
  {
    assert buf[..0] == [];
  }

  // ---------------------------------------------------------------- combination

  lemma {:induction false} SumsFromStart(a: int, b: int, c: int, s: seq<int>)
    ensures SumA(a, s) == SumA(c, s) + (a - c)
    ensures SumB(a, b, s) == SumB(c, 0, s) + b + |s| * (a - c)
  {
    if |s| > 0 {
      SumsFromStart(a, b, c, s[..|s| - 1]);
      Products(|s|, a - c);
    }
  }

  /** The second sum of a concatenation. */
  function CombinedB(a1: int, b1: int, b2: int, len2: int): int { b1 + b2 + len2 * (a1 - 1) }

  /** Subtracting BASE often enough. */
  lemma SmallReduced(x: int, y: int)
    requires Same(x, y) && 0 <= x < 4 * BASE
    ensures Rem(y) == if x < BASE then x else if x < 2 * BASE then x - BASE
                      else if x < 3 * BASE then x - 2 * BASE else x - 3 * BASE
  {
  }

  /** The arithmetic of adler32_combine_. */
  method CombineSums(a1: int, b1: int, a2: int, b2: int, len2: nat) returns (sum1: int, sum2: int)
    requires 0 <= a1 < BASE && 0 <= b1 < BASE && 0 <= a2 < BASE && 0 <= b2 < BASE && len2 < 0x8000_0000_0000_0000
    ensures sum1 == Rem(a1 + a2 - 1) && sum2 == Rem(CombinedB(a1, b1, b2, len2))
  {
    hide Mod63, Mod, CombinedB, Same, Rem;
    var rem := Remainder63(len2);
    sum1 := a1;
    sum2 := RemainderProduct(rem, sum1);
    sum1 := sum1 + (a2 + BASE - 1);
    sum2 := sum2 + (b1 + b2 + BASE - rem);
    CombinedSame(a1, b1, a2, b2, len2, rem, sum1, sum2);
    SmallReduced(sum1, a1 + a2 - 1);
    SmallReduced(sum2, CombinedB(a1, b1, b2, len2));
    if sum1 >= BASE { sum1 := sum1 - BASE; }
    if sum1 >= BASE { sum1 := sum1 - BASE; }
    if sum2 >= 2 * BASE { sum2 := sum2 - 2 * BASE; }
    if sum2 >= BASE { sum2 := sum2 - BASE; }
  }

  method Remainder63(n: nat) returns (r: nat)
    requires n < 0x8000_0000_0000_0000
    ensures r == Rem(n)
  {
    Mod63IsRemainder(n);
    r := Mod63(n);
  }

  method RemainderProduct(x: int, y: int) returns (r: nat)
    requires 0 <= x < BASE && 0 <= y < BASE
    ensures r == Rem(x * y)
  {
    ProductFits(x, y);
    r := Remainder(x * y);
  }

  lemma ProductFits(x: int, y: int)
    requires 0 <= x < BASE && 0 <= y < BASE
    ensures 0 <= x * y < LIMIT
  {
    MulUp(x, BASE - 1, y);
    MulUp(y, BASE - 1, BASE - 1);
    MulUp(0, x, y);
  }

  lemma CombinedSame(a1: int, b1: int, a2: int, b2: int, len2: int, rem: int, sum1: int, sum2: int)
    requires rem == Rem(len2) && len2 >= 0
    requires sum1 == a1 + (a2 + BASE - 1) && sum2 == Rem(rem * a1) + (b1 + b2 + BASE - rem)
    ensures Same(sum1, a1 + a2 - 1) && Same(sum2, CombinedB(a1, b1, b2, len2))
  {
    var q := len2 / BASE;
    var y := rem * a1;
    assert len2 == q * BASE + rem;
    Expanded(q, rem, a1);
    SameShift(sum2, y / BASE - 1 + q * (a1 - 1));
    assert y == y / BASE * BASE + Rem(y);
    Regroup(y / BASE - 1, q * (a1 - 1));
    SameShift(a1 + a2 - 1, 1);
  }

  lemma Expanded(q: int, rem: int, a: int)
    ensures (q * BASE + rem) * (a - 1) == (q * (a - 1)) * BASE + rem * a - rem
  {
    assert (q * BASE + rem) * (a - 1) == q * BASE * (a - 1) + rem * (a - 1);
    assert rem * (a - 1) == rem * a - rem;
    assert q * BASE * (a - 1) == (q * (a - 1)) * BASE;
  }

  lemma Regroup(u: int, v: int)
    ensures (u + v) * BASE == u * BASE + v * BASE
  {
  }

  /** adler32_combine_. */
  method Combine(adler1: int, adler2: int, len2: int) returns (r: int)
    requires 0 <= adler1 < LIMIT && adler1 % 0x1_0000 < BASE && adler1 / 0x1_0000 < BASE
    requires 0 <= adler2 < LIMIT && adler2 % 0x1_0000 < BASE && adler2 / 0x1_0000 < BASE
    requires len2 < 0x8000_0000_0000_0000
    ensures len2 < 0 ==> r == 0xffff_ffff
    ensures len2 >= 0 ==>
              r == Pack(Rem(adler1 % 0x1_0000 + adler2 % 0x1_0000 - 1),
                        Rem(CombinedB(adler1 % 0x1_0000, adler1 / 0x1_0000, adler2 / 0x1_0000, len2)))
  {
    hide Rem, CombinedB;
    if len2 < 0 { return 0xffff_ffff; }
    var sum1, sum2 := CombineSums(adler1 % 0x1_0000, adler1 / 0x1_0000, adler2 % 0x1_0000, adler2 / 0x1_0000, len2);
    r := Pack(sum1, sum2);
  }

  /** Combining the checksums of two strings gives that of their concatenation. */
  method CombineStrings(x: seq<int>, y: seq<int>, adler1: int, adler2: int) returns (r: int)
    requires Bytes(x) && Bytes(y) && |y| < 0x8000_0000_0000_0000
    requires adler1 == Checksum(1, 0, x) && adler2 == Checksum(1, 0, y)
    ensures r == Checksum(1, 0, x + y)
  {
    hide SumA, SumB, Rem, CombinedB, Pack;
    Halves(Rem(SumA(1, x)), Rem(SumB(1, 0, x)));
    Halves(Rem(SumA(1, y)), Rem(SumB(1, 0, y)));
    r := Combine(adler1, adler2, |y|);
    ConcatSums(x, y);
  }

  lemma Halves(a: int, b: int)
    requires 0 <= a < BASE && 0 <= b < BASE
    ensures 0 <= Pack(a, b) < LIMIT && Pack(a, b) % 0x1_0000 == a && Pack(a, b) / 0x1_0000 == b
  {
  }

  lemma ConcatSums(x: seq<int>, y: seq<int>)
    ensures var a1, b1, a2, b2 := Rem(SumA(1, x)), Rem(SumB(1, 0, x)), Rem(SumA(1, y)), Rem(SumB(1, 0, y));
            && Rem(SumA(1, x + y)) == Rem(a1 + a2 - 1)
            && Rem(SumB(1, 0, x + y)) == Rem(CombinedB(a1, b1, b2, |y|))
  {
    hide SumA, SumB, Rem;
    var a1, b1, a2, b2 := Rem(SumA(1, x)), Rem(SumB(1, 0, x)), Rem(SumA(1, y)), Rem(SumB(1, 0, y));
    var c := |y| * (a1 - 1);
    SumsConcat(1, 0, x, y);
    SameSelf(SumA(1, x));
    SameSelf(SumB(1, 0, x));
    SumsSame(SumA(1, x), SumB(1, 0, x), a1, b1, y);
    SumsFromStart(a1, b1, 1, y);
    Shifted(SumA(1, y), a1 - 1);
    Shifted(SumB(1, 0, y), b1 + c);
    assert a2 + (a1 - 1) == a1 + a2 - 1 && b2 + (b1 + c) == CombinedB(a1, b1, b2, |y|);
  }

  lemma Shifted(x: int, c: int)
    ensures Rem(Rem(x) + c) == Rem(x + c)
  {
  }
}
