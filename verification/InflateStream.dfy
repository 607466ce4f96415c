/** What inflate does within a block of compressed data (sections 3.2.2 and 3.2.5 of RFC 1951),
    one literal, match or end of block after the other, as a function on bits. */
module InflateStream {
  import opened Bits
  import opened LsbBits
  import opened RunLength
  import opened DeflateTokens
  import opened HuffmanCodes
  import opened InflateCodes
  import opened InflateEntries
  import opened InflateSettled
  import opened InflateTables

  /** Lengths that inflate_table accepts. */
  ghost predicate Usable(kind: Kind, lens: seq<nat>) {
    CodeLengths(lens) && |lens| <= Alphabet(kind) && !Refused(kind, lens)
  }

  datatype Step = Put(c: nat) | EndOfBlock | Copy(len: nat, dist: nat) | BadLength | BadDistance | OutOfBits

  /** A step, and the bits it takes. */
  datatype Read = Read(step: Step, used: nat)

  function Flag(op: nat, bit: nat): bool
    requires bit > 0
  {
    (op / bit) % 2 == 1
  }

  /** The next step in the bits b; OutOfBits if they end before it does. */
  ghost function ReadStep(ll: seq<nat>, dl: seq<nat>, b: seq<bool>): (r: Read)
    requires |ll| <= Alphabet(Lens) && |dl| <= Alphabet(Dists)
    ensures r.used <= |b| && (!r.step.OutOfBits? ==> r.used >= 1)
  {
    var a := Answer(Lens, ll, b);
    if a.total > |b| then Read(OutOfBits, 0)
    else
      var m := AfterSymbol(dl, a.op, a.val, b[a.total..]);
      Read(m.step, if m.step.OutOfBits? then 0 else a.total + m.used)
  }

  /** What a literal or length symbol stands for, and more bits if it is a length. */
  ghost function AfterSymbol(dl: seq<nat>, op: nat, val: nat, b: seq<bool>): (r: Read)
    requires |dl| <= Alphabet(Dists)
    ensures r.used <= |b|
  {
    if op == 0 then Read(Put(val), 0)
    else if Flag(op, 32) then Read(EndOfBlock, 0)
    else if Flag(op, 64) then Read(BadLength, 0)
    else ReadMatch(dl, op % 16, val, b)
  }

  /** The rest of a match: extra bits of the length, and the distance. */
  ghost function ReadMatch(dl: seq<nat>, extra: nat, base: nat, b: seq<bool>): (r: Read)
    requires |dl| <= Alphabet(Dists)
    ensures r.used <= |b| && (r.step.Copy? || r.step == BadDistance || r.step == OutOfBits)
  {
    if extra > |b| then Read(OutOfBits, 0)
    else
      var d := ReadDistance(dl, b[extra..]);
      match d.step
      case Copy(len, dist) => Read(Copy(base + LsbVal(b[..extra]), dist), extra + d.used)
      case _ => Read(d.step, extra + d.used)
  }

  /** A distance; the length is left open. */
  ghost function ReadDistance(dl: seq<nat>, b: seq<bool>): (r: Read)
    requires |dl| <= Alphabet(Dists)
    ensures r.used <= |b| && (r.step.Copy? || r.step == BadDistance || r.step == OutOfBits)
  {
    var d := Answer(Dists, dl, b);
    if d.total > |b| then Read(OutOfBits, 0)
    else if Flag(d.op, 64) then Read(BadDistance, d.total)
    else
      var u := d.total + d.op % 16;
      if u > |b| then Read(OutOfBits, 0) else Read(Copy(0, d.val + LsbVal(b[d.total..u])), u)
  }

  // ---------------------------------------------------------------- the state between steps

  datatype Mode = LenMode | TypeMode | BadMode

  /** The bits to come, everything written, and what is to be done next; wsize bytes of output
      can be reached. */
  datatype Abs = Abs(bits: seq<bool>, out: seq<int>, mode: Mode)

  /** One step; the distance must be within what there is. */
  ghost function Next(ll: seq<nat>, dl: seq<nat>, wsize: nat, a: Abs): (r: Abs)
    requires |ll| <= Alphabet(Lens) && |dl| <= Alphabet(Dists)
  {
    Taken(wsize, a, ReadStep(ll, dl, a.bits))
  }

  /** What a step that has been read does. */
  ghost function Taken(wsize: nat, a: Abs, s: Read): (r: Abs)
    requires s.used <= |a.bits|
  {
    var rest := a.bits[s.used..];
    match s.step
    case Put(c) => Abs(rest, a.out + [c], LenMode)
    case EndOfBlock => Abs(rest, a.out, TypeMode)
    case Copy(len, dist) =>
      if 1 <= dist <= |a.out| && dist <= wsize then Abs(rest, Copied(a.out, dist, len), LenMode) else Abs(rest, a.out, BadMode)
    case _ => Abs(rest, a.out, BadMode)
  }

  /** A step is its symbol and what comes after it. */
  lemma NextSplit(ll: seq<nat>, dl: seq<nat>, wsize: nat, a: Abs)
    requires |ll| <= Alphabet(Lens) && |dl| <= Alphabet(Dists)
    ensures var s := Answer(Lens, ll, a.bits);
            if s.total > |a.bits| then ReadStep(ll, dl, a.bits).step.OutOfBits?
            else
              var b := a.bits[s.total..];
              var m := AfterSymbol(dl, s.op, s.val, b);
              && (m.step.OutOfBits? <==> ReadStep(ll, dl, a.bits).step.OutOfBits?)
              && (!m.step.OutOfBits? ==> Next(ll, dl, wsize, a) == Taken(wsize, Abs(b, a.out, a.mode), m))
  {
    hide Answer, AfterSymbol, Copied;
    var s := Answer(Lens, ll, a.bits);
    if s.total <= |a.bits| {
      var m := AfterSymbol(dl, s.op, s.val, a.bits[s.total..]);
      assert a.bits[s.total..][m.used..] == a.bits[s.total + m.used..];
    }
  }

  /** Several steps. */
  ghost function After(ll: seq<nat>, dl: seq<nat>, wsize: nat, a: Abs, k: nat): Abs
    requires |ll| <= Alphabet(Lens) && |dl| <= Alphabet(Dists)
  {
    if k == 0 then a else Next(ll, dl, wsize, After(ll, dl, wsize, a, k - 1))
  }

  /** From here on, no distance reaches back further than there is output. */
  ghost predicate Sound(ll: seq<nat>, dl: seq<nat>, wsize: nat, a: Abs)
    requires |ll| <= Alphabet(Lens) && |dl| <= Alphabet(Dists)
    decreases |a.bits|
  {
    var s := ReadStep(ll, dl, a.bits);
    && (s.step.Copy? ==> 1 <= s.step.dist <= |a.out| && s.step.dist <= wsize)
    && (s.step.Copy? || s.step.Put? ==> Sound(ll, dl, wsize, Next(ll, dl, wsize, a)))
  }

  // ---------------------------------------------------------------- facts about the codes

  lemma UsableSymbols(kind: Kind, lens: seq<nat>)
    requires Usable(kind, lens)
    ensures (forall i :: 0 <= i < |lens| ==> lens[i] == 0) || Symbols(Used(lens), kind)
  {
    hide KraftSum, Fits, Pow2;
    if exists i :: 0 <= i < |lens| && lens[i] != 0 { UsedSymbols(kind, lens); }
  }

  /** At most one symbol's code can begin the bits. */
  lemma BeginsOnce(kind: Kind, lens: seq<nat>, i: nat, j: nat, b: seq<bool>)
    requires CodeLengths(lens) && Symbols(Used(lens), kind) && i < |lens| && j < |lens| && Begins(lens, i, b) && Begins(lens, j, b)
    ensures i == j
  {
    hide Fits, CodeBits, Apart;
    var u := Used(lens);
    if i != j {
      if lens[i] <= lens[j] {
        PeekLonger(b, CodeBits(u, i), lens[j]);
        Comparable(CodeBits(u, i), CodeBits(u, j), Peek(b, lens[j]));
        CodesApart(u, kind, i, j);
      } else {
        PeekLonger(b, CodeBits(u, j), lens[i]);
        Comparable(CodeBits(u, j), CodeBits(u, i), Peek(b, lens[i]));
        CodesApart(u, kind, j, i);
      }
    }
  }

  lemma BeginsStable(lens: seq<nat>, i: nat, h: seq<bool>, b: seq<bool>)
    requires i < |lens| && h <= b && lens[i] <= |h|
    ensures Begins(lens, i, h) <==> Begins(lens, i, b)
  {
    hide CodeBits;
    assert Peek(h, lens[i]) == Peek(b, lens[i]);
  }

  /** Once enough bits have been seen, more do not change the answer. */
  lemma AnswerStable(kind: Kind, lens: seq<nat>, h: seq<bool>, b: seq<bool>)
    requires Usable(kind, lens) && h <= b && Answer(kind, lens, h).total <= |h|
    ensures Answer(kind, lens, b) == Answer(kind, lens, h)
  {
    hide Begins, EntryOf, Refused, Symbols, CodeBits;
    if Decoded(lens, h).Some? {
      var i := Decoded(lens, h).value;
      BeginsStable(lens, i, h, b);
      UsableSymbols(kind, lens);
      NotZero(lens, i, h);
      var j := Decoded(lens, b).value;
      BeginsOnce(kind, lens, i, j, b);
    } else {
      NoneStable(kind, lens, h, b);
    }
  }

  /** An answer is known as soon as its bits have been seen. */
  lemma AnswerSeen(kind: Kind, lens: seq<nat>, h: seq<bool>, b: seq<bool>)
    requires Usable(kind, lens) && h <= b && Answer(kind, lens, b).total <= |h|
    ensures Answer(kind, lens, h) == Answer(kind, lens, b)
  {
    hide Begins, EntryOf, Refused, Symbols, CodeBits, Usable;
    if Decoded(lens, b).Some? {
      var i := Decoded(lens, b).value;
      BeginsStable(lens, i, h, b);
      UsableSymbols(kind, lens);
      NotZero(lens, i, b);
      UsableLengths(kind, lens);
      BeginsOnce(kind, lens, i, Decoded(lens, h).value, h);
    } else if Decoded(lens, h).Some? {
      var i := Decoded(lens, h).value;
      OneBitOnly(kind, lens, i, h, b);
      BeginsStable(lens, i, h, b);
    }
  }

  lemma UsableLengths(kind: Kind, lens: seq<nat>)
    requires Usable(kind, lens)
    ensures CodeLengths(lens)
  {
  }

  /** If no code is found, codes have one bit. */
  lemma OneBitOnly(kind: Kind, lens: seq<nat>, i: nat, h: seq<bool>, b: seq<bool>)
    requires Usable(kind, lens) && Decoded(lens, b).None? && i < |lens| && Begins(lens, i, h)
    ensures lens[i] == 1
  {
    hide Begins, KraftSum, Pow2, CodeBits, End;
    NotZero(lens, i, h);
    UsableSymbols(kind, lens);
    KraftIsEnd(lens);
    if KraftSum(lens) == Pow2(MAXBITS) { SomeBegins(lens, kind, b); }
  }

  lemma NotZero(lens: seq<nat>, i: nat, b: seq<bool>)
    requires i < |lens| && Begins(lens, i, b)
    ensures lens[i] != 0
  {
  }

  /** No code fits: there is none at all, or a single one of one bit. */
  lemma NoneStable(kind: Kind, lens: seq<nat>, h: seq<bool>, b: seq<bool>)
    requires Usable(kind, lens) && h <= b && |h| >= 1 && Decoded(lens, h).None?
    ensures Decoded(lens, b).None?
  {
    hide Begins, KraftSum, Pow2, CodeBits, End;
    if Decoded(lens, b).Some? {
      var i := Decoded(lens, b).value;
      NotZero(lens, i, b);
      UsableSymbols(kind, lens);
      KraftIsEnd(lens);
      if KraftSum(lens) == Pow2(MAXBITS) {
        SomeBegins(lens, kind, h);
      } else {
        BeginsStable(lens, i, h, b);
      }
    }
  }

  /** The entries there can be for literals and lengths. */
  ghost predicate LengthEntry(op: nat, val: nat) {
    && !(0 < op < 16) && (op == 0 ==> val < 256)
    && (op != 0 && !Flag(op, 32) && !Flag(op, 64) ==> Flag(op, 16) && op % 16 <= 5 && 3 <= val && val + Pow2(op % 16) <= 259)
    && (op != 0 && (Flag(op, 32) || Flag(op, 64)) ==> !Flag(op, 16) && Flag(op, 64))
  }

  lemma LengthEntries(k: nat)
    requires k < 31
    ensures LengthEntry(LEXT[k], LBASE[k])
  {
    assert Pow2(0) == 1 && Pow2(1) == 2 && Pow2(2) == 4 && Pow2(3) == 8 && Pow2(4) == 16 && Pow2(5) == 32;
  }

  lemma LengthAnswer(ll: seq<nat>, b: seq<bool>)
    requires Usable(Lens, ll)
    ensures var a := Answer(Lens, ll, b); 1 <= a.total <= 15 && LengthEntry(a.op, a.val)
  {
    hide Begins, Refused, LengthEntry;
    assert LengthEntry(64, 0) && LengthEntry(96, 0) by { OtherEntries(); }
    if Decoded(ll, b).Some? {
      var i := Decoded(ll, b).value;
      NotZero(ll, i, b);
      if i >= 257 { LengthEntries(i - 257); } else if i < 256 { LiteralEntry(i); }
    }
  }

  lemma OtherEntries()
    ensures LengthEntry(64, 0) && LengthEntry(96, 0)
  {
  }

  lemma LiteralEntry(i: nat)
    requires i < 256
    ensures LengthEntry(0, i)
  {
  }

  lemma DistanceAnswer(dl: seq<nat>, b: seq<bool>)
    requires Usable(Dists, dl)
    ensures var d := Answer(Dists, dl, b);
            && 1 <= d.total <= 15 && d.op >= 16
            && (!Flag(d.op, 64) ==> Flag(d.op, 16) && d.op % 16 <= 13 && d.val >= 1)
            && (Flag(d.op, 64) ==> !Flag(d.op, 16))
  {
    hide Begins, Refused;
    if Decoded(dl, b).Some? {
      var i := Decoded(dl, b).value;
      NotZero(dl, i, b);
      DistanceEntries(i);
    }
  }

  lemma DistanceEntries(k: nat)
    requires k < 32
    ensures 16 <= DEXT[k] && if k < 30 then DEXT[k] <= 29 && DBASE[k] >= 1 else DEXT[k] == 64
  {
  }

  // ---------------------------------------------------------------- bytes

  ghost function ByteBits(s: seq<int>): (b: seq<bool>)
    ensures |b| == 8 * |s|
  {
    if |s| == 0 then [] else LsbOf(if 0 <= s[0] then s[0] else 0, 8) + ByteBits(s[1..])
  }

  lemma ByteBitsHead(s: seq<int>)
    requires |s| > 0 && s[0] >= 0
    ensures ByteBits(s) == LsbOf(s[0], 8) + ByteBits(s[1..])
  {
  }

  lemma {:induction false} ByteBitsConcat(s: seq<int>, t: seq<int>)
    ensures ByteBits(s + t) == ByteBits(s) + ByteBits(t)
  {
    if |s| == 0 {
      assert s + t == t;
    } else {
      assert (s + t)[1..] == s[1..] + t;
      ByteBitsConcat(s[1..], t);
    }
  }
}
