/** Decoding with the checks for input and output done once for each symbol (inffast.c,
    inflate_fast), as inflateBack uses it (infback.c). */
module InflateFast {
  import opened LsbBits
  import opened DeflateTokens
  import opened InflateCodes
  import opened InflateEntries
  import opened InflateTables
  import opened InflateCopy
  import opened InflateStream
  import opened InflateBack

  /** The bits in hand and those from place at of the input on. */
  ghost function Rest(input: seq<int>, hold: seq<bool>, at: nat): seq<bool>
    requires at <= |input|
  {
    hold + ByteBits(input[at..])
  }

  ghost predicate Bytes(input: seq<int>) {
    forall i :: 0 <= i < |input| ==> 0 <= input[i] < 256
  }

  method OneByte(input: seq<int>, hold: seq<bool>, at: nat) returns (hold': seq<bool>, at': nat)
    requires Bytes(input) && at < |input|
    ensures at' == at + 1 && |hold'| == |hold| + 8 && Rest(input, hold', at') == Rest(input, hold, at)
  {
    ByteBitsHead(input[at..]);
    assert input[at..][1..] == input[at + 1..];
    hold' := hold + LsbOf(input[at], 8);
    at' := at + 1;
  }

  method TwoBytes(input: seq<int>, hold: seq<bool>, at: nat) returns (hold': seq<bool>, at': nat)
    requires Bytes(input) && at + 2 <= |input|
    ensures at' == at + 2 && |hold'| == |hold| + 16 && Rest(input, hold', at') == Rest(input, hold, at)
  {
    hold', at' := OneByte(input, hold, at);
    hold', at' := OneByte(input, hold', at');
  }

  /** With 15 bits in hand, one lookup or two give the symbol. */
  method FastSymbol(ghost kind: Kind, code: seq<Entry>, root: nat, ghost lens: seq<nat>, hold: seq<bool>, ghost b: seq<bool>)
      returns (here: Entry, hold': seq<bool>)
    requires Usable(kind, lens) && root <= 15 && Decodes(code, root, kind, lens) && Safe(code, root)
    requires |hold| >= 15 && hold <= b && kind != Codes
    ensures var a := Answer(kind, lens, b);
            a.total <= 15 && here.op == a.op && here.val == a.val && hold' == hold[a.total..]
  {
    hide Answer, Refused, CodeLengths, Decodes, LsbVal, Lookup, Flag;
    AnswerShape(kind, lens, b);
    AnswerSeen(kind, lens, hold, b);
    assert Lookup(code, root, hold) == Answer(kind, lens, hold) by { DecodesAt(code, root, kind, lens, hold); }
    LookupParts(code, root, hold);
    LsbBound(hold[..root]);
    here := code[LsbVal(hold[..root])];
    LinkOrNot(kind, here, Answer(kind, lens, b).op, IsLink(here));
    assert SafeLink(At(code, LsbVal(hold[..root])), root, |code|);
    hold' := hold[here.bits..];
    if !(here.op == 0 || Flag(here.op, 16) || Flag(here.op, 64)) {
      // entries of sub-tables are never links: once is enough
      var op := here.op;
      LsbBound(Peek(hold', op));
      here := code[here.val + LsbVal(Peek(hold', op))];
      hold' := hold'[here.bits..];
    }
  }

  lemma DecodesAt(code: seq<Entry>, root: nat, kind: Kind, lens: seq<nat>, b: seq<bool>)
    requires |lens| <= Alphabet(kind) && Decodes(code, root, kind, lens)
    ensures Lookup(code, root, b) == Answer(kind, lens, b)
  {
  }

  /** A lookup in enough bits. */
  lemma LookupParts(code: seq<Entry>, root: nat, h: seq<bool>)
    requires root <= 15 <= |h| && Safe(code, root) && Lookup(code, root, h).total <= 15
    ensures LsbVal(h[..root]) < |code| && code[LsbVal(h[..root])].bits <= |h|
    ensures var e := code[LsbVal(h[..root])];
            if !IsLink(e) then Lookup(code, root, h) == Found(e.op, e.val, e.bits)
            else e.bits == root && e.val + LsbVal(Peek(h[root..], e.op)) < |code|
                 && var f := code[e.val + LsbVal(Peek(h[root..], e.op))];
                    Lookup(code, root, h) == Found(f.op, f.val, root + f.bits) && root + f.bits <= |h|
  {
    hide LsbVal;
    LsbBound(h[..root]);
    assert Peek(h, root) == h[..root];
    var e := code[LsbVal(h[..root])];
    assert SafeLink(At(code, LsbVal(h[..root])), root, |code|);
    if IsLink(e) {
      assert Peek(h, root + e.op)[root..] == Peek(h[root..], e.op);
      LsbBound(Peek(h[root..], e.op));
    }
  }

  lemma AnswerShape(kind: Kind, lens: seq<nat>, b: seq<bool>)
    requires Usable(kind, lens) && kind != Codes
    ensures Answer(kind, lens, b).total <= 15 && EntryShape(kind, Answer(kind, lens, b).op)
  {
    hide Answer, Refused, CodeLengths, LengthEntry;
    if kind.Lens? {
      LengthAnswer(lens, b);
      LengthShape(Answer(kind, lens, b).op, Answer(kind, lens, b).val);
    } else {
      DistanceAnswer(lens, b);
    }
  }

  ghost predicate EntryShape(kind: Kind, op: nat) {
    (op == 0 || Flag(op, 16) || Flag(op, 64)) && !(0 < op < 16)
  }

  lemma LengthShape(op: nat, val: nat)
    requires LengthEntry(op, val)
    ensures EntryShape(Lens, op)
  {
  }

  /** The test the fast loop makes tells links from symbols. */
  lemma LinkOrNot(kind: Kind, e: Entry, op: nat, link: bool)
    requires EntryShape(kind, op) && link == IsLink(e) && (!link ==> e.op == op)
    ensures link <==> !(e.op == 0 || Flag(e.op, 16) || Flag(e.op, 64))
  {
  }

  /** The low n bits, which are dropped. */
  lemma RestDropped(input: seq<int>, hold: seq<bool>, at: nat, n: nat)
    requires at <= |input| && n <= |hold|
    ensures Rest(input, hold[n..], at) == Rest(input, hold, at)[n..] && Rest(input, hold, at)[..n] == hold[..n]
  {
  }

  /** A distance; at most as many bytes are taken in as its bits need. */
  method FastDistance(input: seq<int>, code: seq<Entry>, root: nat, ghost dl: seq<nat>, hold0: seq<bool>, at0: nat)
      returns (bad: bool, dist: nat, hold: seq<bool>, at: nat)
    requires Bytes(input) && at0 <= |input| && 8 * (|input| - at0) + |hold0| >= 28
    requires Usable(Dists, dl) && root <= 15 && Decodes(code, root, Dists, dl) && Safe(code, root)
    ensures at0 <= at <= |input| && (at == at0 || 8 * (at - at0) + |hold0| <= 35)
    ensures var r := ReadDistance(dl, Rest(input, hold0, at0));
            && Rest(input, hold, at) == Rest(input, hold0, at0)[r.used..] && |hold| + r.used == |hold0| + 8 * (at - at0)
            && !r.step.OutOfBits? && (bad <==> r.step.BadDistance?) && (!bad ==> r.step.Copy? && r.step.dist == dist >= 1)
  {
    hide Answer, Refused, CodeLengths, Decodes, Safe, LsbVal, Rest, Flag;
    ghost var b := Rest(input, hold0, at0);
    DistanceAnswer(dl, b);
    hold, at := hold0, at0;
    if |hold| < 15 { hold, at := TwoBytes(input, hold, at); }
    RestDropped(input, hold, at, 0);
    RestStarts(input, hold, at);
    var here;
    ghost var h := hold;
    here, hold := FastSymbol(Dists, code, root, dl, hold, b);
    ghost var total := Answer(Dists, dl, b).total;
    RestDropped(input, h, at, total);
    RestLength(input, h, at);
    bad, dist := false, 0;
    var op := here.op;
    if Flag(op, 16) {
      dist := here.val;
      op := op % 16;
      if |hold| < op {
        hold, at := OneByte(input, hold, at);
        if |hold| < op { hold, at := OneByte(input, hold, at); }
      }
      dist := dist + LsbVal(hold[..op]);
      RestDropped(input, hold, at, op);
      RestLength(input, hold, at);
      Skipped(b, total, op);
      hold := hold[op..];
    } else {
      bad := true;
    }
  }

  lemma RestStarts(input: seq<int>, hold: seq<bool>, at: nat)
    requires at <= |input|
    ensures hold <= Rest(input, hold, at)
  {
  }

  lemma RestLength(input: seq<int>, hold: seq<bool>, at: nat)
    requires at <= |input|
    ensures |Rest(input, hold, at)| == |hold| + 8 * (|input| - at)
  {
  }

  lemma Skipped(b: seq<bool>, m: nat, n: nat)
    requires m + n <= |b|
    ensures b[m..][..n] == b[m..m + n] && b[m..][n..] == b[m + n..]
  {
  }

  /** The extra bits of a length, and the distance. */
  method FastMatch(input: seq<int>, s: Inflater, here: Entry, hold0: seq<bool>, at0: nat)
      returns (bad: bool, len: nat, dist: nat, hold: seq<bool>, at: nat)
    requires Bytes(input) && at0 <= |input| && s.Tabled() && LengthEntry(here.op, here.val) && Flag(here.op, 16)
    requires 8 * (|input| - at0) + |hold0| >= 33
    ensures at0 <= at <= |input| && (at == at0 || 8 * (at - at0) + |hold0| <= 40)
    ensures |s.dl| <= Alphabet(Dists)
    ensures var r := ReadMatch(s.dl, here.op % 16, here.val, Rest(input, hold0, at0));
            && Rest(input, hold, at) == Rest(input, hold0, at0)[r.used..] && |hold| + r.used == |hold0| + 8 * (at - at0)
            && !r.step.OutOfBits? && (bad <==> r.step.BadDistance?)
            && (!bad ==> r.step == Copy(len, dist) && 3 <= len <= 258 && dist >= 1)
  {
    hide Refused, CodeLengths, Decodes, Safe, LsbVal, Rest, ReadDistance;
    ghost var b := Rest(input, hold0, at0);
    hold, at := hold0, at0;
    len := here.val;
    var op := here.op % 16;
    if op != 0 {
      if |hold| < op { hold, at := OneByte(input, hold, at); }
      len := len + LsbVal(hold[..op]);
      LsbBound(hold[..op]);
    } else {
      NoBits(b);
    }
    RestDropped(input, hold, at, op);
    RestLength(input, hold, at);
    hold := hold[op..];
    ghost var at1, h1 := at, hold;
    bad, dist, hold, at := FastDistance(input, s.distcode, s.distbits, s.dl, hold, at);
    Skipped(b, op, ReadDistance(s.dl, b[op..]).used);
  }

  lemma NoBits(b: seq<bool>)
    ensures LsbVal(b[..0]) == 0
  {
  }

  /** The next step; never more than six bytes are taken in, and they suffice. */
  method FastRead(input: seq<int>, s: Inflater, hold0: seq<bool>, at0: nat) returns (step: Step, hold: seq<bool>, at: nat)
    requires Bytes(input) && at0 + 6 <= |input| && s.Tabled()
    ensures at0 <= at <= at0 + 6 && |s.ll| <= Alphabet(Lens) && |s.dl| <= Alphabet(Dists)
    ensures var r := ReadStep(s.ll, s.dl, Rest(input, hold0, at0));
            && step == r.step && !step.OutOfBits? && Rest(input, hold, at) == Rest(input, hold0, at0)[r.used..]
            && |hold| + r.used == |hold0| + 8 * (at - at0) && (step.Copy? ==> 3 <= step.len <= 258 && step.dist >= 1)
  {
    hide Answer, Refused, CodeLengths, Decodes, Safe, LsbVal, Rest, ReadMatch, Flag;
    ghost var b := Rest(input, hold0, at0);
    s.TabledSize();
    LengthAnswer(s.ll, b);
    hold, at := hold0, at0;
    if |hold| < 15 { hold, at := TwoBytes(input, hold, at); }
    RestStarts(input, hold, at);
    RestLength(input, hold, at);
    ghost var h := hold;
    var here;
    here, hold := FastSymbol(Lens, s.lencode, s.lenbits, s.ll, hold, b);
    ghost var total := Answer(Lens, s.ll, b).total;
    RestDropped(input, h, at, total);
    ghost var m := AfterSymbol(s.dl, here.op, here.val, b[total..]);
    if here.op == 0 {
      step := Put(here.val);
    } else if Flag(here.op, 16) {
      var bad, len, dist;
      bad, len, dist, hold, at := FastMatch(input, s, here, hold, at);
      step := if bad then BadDistance else Copy(len, dist);
    } else if Flag(here.op, 32) {
      step := EndOfBlock;
    } else {
      step := BadLength;
    }
    Skipped(b, total, m.used);
  }

  /** What the step does to the output. */
  method Apply(s: Inflater, step: Step, ghost a: Abs, ghost r: Read)
    requires s.Rung() && s.mode.LenMode? && s.left >= 258 && r.step == step && r.used <= |a.bits| && a.out == s.out && !step.OutOfBits?
    requires step.Copy? ==> 3 <= step.len <= 258 && 1 <= step.dist <= |s.out| && step.dist <= s.window.Length
    modifies s`put, s`left, s`mode, s`out, s.window
    ensures s.Rung() && Taken(s.window.Length, a, r) == Abs(a.bits[r.used..], s.out, s.mode)
    ensures s.left + 258 >= old(s.left)
  {
    hide Ring, Behind, Added;
    match step {
      case Put(c) =>
        RingWrite(s.window[..], s.put, s.out, [c]);
        ghost var w := s.window[..];
        s.window[s.put] := c;
        assert s.window[..] == w[..s.put] + [c] + w[s.put + 1..];
        s.put, s.left := s.put + 1, s.left - 1;
        s.out := s.out + [c];
      case Copy(len, dist) => ApplyCopy(s, len, dist);
      case EndOfBlock => s.mode := TypeMode;
      case BadLength => s.mode := BadMode;
      case BadDistance => s.mode := BadMode;
    }
  }

  method ApplyCopy(s: Inflater, len: nat, dist: nat)
    requires s.Rung() && 3 <= len <= s.left && 1 <= dist <= |s.out| && dist <= s.window.Length
    modifies s`put, s`left, s`out, s.window
    ensures s.Rung() && s.out == Copied(old(s.out), dist, len) && s.left == old(s.left) - len
  {
    hide Ring, Behind, Added;
    ghost var w, g := s.window[..], Added(s.out, dist, len);
    RingBehind(w, s.put, s.out, dist);
    AddedSplit(s.out, dist, len, 0);
    RingWrite(w, s.put, s.out, g);
    // the window holds what is wanted: dist - put <= whave
    assert dist <= s.put || dist - s.put <= s.whave;
    CopyMatch(s.window, 0, s.put, s.window, 0, len, dist, s.out);
    s.put, s.left := s.put + len, s.left - len;
    s.out := s.out + g;
  }

  /** Whole bytes in hand can be given back. */
  lemma GiveBack(input: seq<int>, hold0: seq<bool>, at0: nat, hold: seq<bool>, at: nat, d: nat)
    requires at0 <= at <= |input| && |hold0| < 8 && |hold| + d == |hold0| + 8 * (at - at0)
    requires d <= |Rest(input, hold0, at0)| && Rest(input, hold, at) == Rest(input, hold0, at0)[d..]
    ensures var n := |hold| / 8;
            at0 <= at - n && Rest(input, hold[..|hold| - 8 * n], at - n) == Rest(input, hold, at)
  {
    hide ByteBits;
    var n := |hold| / 8;
    var at', r := at - n, |hold| - 8 * n;
    assert input[at0..] == input[at0..at'] + input[at'..];
    ByteBitsConcat(input[at0..at'], input[at'..]);
    SamePart(hold0 + ByteBits(input[at0..at']), ByteBits(input[at'..]), d, hold, ByteBits(input[at..]), r);
  }

  lemma SamePart(x: seq<bool>, tail: seq<bool>, d: nat, hold: seq<bool>, y: seq<bool>, r: nat)
    requires d <= |x| && r == |x| - d <= |hold| && hold + y == (x + tail)[d..]
    ensures hold[..r] + tail == hold + y
  {
    assert (x + tail)[d..] == x[d..] + tail;
    assert (hold + y)[..r] == hold[..r];
    assert (x[d..] + tail)[..r] == x[d..];
  }

  lemma SoundNext(ll: seq<nat>, dl: seq<nat>, wsize: nat, a: Abs)
    requires |ll| <= Alphabet(Lens) && |dl| <= Alphabet(Dists) && Sound(ll, dl, wsize, a)
    ensures var s := ReadStep(ll, dl, a.bits).step;
            && (s.Copy? ==> 1 <= s.dist <= |a.out| && s.dist <= wsize)
            && (Next(ll, dl, wsize, a).mode.LenMode? ==> Sound(ll, dl, wsize, Next(ll, dl, wsize, a)))
  {
    hide ReadStep, Copied;
  }

  /** The bits the next step takes. */
  ghost function StepBits(ll: seq<nat>, dl: seq<nat>, b: seq<bool>): nat
    requires |ll| <= Alphabet(Lens) && |dl| <= Alphabet(Dists)
  {
    ReadStep(ll, dl, b).used
  }

  lemma NextBits(ll: seq<nat>, dl: seq<nat>, wsize: nat, a: Abs)
    requires |ll| <= Alphabet(Lens) && |dl| <= Alphabet(Dists)
    ensures StepBits(ll, dl, a.bits) <= |a.bits| && Next(ll, dl, wsize, a).bits == a.bits[StepBits(ll, dl, a.bits)..]
  {
    hide ReadStep, Copied;
  }

  /** The state with these bits in hand. */
  ghost function StateAt(s: Inflater, hold: seq<bool>, at: nat): Abs
    reads s`out, s`mode
  {
    Abs(if at <= |s.input| then Rest(s.input, hold, at) else hold, s.out, s.mode)
  }

  /** No distance from here on reaches back too far. */
  ghost predicate SoundFrom(s: Inflater, a: Abs)
    reads s`ll, s`dl
  {
    |s.ll| <= Alphabet(Lens) && |s.dl| <= Alphabet(Dists) && Sound(s.ll, s.dl, s.window.Length, a)
  }

  ghost function BitsTaken(s: Inflater, a: Abs): nat
    reads s`ll, s`dl
  {
    if |s.ll| <= Alphabet(Lens) && |s.dl| <= Alphabet(Dists) then StepBits(s.ll, s.dl, a.bits) else 0
  }

  /** One turn of the loop: a step is read and done. */
  method FastTurn(s: Inflater, hold0: seq<bool>, at0: nat, ghost a: Abs) returns (hold: seq<bool>, at: nat)
    requires Bytes(s.input) && at0 + 6 <= |s.input| && s.Tabled() && s.Rung() && s.left >= 258 && s.mode.LenMode?
    requires a == StateAt(s, hold0, at0) && SoundFrom(s, a)
    modifies s`put, s`left, s`mode, s`out, s.window
    ensures s.Rung() && at0 <= at <= at0 + 6
    ensures StateAt(s, hold, at) == s.NextOf(a) && (s.mode.LenMode? ==> SoundFrom(s, s.NextOf(a)))
    ensures BitsTaken(s, a) >= 1 && BitsTaken(s, a) + |hold| == |hold0| + 8 * (at - at0)
  {
    hide Inflater.Rung, Inflater.Tabled, ReadStep, Rest, Taken, Sound, Bytes;
    SoundNext(s.ll, s.dl, s.window.Length, a);
    var step;
    step, hold, at := FastRead(s.input, s, hold0, at0);
    Apply(s, step, a, ReadStep(s.ll, s.dl, a.bits));
  }

  lemma AfterNone(ll: seq<nat>, dl: seq<nat>, wsize: nat, a: Abs)
    requires |ll| <= Alphabet(Lens) && |dl| <= Alphabet(Dists)
    ensures After(ll, dl, wsize, a, 0) == a
  {
  }

  lemma {:induction false} AfterMore(ll: seq<nat>, dl: seq<nat>, wsize: nat, a: Abs, k: nat, m: nat)
    requires |ll| <= Alphabet(Lens) && |dl| <= Alphabet(Dists)
    ensures After(ll, dl, wsize, After(ll, dl, wsize, a, k), m) == After(ll, dl, wsize, a, k + m)
  {
    hide Next;
    if m > 0 { AfterMore(ll, dl, wsize, a, k, m - 1); }
  }

  lemma AfterOne(ll: seq<nat>, dl: seq<nat>, wsize: nat, a: Abs)
    requires |ll| <= Alphabet(Lens) && |dl| <= Alphabet(Dists)
    ensures After(ll, dl, wsize, a, 1) == Next(ll, dl, wsize, a)
  {
    hide Next;
    assert After(ll, dl, wsize, a, 0) == a;
  }

  /** The whole bytes in hold are the last ones read. */
  ghost predicate Spare(input: seq<int>, hold: seq<bool>, at: nat) {
    var n := |hold| / 8;
    n <= at <= |input| && Rest(input, hold[..|hold| - 8 * n], at - n) == Rest(input, hold, at)
  }

  /** Unused bytes go back to the input. */
  method PutBack(s: Inflater, hold: seq<bool>, at: nat, last: int)
    requires s.Fed() && Spare(s.input, hold, at) && at <= last + 5 <= |s.input|
    modifies s`hold, s`next, s`have
    ensures s.Fed() && |s.hold| < 8 && s.Coming() == Rest(s.input, hold, at)
    ensures s.State() == StateAt(s, hold, at)
  {
    var len := |hold| / 8;
    var at' := at - len;
    s.next := at';
    s.have := if at' < last then 5 + (last - at') else 5 - (at' - last);
    s.hold := hold[..|hold| - 8 * len];
  }

  /** The state after k single steps from a. */
  ghost function Steps(s: Inflater, a: Abs, k: nat): Abs
    reads s`ll, s`dl
  {
    if |s.ll| <= Alphabet(Lens) && |s.dl| <= Alphabet(Dists) then After(s.ll, s.dl, s.window.Length, a, k) else a
  }

  /** The first k of these steps are steps of the state LEN: none is taken beyond the end of the
      block or an error. */
  ghost predicate InLen(s: Inflater, a: Abs, k: nat)
    reads s`ll, s`dl
  {
    forall j: nat :: j < k ==> Steps(s, a, j).mode.LenMode?
  }

  lemma InLenMore(s: Inflater, a: Abs, k: nat)
    requires InLen(s, a, k) && Steps(s, a, k).mode.LenMode?
    ensures InLen(s, a, k + 1)
  {
  }

  lemma StepsThen(s: Inflater, a: Abs, k: nat, m: nat)
    ensures Steps(s, Steps(s, a, k), m) == Steps(s, a, k + m)
  {
    hide After;
    if |s.ll| <= Alphabet(Lens) && |s.dl| <= Alphabet(Dists) { AfterMore(s.ll, s.dl, s.window.Length, a, k, m); }
  }

  lemma InLenThen(s: Inflater, a: Abs, k: nat, m: nat)
    requires InLen(s, a, k) && InLen(s, Steps(s, a, k), m)
    ensures InLen(s, a, k + m)
  {
    hide Steps;
    forall j: nat | j < k + m ensures Steps(s, a, j).mode.LenMode? {
      if j >= k { StepsThen(s, a, k, j - k); }
    }
  }

  lemma OneStepMore(ll: seq<nat>, dl: seq<nat>, wsize: nat, a0: Abs, a: Abs, k: nat)
    requires |ll| <= Alphabet(Lens) && |dl| <= Alphabet(Dists) && a == After(ll, dl, wsize, a0, k)
    ensures Next(ll, dl, wsize, a) == After(ll, dl, wsize, a0, k + 1)
  {
    hide After, Next;
    AfterOne(ll, dl, wsize, a);
    AfterMore(ll, dl, wsize, a0, k, 1);
  }

  /** k steps from a0 have been done, and d of the bits b0 taken for them. */
  ghost predicate Underway(s: Inflater, hold: seq<bool>, at: nat, a0: Abs, b0: seq<bool>, k: nat, d: nat)
    reads s`ll, s`dl, s`out, s`mode, s`hold, s`next
  {
    && at <= |s.input| && StateAt(s, hold, at) == Steps(s, a0, k)
    && k <= d <= |b0| && Rest(s.input, hold, at) == b0[d..] && |hold| + d == |s.hold| + 8 * (at - s.next)
  }

  lemma StartsUnderway(s: Inflater)
    requires s.Fed() && SoundFrom(s, s.State())
    ensures SoundFrom(s, StateAt(s, s.hold, s.next))
    ensures Underway(s, s.hold, s.next, s.State(), s.Coming(), 0, 0) && StateAt(s, s.hold, s.next) == s.State() && Bytes(s.input)
  {
    hide After, Rest, Bytes, Sound;
    AfterNone(s.ll, s.dl, s.window.Length, s.State());
    StartRest(s);
  }

  /** One step more is under way. */
  lemma RoundUnderway(s: Inflater, hold0: seq<bool>, at0: nat, a0: Abs, a: Abs, k: nat)
    requires |s.ll| <= Alphabet(Lens) && |s.dl| <= Alphabet(Dists) && a == Steps(s, a0, k)
    ensures s.NextOf(a) == Steps(s, a0, k + 1)
    ensures BitsTaken(s, a) <= |a.bits| && s.NextOf(a).bits == a.bits[BitsTaken(s, a)..]
  {
    hide After, Next, StepBits;
    OneStepMore(s.ll, s.dl, s.window.Length, a0, a, k);
    NextBits(s.ll, s.dl, s.window.Length, a);
  }

  method FastRound(s: Inflater, hold0: seq<bool>, at0: nat, ghost a0: Abs, ghost b0: seq<bool>, ghost k: nat, ghost d0: nat)
    returns (hold: seq<bool>, at: nat, ghost d: nat)
    requires Bytes(s.input) && at0 + 6 <= |s.input| && s.Tabled() && s.Rung() && s.left >= 258 && s.mode.LenMode?
    requires Underway(s, hold0, at0, a0, b0, k, d0) && SoundFrom(s, StateAt(s, hold0, at0))
    modifies s`put, s`left, s`mode, s`out, s.window
    ensures s.Rung() && at0 <= at <= at0 + 6 && s.put + s.left == s.window.Length
    ensures Underway(s, hold, at, a0, b0, k + 1, d) && d0 < d <= |b0|
    ensures s.mode.LenMode? ==> SoundFrom(s, StateAt(s, hold, at))
  {
    hide Inflater.Rung, Inflater.Tabled, Bytes, Rest, Sound, Steps, BitsTaken, Inflater.NextOf;
    ghost var a := StateAt(s, hold0, at0);
    RoundUnderway(s, hold0, at0, a0, a, k);
    hold, at := FastTurn(s, hold0, at0, a);
    d := d0 + BitsTaken(s, a);
    assert b0[d0..][BitsTaken(s, a)..] == b0[d..];
    PutLeft(s);
  }

  lemma NoneInLen(s: Inflater, a: Abs)
    ensures InLen(s, a, 0) && Steps(s, a, 0) == a
  {
  }

  lemma UnderwayInLen(s: Inflater, hold: seq<bool>, at: nat, a0: Abs, b0: seq<bool>, k: nat, d: nat)
    requires Underway(s, hold, at, a0, b0, k, d) && s.mode.LenMode? && InLen(s, a0, k)
    ensures InLen(s, a0, k + 1)
  {
    hide Steps, InLen, Rest;
    InLenMore(s, a0, k);
  }

  lemma EndsUnderway(s: Inflater, hold: seq<bool>, at: nat, a0: Abs, b0: seq<bool>, k: nat, d: nat)
    requires s.Fed() && |s.hold| < 8 && s.next <= at && b0 == Rest(s.input, s.hold, s.next) && k >= 1
    requires Underway(s, hold, at, a0, b0, k, d)
    ensures Spare(s.input, hold, at) && |StateAt(s, hold, at).bits| < |b0| && Steps(s, a0, k) == StateAt(s, hold, at)
  {
    hide Rest, Steps;
    GiveBack(s.input, s.hold, s.next, hold, at, d);
  }

  /** inflate_fast: the same as some number of single steps, as long as distances do not reach
      back too far, the last of them at most ending the block; it neither runs out of input nor
      over the end of the output. */
  method InflateFast(s: Inflater) returns (ghost k: nat)
    requires s.Fed() && s.Rung() && s.Tabled() && s.mode.LenMode? && |s.hold| < 8 && s.have >= 6 && s.left >= 258
    requires SoundFrom(s, s.State())
    modifies s`hold, s`next, s`have, s`mode, s`put, s`left, s`out, s.window
    ensures s.Fed() && s.Rung() && |s.hold| < 8
    ensures k >= 1 && s.State() == Steps(s, old(s.State()), k) && InLen(s, old(s.State()), k)
    ensures s.mode.LenMode? ==> SoundFrom(s, s.State())
    ensures |s.Coming()| < old(|s.Coming()|)
  {
    hide Inflater.Rung, Inflater.Tabled, Bytes, Underway, SoundFrom, StateAt, Steps, InLen;
    ghost var a0, b0 := s.State(), s.Coming();
    var hold, at := s.hold, s.next;
    var last, stop := s.next + (s.have - 5), s.next + s.have;
    var end := s.put + (s.left - 257);
    ghost var d: nat := 0;
    k := 0;
    StartsUnderway(s);
    NoneInLen(s, a0);
    PutLeft(s);
    while true
      invariant s.Rung() && s.mode.LenMode? && s.next <= at && at + 6 <= stop && s.left >= 258
      invariant Underway(s, hold, at, a0, b0, k, d) && InLen(s, a0, k) && SoundFrom(s, StateAt(s, hold, at))
      decreases |b0| - d
      modifies s`mode, s`put, s`left, s`out, s.window
    {
      UnderwayInLen(s, hold, at, a0, b0, k, d);
      hold, at, d := FastRound(s, hold, at, a0, b0, k, d);
      k := k + 1;
      if !s.mode.LenMode? || !(at < last && s.put < end) { break; }
    }
    EndsUnderway(s, hold, at, a0, b0, k, d);
    PutBack(s, hold, at, last);
  }

  lemma StartRest(s: Inflater)
    requires s.Fed()
    ensures s.Coming() == Rest(s.input, s.hold, s.next) && s.Coming()[0..] == s.Coming() && Bytes(s.input)
  {
  }

  lemma PutLeft(s: Inflater)
    requires s.Rung()
    ensures s.put + s.left == s.window.Length
  {
  }

  /** Ready for the next step, which like all after it does not reach back too far. */
  ghost predicate Ready(s: Inflater)
    reads s`put, s`left, s`whave, s`hold, s`next, s`have, s`mode, s`lencode, s`lenbits, s`distcode, s`distbits, s`ll, s`dl, s`out, s.window
  {
    && s.Fed() && s.Rung() && s.Tabled() && |s.hold| < 8 && |s.ll| <= Alphabet(Lens) && |s.dl| <= Alphabet(Dists)
    && (s.mode.LenMode? ==> SoundFrom(s, s.State()))
  }

  /** The state LEN: the fast loop if there is input and room for it, else a single step. */
  method LenState(s: Inflater, accept: bool) returns (r: Outcome, ghost k: nat)
    requires Ready(s) && s.mode.LenMode?
    modifies s`hold, s`next, s`have, s`mode, s`put, s`left, s`whave, s`out, s.window
    ensures r.Done? ==> Ready(s) && |s.State().bits| < old(|s.State().bits|) && s.State() == Steps(s, old(s.State()), k)
    ensures r.Done? ==> k >= 1 && InLen(s, old(s.State()), k)
    ensures r.InputGone? ==> s.EndsWithin(old(s.Coming())) && s.out == old(s.out)
    ensures accept ==> !r.OutputRefused?
  {
    hide ReadStep, Next, Sound, Ring, Inflater.Tabled, StepBits;
    if s.have >= 6 && s.left >= 258 {
      if s.whave < s.window.Length { s.whave := s.window.Length - s.left; }
      k := InflateFast(s);
      r := Done;
    } else {
      ghost var a := s.State();
      SoundNext(s.ll, s.dl, s.window.Length, a);
      NextShrinks(s.ll, s.dl, s.window.Length, a);
      AfterOne(s.ll, s.dl, s.window.Length, a);
      NoneInLen(s, a);
      r := s.LenStep(accept);
      k := 1;
    }
  }

  lemma NextShrinks(ll: seq<nat>, dl: seq<nat>, wsize: nat, a: Abs)
    requires |ll| <= Alphabet(Lens) && |dl| <= Alphabet(Dists)
    ensures !ReadStep(ll, dl, a.bits).step.OutOfBits? ==> |Next(ll, dl, wsize, a).bits| < |a.bits|
  {
    hide ReadStep, Copied;
  }

  /** A whole block of compressed data: whatever pieces the input comes in, and however fast and
      single steps take turns, the result is that of the single steps up to the first that leaves
      the state LEN.  Unless the caller refuses output, it ends there, with the block or an error
      in it, or where the input ends within a step. */
  method DecodeBlock(s: Inflater, accept: bool) returns (r: Outcome, ghost k: nat)
    requires Ready(s)
    modifies s`hold, s`next, s`have, s`mode, s`put, s`left, s`whave, s`out, s.window
    ensures r.Done? ==> !s.mode.LenMode? && Ready(s) && s.State() == Steps(s, old(s.State()), k) && InLen(s, old(s.State()), k)
    ensures r.InputGone? ==>
              InLen(s, old(s.State()), k + 1)
              && s.EndsWithin(Steps(s, old(s.State()), k).bits) && s.out == Steps(s, old(s.State()), k).out
    ensures accept ==> !r.OutputRefused?
  {
    hide ReadStep, Next, Sound, Inflater.Rung, Inflater.Tabled, Steps, InLen;
    ghost var a0 := s.State();
    k := 0;
    r := Done;
    NoneInLen(s, a0);
    while s.mode.LenMode?
      invariant Ready(s) && r.Done? && s.State() == Steps(s, a0, k) && InLen(s, a0, k)
      decreases |s.State().bits|
    {
      ghost var more;
      InLenMore(s, a0, k);
      r, more := LenState(s, accept);
      if !r.Done? { return; }
      StepsThen(s, a0, k, more);
      InLenThen(s, a0, k, more);
      k := k + more;
    }
  }
}
