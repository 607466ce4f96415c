/** Decoding one symbol after the other, pulling in input a byte at a time (infback.c, the LEN
    state of inflateBack); the output goes round in a window. */
module InflateBack {
  import opened LsbBits
  import opened InflateCodes
  import opened DeflateTokens
  import opened InflateEntries
  import opened InflateTables
  import opened InflateCopy
  import opened InflateStream

  // ---------------------------------------------------------------- the window

  /** The window holds the latest output, put being the place of the next byte. */
  ghost predicate Ring(w: seq<int>, put: nat, out: seq<int>) {
    && put <= |w| && put <= |out| && (|out| < |w| ==> |out| == put)
    && forall x :: 1 <= x <= |out| && x <= |w| ==> InRing(w, put, out, x)
  }

  ghost predicate InRing(w: seq<int>, put: nat, out: seq<int>, x: nat) {
    1 <= x <= |out| && x <= |w| && put <= |w| && w[RingAt(|w|, put, x)] == out[|out| - x]
  }

  lemma RingWrite(w: seq<int>, put: nat, out: seq<int>, g: seq<int>)
    requires Ring(w, put, out) && put + |g| <= |w|
    ensures Ring(w[..put] + g + w[put + |g|..], put + |g|, out + g)
  {
    var w', out', put' := w[..put] + g + w[put + |g|..], out + g, put + |g|;
    forall x | 1 <= x <= |out'| && x <= |w'| ensures InRing(w', put', out', x) {
      if x > |g| { assert InRing(w, put, out, x - |g|); }
    }
  }

  lemma RingTurns(w: seq<int>, out: seq<int>)
    requires Ring(w, |w|, out)
    ensures Ring(w, 0, out)
  {
    forall x | 1 <= x <= |out| && x <= |w| ensures InRing(w, 0, out, x) {
      assert InRing(w, |w|, out, x);
    }
  }

  /** What has gone round in the window serves as the older output. */
  lemma RingBehind(w: seq<int>, put: nat, out: seq<int>, dist: nat)
    requires Ring(w, put, out) && 1 <= dist <= |out| && dist <= |w|
    ensures Behind(w, 0, put, w, 0, out, dist)
  {
    forall x | 1 <= x <= dist && x <= put ensures InOutput(w, put, x, out) {
      assert InRing(w, put, out, x);
    }
    forall x | 1 <= x && x + put <= dist ensures InWindow(w, 0, x, out, put) {
      assert InRing(w, put, out, x + put);
    }
  }

  // ---------------------------------------------------------------- the state

  /** Why a step could not be made: the input has ended, or the output was not accepted. */
  datatype Outcome = Done | InputGone | OutputRefused

  class Inflater {
    const window: array<int>
    var put: nat
    var left: nat
    var whave: nat
    var hold: seq<bool>
    const input: seq<int>
    var next: nat
    var have: nat
    var mode: Mode
    var lencode: seq<Entry>
    var lenbits: nat
    var distcode: seq<Entry>
    var distbits: nat

    /** The code lengths the tables were made from, and all output. */
    ghost var ll: seq<nat>
    ghost var dl: seq<nat>
    ghost var out: seq<int>

    /** All bits to come. */
    ghost function Coming(): seq<bool>
      requires next <= |input|
      reads this`hold, this`next
    {
      hold + ByteBits(input[next..])
    }

    ghost function State(): Abs
      requires next <= |input|
      reads this`hold, this`next, this`out, this`mode
    {
      Abs(Coming(), out, mode)
    }

    ghost predicate Fed()
      reads this`next, this`have
    {
      next + have <= |input| && forall i :: 0 <= i < |input| ==> 0 <= input[i] < 256
    }

    ghost predicate Rung()
      reads this`put, this`left, this`whave, this`out, window
    {
      && window.Length >= 1 && put + left == window.Length && whave <= window.Length && Ring(window[..], put, out)
      && (if whave < window.Length then |out| == put else |out| >= window.Length)
    }

    /** The tables decode the codes. */
    ghost predicate Tabled()
      reads this`lencode, this`lenbits, this`distcode, this`distbits, this`ll, this`dl
    {
      && Usable(Lens, ll) && lenbits <= 15 && Decodes(lencode, lenbits, Lens, ll) && Safe(lencode, lenbits)
      && Usable(Dists, dl) && distbits <= 15 && Decodes(distcode, distbits, Dists, dl) && Safe(distcode, distbits)
    }

    /** One step from the state a. */
    ghost function NextOf(a: Abs): Abs
      reads this`ll, this`dl
    {
      if |ll| <= Alphabet(Lens) && |dl| <= Alphabet(Dists) then Next(ll, dl, window.Length, a) else a
    }

    /** The bits end within the next step. */
    ghost predicate EndsWithin(b: seq<bool>)
      reads this`ll, this`dl
    {
      |ll| <= Alphabet(Lens) && |dl| <= Alphabet(Dists) && ReadStep(ll, dl, b).step.OutOfBits?
    }

    // -------------------------------------------------------------- bits

    /** PULLBYTE; input arrives in pieces of any size. */
    method PullByte() returns (ok: bool)
      requires Fed()
      modifies this`hold, this`next, this`have
      ensures Fed() && Coming() == old(Coming())
      ensures ok ==> |hold| == old(|hold|) + 8 && old(hold) <= hold && next == old(next) + 1
      ensures !ok ==> next == |input| && hold == old(hold)
    {
      if have == 0 {
        if next == |input| { return false; }
        var piece :| 1 <= piece <= |input| - next;
        have := piece;
      }
      have := have - 1;
      ByteBitsHead(input[next..]);
      assert input[next..][1..] == input[next + 1..];
      hold := hold + LsbOf(input[next], 8);
      next := next + 1;
      ok := true;
    }

    /** NEEDBITS. */
    method NeedBits(n: nat) returns (ok: bool)
      requires Fed()
      modifies this`hold, this`next, this`have
      ensures Fed() && Coming() == old(Coming())
      ensures ok ==> |hold| >= n && |hold| <= if old(|hold|) >= n then old(|hold|) else n + 7
      ensures !ok ==> |Coming()| < n
    {
      while |hold| < n
        invariant Fed() && Coming() == old(Coming())
        invariant |hold| <= if old(|hold|) >= n then old(|hold|) else n + 7
        decreases |input| - next
      {
        ok := PullByte();
        if !ok { return; }
      }
      ok := true;
    }

    /** DROPBITS. */
    method DropBits(n: nat)
      requires Fed() && n <= |hold|
      modifies this`hold
      ensures Fed() && hold == old(hold)[n..] && n <= old(|Coming()|) && Coming() == old(Coming())[n..]
    {
      hold := hold[n..];
    }

    /** Some extra bits. */
    method ExtraBits(n: nat) returns (ok: bool, v: nat)
      requires Fed() && |hold| < 8
      modifies this`hold, this`next, this`have
      ensures ok ==> Fed() && |hold| < 8 && n <= old(|Coming()|) && v == LsbVal(old(Coming())[..n]) && Coming() == old(Coming())[n..]
      ensures !ok ==> old(|Coming()|) < n
    {
      v := 0;
      ok := true;
      if n != 0 {
        ok := NeedBits(n);
        if !ok { return; }
        v := LsbVal(hold[..n]);
        assert Coming()[..n] == hold[..n];
        DropBits(n);
      }
    }

    // -------------------------------------------------------------- symbols

    /** The bits seen so far are not enough. */
    lemma NotSeen(kind: Kind, code: seq<Entry>, root: nat, lens: seq<nat>)
      requires Fed() && Usable(kind, lens) && Decodes(code, root, kind, lens) && Lookup(code, root, hold).total > |hold|
      ensures Answer(kind, lens, Coming()).total > |hold|
    {
      hide Answer, Lookup, Refused, CodeLengths;
      assert Lookup(code, root, hold) == Answer(kind, lens, hold);
      if Answer(kind, lens, Coming()).total <= |hold| { AnswerSeen(kind, lens, hold, Coming()); }
    }

    lemma Seen(kind: Kind, code: seq<Entry>, root: nat, lens: seq<nat>)
      requires Fed() && Usable(kind, lens) && Decodes(code, root, kind, lens) && Lookup(code, root, hold).total <= |hold|
      ensures Answer(kind, lens, Coming()) == Lookup(code, root, hold)
    {
      hide Answer, Lookup, Refused, CodeLengths;
      assert Lookup(code, root, hold) == Answer(kind, lens, hold);
      AnswerStable(kind, lens, hold, Coming());
    }

    /** A symbol is looked up, with a byte pulled in whenever its code has not ended yet. */
    method GetSymbol(ghost kind: Kind, code: seq<Entry>, root: nat, ghost lens: seq<nat>) returns (ok: bool, here: Entry)
      requires Fed() && Usable(kind, lens) && Decodes(code, root, kind, lens) && Safe(code, root) && |hold| < 8
      modifies this`hold, this`next, this`have
      ensures ok ==> Fed() && |hold| < 8
      ensures var a := Answer(kind, lens, old(Coming()));
              if ok then a.total <= old(|Coming()|) && here.op == a.op && here.val == a.val && Coming() == old(Coming())[a.total..]
              else a.total > old(|Coming()|)
    {
      hide Answer, Refused, CodeLengths, Decodes, LsbVal;
      ghost var b := Coming();
      ghost var a := Answer(kind, lens, b);
      var last;
      ok, last := FirstLevel(kind, code, root, lens);
      here := last;
      if !ok { return; }
      if IsLink(last) {
        ok, here := SecondLevel(kind, code, root, lens, last);
        if !ok { return; }
        Seen(kind, code, root, lens);
        DropBits(last.bits);
      } else {
        Seen(kind, code, root, lens);
      }
      DropBits(here.bits);
    }

    method FirstLevel(ghost kind: Kind, code: seq<Entry>, root: nat, ghost lens: seq<nat>) returns (ok: bool, here: Entry)
      requires Fed() && Usable(kind, lens) && Decodes(code, root, kind, lens) && Safe(code, root) && |hold| < 8
      modifies this`hold, this`next, this`have
      ensures Fed() && Coming() == old(Coming())
      ensures |hold| < Answer(kind, lens, Coming()).total + 8
      ensures ok ==> here == At(code, LsbVal(Peek(hold, root))) && here.bits <= |hold|
      ensures !ok ==> Answer(kind, lens, Coming()).total > |Coming()|
    {
      hide Answer, Refused, CodeLengths, Decodes, LsbVal;
      ghost var total := Answer(kind, lens, Coming()).total;
      while true
        invariant Fed() && Coming() == old(Coming()) && |hold| < total + 8
        decreases |input| - next
      {
        LsbBound(Peek(hold, root));
        here := code[LsbVal(Peek(hold, root))];
        if here.bits <= |hold| { break; }
        assert Lookup(code, root, hold).total >= here.bits;
        NotSeen(kind, code, root, lens);
        ok := PullByte();
        if !ok { return; }
      }
      ok := true;
    }

    method SecondLevel(ghost kind: Kind, code: seq<Entry>, ghost root: nat, ghost lens: seq<nat>, last: Entry) returns (ok: bool, here: Entry)
      requires Fed() && Usable(kind, lens) && Decodes(code, root, kind, lens) && Safe(code, root)
      requires |hold| < Answer(kind, lens, Coming()).total + 8
      requires last == At(code, LsbVal(Peek(hold, root))) && last.bits <= |hold| && IsLink(last)
      modifies this`hold, this`next, this`have
      ensures Fed() && Coming() == old(Coming())
      ensures |hold| < Answer(kind, lens, Coming()).total + 8
      ensures ok ==> Lookup(code, root, hold) == Found(here.op, here.val, last.bits + here.bits) && last.bits + here.bits <= |hold|
      ensures !ok ==> Answer(kind, lens, Coming()).total > |Coming()|
    {
      hide Answer, Refused, CodeLengths, Decodes, LsbVal;
      ghost var total := Answer(kind, lens, Coming()).total;
      assert SafeLink(last, root, |code|);
      while true
        invariant Fed() && Coming() == old(Coming()) && |hold| < total + 8
        invariant last == At(code, LsbVal(Peek(hold, root))) && root == last.bits <= |hold|
        decreases |input| - next
      {
        LsbBound(Peek(hold, last.bits + last.op)[last.bits..]);
        here := code[last.val + LsbVal(Peek(hold, last.bits + last.op)[last.bits..])];
        assert Lookup(code, root, hold) == Found(here.op, here.val, last.bits + here.bits);
        if last.bits + here.bits <= |hold| { break; }
        NotSeen(kind, code, root, lens);
        ghost var h := hold;
        ok := PullByte();
        if !ok { return; }
        assert Peek(h, root) == Peek(hold, root);
      }
      ok := true;
    }

    // -------------------------------------------------------------- output

    /** ROOM: a full window is handed to the caller, who may refuse it unless accept says that
        every window is accepted. */
    method Room(accept: bool) returns (ok: bool)
      requires Rung()
      modifies this`put, this`left, this`whave
      ensures ok ==> Rung() && left >= 1 && out == old(out)
      ensures if old(left) == 0 then left == window.Length else ok && left == old(left)
      ensures accept ==> ok
    {
      hide Ring;
      ok := true;
      if left == 0 {
        RingTurns(window[..], out);
        put := 0;
        left := window.Length;
        whave := left;
        if !accept { ok := *; }
      }
    }

    method PutByte(c: int, accept: bool) returns (ok: bool)
      requires Rung()
      modifies this`put, this`left, this`whave, this`out, window
      ensures ok ==> Rung() && out == old(out) + [c]
      ensures !ok ==> old(left) == 0 && !accept
    {
      hide Ring;
      ok := Room(accept);
      if !ok { return; }
      ghost var w := window[..];
      RingWrite(w, put, out, [c]);
      window[put] := c;
      assert window[..] == w[..put] + [c] + w[put + 1..];
      put := put + 1;
      left := left - 1;
      out := out + [c];
    }

    /** Where to read, and how much before the end of the window is reached there or here. */
    method Source(length: nat, offset: nat) returns (from: nat, copy: nat)
      requires Rung() && left >= 1 && length >= 1 && 1 <= offset <= |out| && offset <= window.Length
      ensures 1 <= copy <= length && copy <= left
      ensures WillRead(Added(out, offset, copy), window[..], window[..], true, put, from, copy)
    {
      hide Ring, Behind, WillRead, Added;
      ghost var w := window[..];
      RingBehind(w, put, out, offset);
      copy := window.Length - offset;
      if copy < left {
        from := put + copy;
        copy := left - copy;
        if copy > length { copy := length; }
        ReadsWindow(w, 0, put, w, true, 0, out, offset, copy, 0, copy, from);
      } else {
        from := put - offset;
        copy := left;
        if copy > length { copy := length; }
        ReadsOut(w, 0, put, w, 0, out, offset, copy, 0);
      }
      ghost var g := Added(out, offset, copy);
      assert Written(w, put, g, 0) == w && g[0..] == g && g[0..copy] == g;
    }

    /** Bytes that do not reach over the end of the window. */
    method CopyPart(length: nat, offset: nat) returns (copy: nat)
      requires Rung() && left >= 1 && length >= 1 && 1 <= offset <= |out| && offset <= window.Length
      modifies this`put, this`left, this`out, window
      ensures 1 <= copy <= length && Rung() && out == Copied(old(out), offset, copy) && left == old(left) - copy
    {
      hide Ring, WillRead, Added;
      var from;
      from, copy := Source(length, offset);
      ghost var g := Added(out, offset, copy);
      AddedSplit(out, offset, copy, 0);
      RingWrite(window[..], put, out, g);
      left := left - copy;
      CopyRun(window, window, put, from, copy, g);
      put := put + copy;
      out := out + g;
    }

    /** The match is copied, part by part. */
    method CopyBack(length: nat, offset: nat, accept: bool) returns (ok: bool)
      requires Rung() && length >= 1 && 1 <= offset <= |out| && offset <= window.Length
      modifies this`put, this`left, this`whave, this`out, window
      ensures ok ==> Rung() && out == Copied(old(out), offset, length)
      ensures !ok ==> old(left) < length && !accept
    {
      hide Ring;
      var todo := length;
      ok := true;
      while true
        invariant Rung() && 1 <= todo <= length && |out| >= |old(out)|
        invariant left + (length - todo) == old(left) || length - todo >= old(left)
        invariant out == Copied(old(out), offset, length - todo)
        decreases todo
      {
        ok := Room(accept);
        if !ok { return; }
        ghost var o := out;
        var copy := CopyPart(todo, offset);
        CopiedTwice(old(out), offset, length - todo, copy);
        todo := todo - copy;
        if todo == 0 { break; }
      }
    }

    // -------------------------------------------------------------- one step

    /** The distance of a match, after its length. */
    method GetDistance() returns (ok: bool, bad: bool, offset: nat)
      requires Fed() && Tabled() && |hold| < 8
      modifies this`hold, this`next, this`have
      ensures var r := ReadDistance(dl, old(Coming()));
              && (!ok ==> r.step.OutOfBits?)
              && (ok ==> Fed() && |hold| < 8 && Coming() == old(Coming())[r.used..] && (bad <==> r.step.BadDistance?)
                         && (!bad ==> r.step.Copy? && r.step.dist == offset >= 1))
    {
      hide Answer, Refused, Decodes, Safe, LsbVal, Flag;
      ghost var b := Coming();
      DistanceAnswer(dl, b);
      var here;
      ok, here := GetSymbol(Dists, distcode, distbits, dl);
      bad, offset := false, here.val;
      if !ok { return; }
      if Flag(here.op, 64) {
        bad := true;
        return;
      }
      ghost var d := Answer(Dists, dl, b);
      var extra;
      ok, extra := ExtraBits(here.op % 16);
      offset := offset + extra;
      if ok { SkipTwice(b, d.total, here.op % 16); }
    }

    lemma SkipTwice(b: seq<bool>, m: nat, n: nat)
      requires m + n <= |b|
      ensures b[m..][..n] == b[m..m + n] && b[m..][n..] == b[m + n..]
    {
    }

    /** The extra bits of the length, and the distance. */
    method GetMatch(here: Entry) returns (ok: bool, bad: bool, length: nat, offset: nat)
      requires Fed() && Tabled() && |hold| < 8
      modifies this`hold, this`next, this`have
      ensures var m := ReadMatch(dl, here.op % 16, here.val, old(Coming()));
              && (!ok ==> m.step.OutOfBits?)
              && (ok ==> Fed() && |hold| < 8 && Coming() == old(Coming())[m.used..] && (bad <==> m.step.BadDistance?)
                         && (!bad ==> m.step == Copy(length, offset) && length >= here.val && offset >= 1))
    {
      hide LsbVal, ReadDistance, Tabled;
      ghost var b, n := Coming(), here.op % 16;
      TabledSize();
      bad, offset := false, 0;
      ok, length := ExtraBits(here.op % 16);
      if !ok { return; }
      length := here.val + length;
      ok, bad, offset := GetDistance();
      if !ok { return; }
      SkipTwice(b, n, ReadDistance(dl, b[n..]).used);
    }

    /** Can the distance be reached?  Then the match is copied. */
    method CheckAndCopy(length: nat, offset: nat, accept: bool) returns (ok: bool)
      requires Rung() && mode.LenMode? && length >= 1 && offset >= 1
      modifies this`mode, this`put, this`left, this`whave, this`out, window
      ensures ok ==> Rung() && if offset <= old(|out|) && offset <= window.Length
                               then mode.LenMode? && out == Copied(old(out), offset, length) else mode.BadMode? && out == old(out)
      ensures !ok ==> old(left) < length && !accept
    {
      hide Ring, Copied;
      if offset > window.Length - (if whave < window.Length then left else 0) {
        mode := BadMode;
        return true;
      }
      ok := CopyBack(length, offset, accept);
    }

    /** The rest of a match: the extra bits of the length, the distance, the copy. */
    method MatchStep(here: Entry, accept: bool) returns (r: Outcome)
      requires Fed() && Rung() && Tabled() && mode.LenMode? && |hold| < 8 && here.val >= 1
      modifies this`hold, this`next, this`have, this`mode, this`put, this`left, this`whave, this`out, window
      ensures var m := ReadMatch(dl, here.op % 16, here.val, old(Coming()));
              && (r.Done? ==> Fed() && Rung() && |hold| < 8 && State() == Taken(window.Length, old(State()), m))
              && (r.InputGone? <==> m.step.OutOfBits?) && (accept ==> !r.OutputRefused?)
      ensures r.InputGone? ==> out == old(out)
    {
      hide ReadMatch, Ring, Copied, Tabled;
      TabledSize();
      var ok, bad, length, offset := GetMatch(here);
      if !ok { return InputGone; }
      if bad {
        mode := BadMode;
        return Done;
      }
      ok := CheckAndCopy(length, offset, accept);
      return if ok then Done else OutputRefused;
    }

    lemma TabledSize()
      requires Tabled()
      ensures |ll| <= Alphabet(Lens) && |dl| <= Alphabet(Dists)
    {
    }

    /** A literal, a match, the end of the block, or an error. */
    method SymbolStep(here: Entry, accept: bool) returns (r: Outcome)
      requires Fed() && Rung() && Tabled() && mode.LenMode? && |hold| < 8 && LengthEntry(here.op, here.val)
      modifies this`hold, this`next, this`have, this`mode, this`put, this`left, this`whave, this`out, window
      ensures var m := AfterSymbol(dl, here.op, here.val, old(Coming()));
              && (r.Done? ==> Fed() && Rung() && |hold| < 8 && State() == Taken(window.Length, old(State()), m))
              && (r.InputGone? <==> m.step.OutOfBits?) && (accept ==> !r.OutputRefused?)
      ensures r.InputGone? ==> out == old(out)
    {
      hide ReadMatch, Ring, Copied, Flag, Tabled;
      TabledSize();
      assert Coming()[0..] == Coming();
      if here.op == 0 {
        var ok := PutByte(here.val, accept);
        return if ok then Done else OutputRefused;
      }
      if Flag(here.op, 32) {
        mode := TypeMode;
        return Done;
      }
      if Flag(here.op, 64) {
        mode := BadMode;
        return Done;
      }
      r := MatchStep(here, accept);
    }

    /** One turn in the state LEN: a step is done, or the input ends within it and nothing is put
        out, or the caller refuses output. */
    method LenStep(accept: bool) returns (r: Outcome)
      requires Fed() && Rung() && Tabled() && mode.LenMode? && |hold| < 8
      modifies this`hold, this`next, this`have, this`mode, this`put, this`left, this`whave, this`out, window
      ensures r.Done? ==> Fed() && Rung() && |hold| < 8 && State() == NextOf(old(State()))
      ensures r.InputGone? <==> EndsWithin(old(Coming()))
      ensures r.InputGone? ==> out == old(out)
      ensures accept ==> !r.OutputRefused?
    {
      hide Answer, Refused, Decodes, Safe, AfterSymbol, ReadStep, Next, Taken, Ring, Copied;
      LengthAnswer(ll, Coming());
      NextSplit(ll, dl, window.Length, State());
      var ok, here := GetSymbol(Lens, lencode, lenbits, ll);
      if !ok { return InputGone; }
      r := SymbolStep(here, accept);
    }
  }
}
