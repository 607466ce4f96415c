/** The compressor seen from outside (bzlib.c, BZ2_bzCompress and handle_compress): input and
    output space come in pieces, blocks are filled, coded and handed out, and in the end what
    was handed out decodes to what was taken in. */
module Compressor {
  import opened Bits
  import opened BitStream
  import opened RunLength
  import opened BlockCrc
  import opened BlockFill
  import MainOrder
  import opened BlockEncode
  import opened StreamFormat
  import opened OutputFits

  datatype Mode = Running | Flushing | Finishing | Idle
  datatype Phase = Input | Output
  datatype Action = DoRun | DoFlush | DoFinish
  datatype Return = RunOk | FlushOk | FinishOk | StreamEnd | SequenceError | ParamError

  lemma {:induction false} BlocksSnoc(level: nat, bs: seq<Coded>, c: Coded)
    requires GoodBlocks(level, bs) && GoodBlock(level, c)
    ensures GoodBlocks(level, bs + [c])
    ensures BlocksBits(level, bs + [c]) == BlocksBits(level, bs) + BlockStream(level, c)
    ensures RawBytes(bs + [c]) == RawBytes(bs) + c.raw
    ensures CombinedSum(bs + [c]) == Combine(CombinedSum(bs), BlockSum(c.raw))
  {
    hide GoodBlock, BlockStream, Combine, BlockSum;
    assert (bs + [c])[..|bs|] == bs;
  }

  /** all is what has to be written for these blocks. */
  ghost predicate Carries(level: nat, bs: seq<Coded>, all: seq<bool>, started: bool, finished: bool) {
    && GoodBlocks(level, bs)
    && (finished ==> StreamBits(level, bs) <= all)
    && (!finished && started ==> all == StartBits(level) + BlocksBits(level, bs))
    && (!started ==> all == [] && bs == [] && !finished)
  }

  lemma NothingCarried(level: nat)
    ensures Carries(level, [], [], false, false)
  {
  }

  class BzCompressor {
    const level: nat
    const workFactor: nat
    const e: EState
    const w: BitWriter
    var blockNo: nat
    var combinedCRC: CrcWord
    var mode: Mode
    var state: Phase
    var availInExpect: nat
    var stateOutPos: nat
    var input: seq<int>

    /** Blocks coded, bytes taken in, bytes of blocks already handed out, end written. */
    ghost var blocks: seq<Coded>
    ghost var consumed: seq<int>
    ghost var earlier: seq<int>
    ghost var finished: bool

    /** The bytes handed out so far. */
    ghost function Produced(): seq<int>
      reads this`earlier, this`stateOutPos, w
      requires stateOutPos <= |w.zbits|
    {
      earlier + w.zbits[..stateOutPos]
    }

    ghost predicate Started() reads this`blockNo, this`state { blockNo > 1 || state == Output }

    /** All bits written, handed out or not. */
    ghost function AllBits(): seq<bool>
      reads this`earlier, this`finished, w
      requires ByteString(earlier) && ByteString(w.zbits)
    {
      BytesBits(earlier + w.zbits) + if finished then [] else w.live
    }

    /** The bits written are those of the blocks coded. */
    ghost predicate Written()
      reads this`blockNo, this`state, this`blocks, this`earlier, this`finished, this`combinedCRC, this`stateOutPos, w
    {
      && ByteString(earlier) && ByteString(w.zbits) && stateOutPos <= |w.zbits|
      && combinedCRC == CombinedSum(blocks) && (!finished ==> w.Valid())
      && Carries(level, blocks, AllBits(), Started(), finished)
    }

    /** Every byte taken in is in a block, in the block being filled, or in the open run. */
    ghost predicate Accounted()
      reads this`consumed, this`blocks, this`state, e
    {
      consumed == RawBytes(blocks) + if state == Input then e.Gathered() else Flatten(e.Pending())
    }

    ghost predicate Filled()
      reads this`state, e, e.block, e.inUse
    {
      && 1 <= level <= 9 && e.Valid() && e.nblockMAX == 100000 * level - 19 && e.block.Length == 100000 * level + MainOrder.OVERSHOOT
      && (state == Input ==> e.nblock <= e.nblockMAX + 9)
    }

    ghost predicate Valid()
      reads this, e, e.block, e.inUse, w
    {
      && blockNo >= 1 && Written() && Accounted() && Filled()
      && (forall i :: 0 <= i < |input| ==> 0 <= input[i] < 256)
      && (finished ==> state == Output && e.IsEmptyRL() && (mode == Finishing || mode == Idle))
      && (state == Input ==> e.Open() && e.nblock < e.nblockMAX && stateOutPos == 0 && w.zbits == [])
      && e.nblock + |w.zbits| <= 4 * e.block.Length
      && (mode == Flushing || mode == Finishing ==> availInExpect <= |input|)
      && (finished && mode == Finishing ==> availInExpect == 0)
      && (mode == Idle ==> finished && stateOutPos == |w.zbits|)
      && (state == Output && e.IsEmptyRL() && !finished ==> mode == Flushing && availInExpect == 0)
    }

    /** Once it has been written, some of the end of the stream is still to be handed out. */
    ghost predicate EndToCome()
      reads this`mode, this`finished, this`stateOutPos, w
    {
      finished && mode == Finishing ==> stateOutPos < |w.zbits|
    }

    constructor (blockSize100k: nat, workFactor: nat)
      requires 1 <= blockSize100k <= 9 && workFactor <= 250
      ensures Valid() && fresh(e) && fresh(w) && fresh(e.block) && fresh(e.inUse) && level == blockSize100k
      ensures consumed == [] && Produced() == [] && mode == Running && input == [] && EndToCome()
    {
      hide Update, Fold, BytesBits, Describes, EncodeRuns, StartBits, StreamBits, BlocksBits, BitsOf;
      level, this.workFactor := blockSize100k, if workFactor == 0 then 30 else workFactor;
      e := new EState(blockSize100k);
      w := new BitWriter();
      blockNo, combinedCRC, mode, state, availInExpect, stateOutPos, input := 1, NO_SUM, Running, Input, 0, 0, [];
      blocks, consumed, earlier, finished := [], [], [], false;
      new;
      hide Written, Accounted, Filled, Valid, EState.Valid, BitWriter.Valid, BitWriter.Bits, Carries, Produced;
      NewWritten();
      NewFilled();
      NewValid();
    }

    /** A new compressor has written nothing, */
    lemma NewWritten()
      requires blockNo == 1 && combinedCRC == NO_SUM && state == Input && stateOutPos == 0 && blocks == [] && earlier == [] && !finished
      requires w.Valid() && w.Bits() == []
      ensures Written() && stateOutPos <= |w.zbits| && Produced() == []
    {
      hide Carries, BytesBits, BitWriter.Valid;
      BitsAreBytes();
      assert ByteString(w.zbits) && w.zbits == [];
      assert AllBits() == [] by { NoBytes(); }
      NothingCarried(level);
    }

    /** taken nothing in, */
    lemma NewFilled()
      requires 1 <= level <= 9 && state == Input && blocks == [] && consumed == []
      requires e.Valid() && e.Gathered() == [] && e.nblock == 0
      requires e.nblockMAX == 100000 * level - 19 && e.block.Length == 100000 * level + MainOrder.OVERSHOOT
      ensures Accounted() && Filled()
    {
      hide EState.Valid;
    }

    /** and can begin. */
    lemma NewValid()
      requires blockNo == 1 && Written() && Accounted() && Filled() && e.Open() && e.nblock == 0
      requires state == Input && mode == Running && stateOutPos == 0 && input == [] && !finished && w.zbits == []
      ensures Valid()
    {
      hide Written, Accounted, EState.Valid;
    }

    /** With no bits there are no bytes. */
    lemma BitsAreBytes()
      requires w.Valid() && w.Bits() == []
      ensures w.zbits == [] && w.live == [] && ByteString(w.zbits)
    {
      hide BitsOf;
    }

    /** The bits written, seen from the writer. */
    lemma BitsAreWriters()
      requires ByteString(earlier) && w.Valid() && !finished
      ensures ByteString(w.zbits) && AllBits() == BytesBits(earlier) + w.Bits()
    {
      hide BytesBits;
      BytesConcat(earlier, w.zbits);
    }

    /** A stream begins with its header. */
    method WriteHeader()
      requires Written() && state == Input && !finished && w.Valid() && blockNo >= 1 && 1 <= level <= 9
      modifies w
      ensures ByteString(earlier) && w.Valid() && ByteString(w.zbits)
      ensures Carries(level, blocks, AllBits(), true, false)
      ensures |w.Bits()| <= old(|w.Bits()|) + 32
    {
      hide BytesBits, BlocksBits, StreamBits, BitWriter.Valid, BitWriter.Bits;
      BitsAreWriters();
      if blockNo == 1 {
        NothingYet(earlier, w.zbits, w.live, AllBits());
        var s := STREAM_MAGIC + [0x30 + level];
        PutBytes(w, s);
        BitsAreWriters();
        assert [] + BytesBits(s) == BytesBits(s);
        FirstCarries(level, blocks, AllBits());
      }
    }

    /** The block, if there is anything in it. */
    method WriteBlock()
      requires ByteString(earlier) && w.Valid() && ByteString(w.zbits) && !finished && Filled() && state == Input
      requires Carries(level, blocks, AllBits(), true, false) && combinedCRC == CombinedSum(blocks)
      modifies w, e.block, this`blocks, this`combinedCRC
      ensures w.Valid() && ByteString(w.zbits) && Filled() && combinedCRC == CombinedSum(blocks)
      ensures Carries(level, blocks, AllBits(), true, false)
      ensures RawBytes(blocks) == old(RawBytes(blocks)) + Flatten(e.runs)
      ensures |w.Bits()| <= old(|w.Bits()|) + OVERHEAD_BITS + 20 * (e.nblock + 1)
    {
      hide BytesBits, BlocksBits, StreamBits, StartBits, BitWriter.Valid, BitWriter.Bits, Describes, RunLength.Separated, GoodBlock,
           BlockStream, RawBytes, CombinedSum, Combine, BlockSum, Flatten, Finalised;
      RunsApart(e.runs, e.Pending());
      BitsAreWriters();
      if e.nblock > 0 {
        ghost var c := EncodeBlock(w, e.block, e.inUse, e.nblock, e.blockCRC, level, workFactor, e.runs);
        DescribedSum(e.block[..e.nblock], e.inUse[..], e.blockCRC, e.runs);
        combinedCRC := Combine(combinedCRC, Finalised(e.blockCRC));
        BlocksSnoc(level, blocks, c);
        CarriesMore(level, blocks, c, old(AllBits()));
        BitsAreWriters();
        Joined(BytesBits(earlier), old(w.Bits()), BlockStream(level, c));
        blocks := blocks + [c];
      } else {
        NoRuns(e.block[..e.nblock], e.inUse[..], e.blockCRC, e.runs);
        NothingFlattened(RawBytes(blocks));
      }
    }

    /** The stream trailer. */
    method WriteEnd()
      requires ByteString(earlier) && w.Valid() && ByteString(w.zbits) && !finished
      requires Carries(level, blocks, AllBits(), true, false) && combinedCRC == CombinedSum(blocks)
      modifies w, this`finished
      ensures ByteString(w.zbits) && finished && Carries(level, blocks, AllBits(), true, true)
      ensures w.zbits != [] && 8 * |w.zbits| < old(|w.Bits()|) + 88
    {
      hide BytesBits, BlocksBits, StartBits, BitWriter.Valid, BitWriter.Bits, CombinedSum, Number;
      BitsAreWriters();
      ghost var all := AllBits();
      PutBytes(w, END_MAGIC);
      Bytes4Number(Number(combinedCRC));
      PutBytes(w, Bytes4(Number(combinedCRC)));
      ghost var bits := w.Bits();
      Joined(old(w.Bits()), BytesBits(END_MAGIC), BytesBits(Bytes4(Number(combinedCRC))));
      assert bits == old(w.Bits()) + EndBits(CombinedSum(blocks));
      w.FinishWrite();
      finished := true;
      EndCarries(level, blocks, all, earlier, old(w.Bits()), EndBits(CombinedSum(blocks)), w.zbits);
      assert BytesBits(earlier + w.zbits) + [] == BytesBits(earlier + w.zbits);
    }

    /** BZ2_compressBlock.  What it writes fits behind the block. */
    method CompressBlock(last: bool)
      requires Written() && Accounted() && Filled() && state == Input && !finished && blockNo >= 1 && stateOutPos == 0
      requires w.zbits == []
      modifies this`blocks, this`combinedCRC, this`finished, this`state, w, e.block
      ensures Written() && Accounted() && Filled() && state == Output && finished == last && (last ==> w.zbits != [])
      ensures e.nblock + |w.zbits| <= 4 * e.block.Length
    {
      hide Carries, BytesBits, BitWriter.Valid, BitWriter.Bits, Describes, RawBytes, CombinedSum, Flatten, RunLength.Separated;
      FewBits(w);
      WriteHeader();
      WriteBlock();
      ghost var bits := |w.Bits()|;
      ZbitsWithin(w);
      SplitGathered(old(RawBytes(blocks)), e.runs, e.Pending());
      state := Output;
      if last { WriteEnd(); }
      BehindBlock(e.nblock, 100000 * level, bits + 80, |w.zbits|);
      StillCarries();
    }

    /** Nothing but what was left over is in the buffer; and never more bytes than bits. */
    static lemma FewBits(w: BitWriter)
      requires w.Valid() && w.zbits == []
      ensures |w.Bits()| <= 32
    {
      hide BitsOf;
    }

    static lemma ZbitsWithin(w: BitWriter)
      requires w.Valid()
      ensures 8 * |w.zbits| <= |w.Bits()|
    {
      hide BitsOf;
    }

    lemma StillCarries()
      requires state == Output && ByteString(earlier) && ByteString(w.zbits)
      requires Carries(level, blocks, AllBits(), true, finished)
      ensures Carries(level, blocks, AllBits(), Started(), finished)
    {
    }

    /** prepare_new_block. */
    method PrepareNewBlock()
      requires Written() && Accounted() && Filled() && state == Output && !finished && blockNo >= 1
      requires stateOutPos == |w.zbits|
      modifies this`blockNo, this`state, this`stateOutPos, this`earlier, w, e, e.inUse
      ensures Written() && Accounted() && Filled() && state == Input && blockNo >= 1 && stateOutPos == 0 && e.nblock == 0
      ensures Produced() == old(Produced()) && e.IsEmptyRL() == old(e.IsEmptyRL()) && e.Open() && w.zbits == []
    {
      hide BytesBits, BlocksBits, StreamBits, StartBits, BitWriter.Valid, BitWriter.Bits, Describes, RawBytes, CombinedSum, Flatten,
           RunLength.Separated;
      BitsAreWriters();
      e.StartBlock();
      assert e.runs + e.Pending() == e.Pending();
      BytesConcat(earlier, w.zbits);
      ghost var z := w.zbits;
      w.Restart();
      earlier := earlier + z;
      stateOutPos := 0;
      state := Input;
      blockNo := blockNo + 1;
      BitsAreWriters();
      Joined(BytesBits(old(earlier)), BytesBits(z), w.Bits());
      assert earlier + w.zbits[..0] == earlier && old(earlier) + z[..|z|] == earlier;
    }

    /** copy_output_until_stop. */
    method CopyOutput(availOut: nat) returns (out: seq<int>)
      requires stateOutPos <= |w.zbits|
      modifies this`stateOutPos
      ensures stateOutPos == old(stateOutPos) + |out| <= |w.zbits| && out == w.zbits[old(stateOutPos)..stateOutPos]
      ensures |out| <= availOut && (|out| == availOut || stateOutPos == |w.zbits|)
    {
      out := [];
      while true
        invariant stateOutPos == old(stateOutPos) + |out| <= |w.zbits| && out == w.zbits[old(stateOutPos)..stateOutPos]
        invariant |out| <= availOut
        decreases availOut - |out|
      {
        if |out| == availOut { break; }
        if stateOutPos >= |w.zbits| { break; }
        out := out + [w.zbits[stateOutPos]];
        stateOutPos := stateOutPos + 1;
      }
    }

    /** The next input byte goes into the block. */
    method TakeByte()
      requires Accounted() && Filled() && state == Input && e.Open() && e.nblock < e.nblockMAX
      requires |input| > 0 && 0 <= input[0] < 256
      modifies this`input, this`consumed, this`availInExpect, e, e.block, e.inUse
      ensures Accounted() && Filled() && e.Open() && !e.IsEmptyRL() && e.nblock <= e.nblockMAX + 4
      ensures input == old(input)[1..] && consumed == old(consumed) + [old(input)[0]]
      ensures availInExpect == if mode == Running || old(availInExpect) == 0 then old(availInExpect) else old(availInExpect) - 1
    {
      hide RawBytes, Flatten, Describes, RunLength.Separated;
      ghost var raw, c, g := RawBytes(blocks), input[0], e.Gathered();
      e.AddChar(input[0]);
      assert raw + (g + [c]) == (raw + g) + [c];
      consumed := consumed + [c];
      input := input[1..];
      if mode != Running && availInExpect > 0 { availInExpect := availInExpect - 1; }
    }

    /** copy_input_until_stop. */
    method CopyInput() returns (ghost eaten: seq<int>)
      requires Accounted() && Filled() && state == Input && e.Open() && e.nblock < e.nblockMAX
      requires forall i :: 0 <= i < |input| ==> 0 <= input[i] < 256
      requires mode != Running ==> availInExpect <= |input|
      modifies this`input, this`consumed, this`availInExpect, e, e.block, e.inUse
      ensures Accounted() && Filled() && e.Open() && e.nblock <= e.nblockMAX + 4
      ensures old(input) == eaten + input && consumed == old(consumed) + eaten
      ensures forall i :: 0 <= i < |input| ==> 0 <= input[i] < 256
      ensures mode != Running ==> availInExpect <= |input| && availInExpect == old(availInExpect) - |eaten|
      ensures e.nblock >= e.nblockMAX || input == [] || (mode != Running && availInExpect == 0)
      ensures |eaten| > 0 ==> !e.IsEmptyRL()
      ensures |eaten| == 0 ==> e.nblock < e.nblockMAX
    {
      hide Accounted, RawBytes, Flatten, Describes, RunLength.Separated, EState.Valid;
      eaten := [];
      ghost var all, done := input, consumed;
      while true
        invariant Accounted() && Filled() && e.Open() && e.nblock <= e.nblockMAX + 4
        invariant forall i :: 0 <= i < |input| ==> 0 <= input[i] < 256
        invariant all == eaten + input && consumed == done + eaten
        invariant mode != Running ==> availInExpect <= |input| && availInExpect == old(availInExpect) - |eaten|
        invariant |eaten| > 0 ==> !e.IsEmptyRL()
        invariant |eaten| == 0 ==> e.nblock < e.nblockMAX
        decreases |input|
      {
        if e.nblock >= e.nblockMAX { break; }
        if |input| == 0 { break; }
        if mode != Running && availInExpect == 0 { break; }
        ghost var c, rest := input[0], input[1..];
        TakeByte();
        assert all == (eaten + [c]) + rest;
        eaten := eaten + [c];
      }
    }

    /** handle_compress in the output state.  more: go on to the input state. */
    method OutputStep(availOut: nat) returns (out: seq<int>, more: bool)
      requires Valid() && state == Output && mode != Idle
      modifies this`blockNo, this`state, this`stateOutPos, this`earlier, w, e, e.inUse
      ensures Valid() && Produced() == old(Produced()) + out && |out| <= availOut
      ensures more ==> state == Input && !old(e.IsEmptyRL())
      ensures !more && mode == Finishing && stateOutPos == |w.zbits| ==> finished
      ensures !more && mode == Flushing && stateOutPos == |w.zbits| ==> state == Input && e.nblock == 0
      ensures !more && mode == Running ==> |out| == availOut
      ensures old(EndToCome()) ==> |out| > 0 || EndToCome()
      ensures !more && |out| < availOut ==> stateOutPos == |w.zbits| && availInExpect == 0 && e.IsEmptyRL()
      ensures !more && |out| < availOut ==> if mode == Finishing then finished else mode == Flushing && state == Input
    {
      hide Written, Accounted, Filled, EState.Valid, BitWriter.Valid;
      PositionFits();
      out := CopyOutput(availOut);
      assert earlier + w.zbits[..stateOutPos] == (earlier + w.zbits[..old(stateOutPos)]) + out;
      PositionMoved(old(stateOutPos));
      if stateOutPos < |w.zbits| { return out, false; }
      if mode == Finishing && availInExpect == 0 && e.IsEmptyRL() { return out, false; }
      PrepareNewBlock();
      EmptyBelowMax();
      more := !(mode == Flushing && availInExpect == 0 && e.IsEmptyRL());
    }

    lemma PositionFits()
      requires Written()
      ensures stateOutPos <= |w.zbits|
    {
    }

    twostate lemma PositionMoved(from: nat)
      requires old(Written()) && stateOutPos <= |w.zbits|
      requires unchanged(this`blockNo, this`state, this`blocks, this`earlier, this`finished, this`combinedCRC, w)
      ensures Written()
    {
    }

    lemma EmptyBelowMax()
      requires Filled() && e.nblock == 0
      ensures e.nblock < e.nblockMAX
    {
    }

    lemma RoomBehind()
      requires Filled() && state == Input
      ensures e.nblock <= 4 * e.block.Length
    {
    }

    lemma RoomToFlush()
      requires Filled() && state == Input
      ensures e.Valid()
    {
    }

    method Flush()
      requires Accounted() && Filled() && state == Input && e.Open()
      requires e.nblock <= e.nblockMAX + 4
      modifies e, e.block, e.inUse
      ensures Accounted() && Filled() && e.IsEmptyRL()
    {
      hide RawBytes, Flatten, Describes, RunLength.Separated;
      e.FlushRL();
      assert e.runs + e.Pending() == e.runs;
    }

    /** After the input has been copied: the block is closed if everything asked for has been
        taken in, or if it is full. */
    method EndBlock() returns (more: bool)
      requires Written() && Accounted() && Filled() && state == Input && e.Open() && !finished && blockNo >= 1
      requires stateOutPos == 0 && e.nblock <= e.nblockMAX + 4 && w.zbits == []
      modifies this`blocks, this`combinedCRC, this`finished, this`state, w, e, e.block, e.inUse
      ensures Written() && Accounted() && Filled() && stateOutPos <= |w.zbits| && Produced() == old(Produced())
      ensures e.nblock + |w.zbits| <= 4 * e.block.Length
      ensures !more ==> w.zbits == []
      ensures more <==> (mode != Running && availInExpect == 0) || old(e.nblock >= e.nblockMAX)
      ensures more ==> state == Output && (finished <==> mode == Finishing && availInExpect == 0) && (finished ==> w.zbits != [])
      ensures more ==> e.IsEmptyRL() == (old(e.IsEmptyRL()) || (mode != Running && availInExpect == 0))
      ensures !more ==> state == Input && !finished && e.Open() && e.nblock < e.nblockMAX
    {
      hide Written, Accounted, Filled, EState.Valid, BitWriter.Valid, ByteString;
      PositionFits();
      ghost var z := w.zbits;
      more := true;
      if mode != Running && availInExpect == 0 {
        RoomToFlush();
        Flush();
        CompressBlock(mode == Finishing);
      } else if e.nblock >= e.nblockMAX {
        CompressBlock(false);
      } else {
        RoomBehind();
        more := false;
      }
      PositionFits();
      assert earlier + w.zbits[..0] == earlier + z[..0];
    }

    /** handle_compress in the input state.  more: go on to the output state. */
    method InputStep() returns (ghost eaten: seq<int>, more: bool)
      requires Valid() && state == Input && mode != Idle
      modifies this`input, this`consumed, this`availInExpect, this`blocks, this`combinedCRC, this`finished, this`state,
               w, e, e.block, e.inUse
      ensures Valid() && old(input) == eaten + input && consumed == old(consumed) + eaten
      ensures Produced() == old(Produced())
      ensures more ==> state == Output && (e.IsEmptyRL() || |eaten| > 0) && EndToCome()
      ensures mode != Running ==> availInExpect == old(availInExpect) - |eaten|
      ensures !more ==> mode == Running && input == [] && state == Input
    {
      hide Written, Accounted, Filled, EState.Valid, BitWriter.Valid, ByteString;
      PositionFits();
      eaten := CopyInput();
      more := EndBlock();
    }

    /** handle_compress: until the caller has to give more input or more room, or everything
        asked for is done. */
    method HandleCompress(availOut: nat) returns (out: seq<int>, ghost eaten: seq<int>, progress: bool)
      requires Valid() && mode != Idle
      modifies this`input, this`consumed, this`availInExpect, this`blocks, this`combinedCRC, this`finished, this`state,
               this`blockNo, this`stateOutPos, this`earlier, w, e, e.block, e.inUse
      ensures Valid() && old(input) == eaten + input && consumed == old(consumed) + eaten
      ensures Produced() == old(Produced()) + out && |out| <= availOut
      ensures progress <==> |out| > 0 || |eaten| > 0
      ensures mode != Running ==> availInExpect == old(availInExpect) - |eaten|
      ensures mode == Finishing && stateOutPos == |w.zbits| ==> finished
      ensures mode == Flushing && stateOutPos == |w.zbits| ==> state == Input && e.nblock == 0
      ensures mode == Running ==> (input == [] && state == Input) || |out| == availOut
      ensures mode != Running && |out| < availOut ==> stateOutPos == |w.zbits| && availInExpect == 0 && e.IsEmptyRL()
      ensures mode != Running && |out| < availOut ==> if mode == Finishing then finished else state == Input
      ensures old(EndToCome()) ==> |out| > 0 || EndToCome()
    {
      hide Valid, Produced;
      var before := |input|;
      PositionKnown();
      ghost var was, all, done := Produced(), input, consumed;
      out, eaten := [], [];
      assert was + [] == was && [] + input == input && consumed + [] == consumed;
      while true
        invariant Valid() && mode == old(mode) && mode != Idle && stateOutPos <= |w.zbits|
        invariant all == eaten + input && consumed == done + eaten && |out| <= availOut
        invariant Produced() == was + out
        invariant mode != Running ==> availInExpect == old(availInExpect) - |eaten|
        invariant old(EndToCome()) ==> |out| > 0 || EndToCome()
        decreases |input|, if state == Input then 2 else if e.IsEmptyRL() then 1 else 3
      {
        if state == Output {
          var o, more := OutputStep(availOut - |out|);
          PositionKnown();
          assert was + (out + o) == (was + out) + o;
          out := out + o;
          if !more { break; }
        } else {
          ghost var ea;
          var more;
          ea, more := InputStep();
          PositionKnown();
          assert eaten + (ea + input) == (eaten + ea) + input && done + (eaten + ea) == (done + eaten) + ea;
          eaten := eaten + ea;
          if !more { break; }
        }
      }
      progress := |input| < before || |out| > 0;
    }

    lemma PositionKnown()
      requires Valid()
      ensures stateOutPos <= |w.zbits|
    {
    }

    lemma EndSettled()
      requires Valid() && finished && mode == Finishing
      ensures availInExpect == 0 && e.IsEmptyRL()
    {
    }

    /** When the end has been written and handed out, everything handed out is a stream that
        decodes to everything taken in. */
    lemma Delivered()
      requires Valid() && finished && stateOutPos == |w.zbits|
      ensures ByteString(Produced()) && Decode(BytesBits(Produced())) == Result(consumed, End)
    {
      hide BytesBits, Decode, StreamBits, RawBytes, CombinedSum, Describes, RunLength.Separated;
      assert e.Pending() == [];
      assert Produced() == earlier + w.zbits;
      var all := BytesBits(earlier + w.zbits);
      assert AllBits() == all by { assert all + [] == all; }
      assert StreamBits(level, blocks) <= all;
      var pad := all[|StreamBits(level, blocks)|..];
      assert all == StreamBits(level, blocks) + pad;
      StreamReadBack(level, blocks, pad);
      NothingFlattened(RawBytes(blocks));
    }

    /** The action does not go with what was asked for before, or the input has been changed
        since. */
    predicate OutOfTurn(action: Action)
      reads this`mode, this`availInExpect, this`input
    {
      match mode
      case Running => false
      case Flushing => action != DoFlush || availInExpect != |input|
      case Finishing => action != DoFinish || availInExpect != |input|
      case Idle => true
    }

    /** Nothing that has been taken in is waiting any more: it is all in blocks, and these have
        been coded. */
    lemma AllInBlocks()
      requires Valid() && state == Input && e.nblock == 0 && e.IsEmptyRL()
      ensures consumed == RawBytes(blocks)
    {
      hide Written, RawBytes, RunLength.Separated;
      EmptyGathers();
      NothingFlattened(RawBytes(blocks));
    }

    lemma EmptyGathers()
      requires Filled() && state == Input && e.nblock == 0 && e.IsEmptyRL()
      ensures e.Gathered() == Flatten([])
    {
      hide Flatten, RunLength.Separated, Fold, RawBytes;
      assert e.runs + e.Pending() == e.runs;
      NoRuns(e.block[..e.nblock], e.inUse[..], e.blockCRC, e.runs);
    }

    /** BZ2_bzCompress: the answer is settled by what has been done, and with room left
        everything asked for is done. */
    method BzCompress(action: Action, availOut: nat) returns (out: seq<int>, ghost eaten: seq<int>, ret: Return)
      requires Valid() && EndToCome()
      modifies this, w, e, e.block, e.inUse
      ensures Valid() && EndToCome() && old(input) == eaten + input && consumed == old(consumed) + eaten
      ensures Produced() == old(Produced()) + out && |out| <= availOut
      ensures ret == StreamEnd ==> ByteString(Produced()) && Decode(BytesBits(Produced())) == Result(consumed, End)
      ensures ret == StreamEnd ==> mode == Idle && old(mode) != Idle && action == DoFinish && input == []
      ensures old(OutOfTurn(action)) ==> ret == SequenceError && out == [] && eaten == [] && mode == old(mode)
      ensures !old(OutOfTurn(action)) && action == DoRun ==>
                && mode == Running && ret == (if |out| + |eaten| > 0 then RunOk else ParamError)
                && ((input == [] && state == Input) || |out| == availOut)
      ensures !old(OutOfTurn(action)) && action == DoFlush ==>
                && ((ret == RunOk && mode == Running) || (ret == FlushOk && mode == Flushing && |out| == availOut))
      ensures ret == RunOk && action == DoFlush ==>
                && input == [] && stateOutPos == |w.zbits| && e.IsEmptyRL() && state == Input && e.nblock == 0
                && consumed == RawBytes(blocks)
      ensures !old(OutOfTurn(action)) && action == DoFinish ==>
                if |out| + |eaten| == 0
                then ret == SequenceError && mode == Finishing && availOut == 0
                else (ret == FinishOk && mode == Finishing && |out| == availOut) || ret == StreamEnd
    {
      hide Valid, Produced, Decode, BytesBits, ByteString, EState.IsEmptyRL, RawBytes;
      out, eaten := [], [];
      PositionKnown();
      assert [] + input == input && consumed + [] == consumed && Produced() + [] == Produced();
      if mode == Idle { return out, eaten, SequenceError; }
      var progress;
      if mode == Running {
        if action == DoRun {
          out, eaten, progress := HandleCompress(availOut);
          PositionKnown();
          ret := if progress then RunOk else ParamError;
          return;
        }
        EnterMode(if action == DoFlush then Flushing else Finishing);
      }
      if mode == Flushing {
        if action != DoFlush || availInExpect != |input| { return out, eaten, SequenceError; }
        out, eaten, progress := HandleCompress(availOut);
        PositionKnown();
        if availInExpect > 0 || !e.IsEmptyRL() || stateOutPos < |w.zbits| { return out, eaten, FlushOk; }
        AllInBlocks();
        LeaveMode(Running);
        ret := RunOk;
      } else {
        if action != DoFinish || availInExpect != |input| { return out, eaten, SequenceError; }
        out, eaten, progress := HandleCompress(availOut);
        PositionKnown();
        if finished { EndSettled(); }
        if !progress { return out, eaten, SequenceError; }
        if availInExpect > 0 || !e.IsEmptyRL() || stateOutPos < |w.zbits| { return out, eaten, FinishOk; }
        Delivered();
        LeaveMode(Idle);
        ret := StreamEnd;
      }
    }

    method EnterMode(m: Mode)
      requires Valid() && mode == Running && (m == Flushing || m == Finishing)
      modifies this`mode, this`availInExpect
      ensures Valid() && mode == m && availInExpect == |input| && EndToCome()
    {
      hide Written, Accounted, Filled;
      availInExpect, mode := |input|, m;
    }

    method LeaveMode(m: Mode)
      requires Valid() && ((mode == Flushing && m == Running && state == Input) || (mode == Finishing && m == Idle && finished))
      requires stateOutPos == |w.zbits|
      modifies this`mode
      ensures Valid() && mode == m
    {
      hide Written, Accounted, Filled;
      mode := m;
    }

    /** New input from the caller. */
    method Supply(chunk: seq<int>)
      requires Valid() && mode != Idle && ByteString(chunk)
      modifies this`input
      ensures Valid() && input == old(input) + chunk
    {
      hide Written, Accounted, Filled;
      input := input + chunk;
    }
  }

  /** The raw bytes of the block, then those of the run that is still open. */
  lemma SplitGathered(raw: seq<int>, runs: seq<Run>, p: seq<Run>)
    requires |p| <= 1
    ensures raw + Flatten(runs + p) == (raw + Flatten(runs)) + Flatten(p)
  {
    if |p| == 0 {
      assert runs + p == runs;
      assert Flatten(p) == [];
    } else {
      assert p == [p[0]] && p[1..] == [];
      FlattenAppend(runs, p[0]);
      assert Flatten(p) == Rep(p[0].ch, p[0].len) + Flatten([]);
      assert Flatten([]) == [];
      hide Flatten;
      assert Flatten(p) == Rep(p[0].ch, p[0].len);
    }
  }

  lemma EndCarries(level: nat, bs: seq<Coded>, all: seq<bool>, earlier: seq<int>, before: seq<bool>, t: seq<bool>, zbits: seq<int>)
    requires Carries(level, bs, all, true, false) && ByteString(earlier) && ByteString(zbits)
    requires all == BytesBits(earlier) + before && t == EndBits(CombinedSum(bs)) && before + t <= BytesBits(zbits)
    ensures Carries(level, bs, BytesBits(earlier + zbits), true, true)
  {
    hide BytesBits, BlocksBits, StartBits, CombinedSum, EndBits;
    BytesConcat(earlier, zbits);
    assert StreamBits(level, bs) == StartBits(level) + (BlocksBits(level, bs) + t);
    Joined(StartBits(level), BlocksBits(level, bs), t);
    Joined(BytesBits(earlier), before, t);
    assert StreamBits(level, bs) == BytesBits(earlier) + (before + t);
  }

  lemma NothingYet(earlier: seq<int>, zbits: seq<int>, live: seq<bool>, all: seq<bool>)
    requires ByteString(earlier) && ByteString(zbits) && all == BytesBits(earlier + zbits) + live && all == []
    ensures earlier == [] && zbits == [] && live == []
  {
    assert |all| == 8 * |earlier + zbits| + |live|;
  }

  lemma FirstCarries(level: nat, bs: seq<Coded>, all: seq<bool>)
    requires bs == [] && all == StartBits(level)
    ensures Carries(level, bs, all, true, false)
  {
    assert StartBits(level) + [] == StartBits(level);
  }

  lemma CarriesMore(level: nat, bs: seq<Coded>, c: Coded, all: seq<bool>)
    requires Carries(level, bs, all, true, false) && GoodBlock(level, c)
    ensures Carries(level, bs + [c], all + BlockStream(level, c), true, false)
  {
    hide GoodBlock, BlockStream, StartBits, StreamBits;
    BlocksSnoc(level, bs, c);
    Joined(StartBits(level), BlocksBits(level, bs), BlockStream(level, c));
  }

  lemma RunsApart(rs: seq<Run>, p: seq<Run>)
    requires RunLength.Separated(rs + p)
    ensures RunLength.Separated(rs)
  {
    PendingAlone(rs, p);
  }

  lemma DescribedSum(bytes: seq<int>, used: seq<bool>, crc: CrcWord, runs: seq<Run>)
    requires Describes(bytes, used, crc, runs)
    ensures Finalised(crc) == BlockSum(Flatten(runs))
  {
    hide Fold, Finalised;
  }

  lemma NothingFlattened(a: seq<int>)
    ensures a + Flatten([]) == a
  {
  }
}
