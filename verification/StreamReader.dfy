/** BZ2_bzDecompress (bzlib.c) and the control of BZ2_decompress (decompress.c): a decoder
    that is handed input and output space in pieces, stops wherever either runs out, and goes
    on from there.  Its state always determines what it makes of the bits still to come, and
    every step keeps that. */
module StreamReader {
  import opened Bits
  import opened BitStream
  import opened Counting
  import opened HuffmanCodes
  import opened InverseTransform
  import opened RunLength
  import opened BlockCrc
  import opened BlockFormat
  import opened BlockOutput
  import opened StreamFormat
  import opened MtfEncode
  import TableReader
  import SymbolReader

  datatype Phase =
    | Magic | BlockMagic | BlockCrc | RandBit | Origin | InTables | InSymbols | InOutput
    | EndMagic | EndCrc | Stopped(ret: Return)

  /** What a call reports. */
  datatype Return = Ok | StreamEnd | DataErr | DataErrMagic | NotModelled

  /** The return code for a stream that has ended so. */
  function Verdict(stop: Stop): Return
    requires stop != More
  {
    match stop
    case End => StreamEnd
    case DataError => DataErr
    case BrokenOff(_) => DataErr
    case MagicError => DataErrMagic
    case _ => NotModelled
  }

  /** The answer once the last column is known or refused. */
  ghost function Resolved(level: nat, combined: CrcWord, crc: nat, orig: nat, p: Parse<seq<int>>): Result {
    AfterBody(level, combined, crc, orig, p, if p.Got? then |p.rest| else 0)
  }

  lemma ResolvedBody(level: nat, combined: CrcWord, crc: nat, orig: nat, bits: seq<bool>)
    ensures ReadBody(level, combined, crc, orig, bits)
         == Resolved(level, combined, crc, orig, ReadBlock(100000 * level, bits))
  {
    hide ReadBlock, Walk, SymbolAfter, Spelt, AfterBlock;
    BlockShrinks(100000 * level, bits);
    var p := ReadBlock(100000 * level, bits);
    assert ReadBody(level, combined, crc, orig, bits) == AfterBody(level, combined, crc, orig, p, |bits|);
  }

  /** The answer while a block is being put out: begun bytes of it have been written, r is what
      is left of it, crc the checksum so far. */
  ghost function Emitting(level: nat, combined: CrcWord, stored: nat, begun: nat, r: Text, crc: CrcWord, bits: seq<bool>): Result {
    if !r.whole then Result(r.bytes, BrokenOff(begun + |r.bytes|))
    else Then(r.bytes, AfterBlock(level, combined, stored, Finalised(Fold(crc, r.bytes)), bits))
  }

  lemma ResolvedColumn(level: nat, combined: CrcWord, crc: nat, orig: nat, col: seq<int>, bits: seq<bool>)
    ensures Resolved(level, combined, crc, orig, Got(col, bits))
         == if orig >= |col| then Result([], DataError)
            else Emitting(level, combined, crc, 0, Spelt(Walk(col, orig, |col|), SymbolAfter(col, orig, |col|)), INITIAL, bits)
    ensures Resolved(level, combined, crc, orig, Bad) == Result([], DataError)
    ensures Resolved(level, combined, crc, orig, Short) == Result([], More)
    ensures Resolved(level, combined, crc, orig, Beyond) == Result([], Overrun)
  {
    hide Walk, SymbolAfter, Spelt, AfterBlock, Fold;
  }

  /** Some of the block has been written. */
  lemma EmittedSome(level: nat, combined: CrcWord, stored: nat, begun: nat, r0: Text, crc: CrcWord, w: seq<int>,
                    r1: Text, bits: seq<bool>)
    requires Follows(r0, w, r1)
    ensures Emitting(level, combined, stored, begun, r0, crc, bits)
         == Then(w, Emitting(level, combined, stored, begun + |w|, r1, Fold(crc, w), bits))
  {
    hide Fold, AfterBlock;
    FoldConcat(crc, w, r1.bytes);
    if r0.whole { ThenThen(w, r1.bytes, AfterBlock(level, combined, stored, Finalised(Fold(crc, r0.bytes)), bits)); }
  }

  lemma EmittedAll(level: nat, combined: CrcWord, stored: nat, begun: nat, crc: CrcWord, bits: seq<bool>)
    ensures Emitting(level, combined, stored, begun, Text([], true), crc, bits)
         == if Number(Finalised(crc)) != stored then Result([], DataError)
            else ReadBlockMagic(level, Combine(combined, Finalised(crc)), 0, bits)
  {
    hide ReadBlockMagic, Number, Combine, Finalised;
    ThenThen([], [], AfterBlock(level, combined, stored, Finalised(Fold(crc, [])), bits));
  }

  // What one byte does at each place of the stream.

  lemma MagicByte(k: nat, uc: nat)
    requires k <= 3 && uc < 256
    ensures forall rest ::
      ReadMagic(k, BitsOf(uc, 8) + rest)
      == if k < 3 then if uc != STREAM_MAGIC[k] then Result([], MagicError) else ReadMagic(k + 1, rest)
         else if uc < 0x31 || uc > 0x39 then Result([], MagicError)
         else ReadBlockMagic(uc - 0x30, NO_SUM, 0, rest)
  {
    hide BitsOf, Val, ReadBlockMagic;
    NextByte(uc);
  }

  lemma BlockMagicByte(level: nat, combined: CrcWord, k: nat, uc: nat)
    requires k <= 5 && uc < 256
    ensures forall rest ::
      ReadBlockMagic(level, combined, k, BitsOf(uc, 8) + rest)
      == if k == 0 && uc == END_MAGIC[0] then ReadEndMagic(combined, 1, rest)
         else if uc != BLOCK_MAGIC[k] then Result([], DataError)
         else if k < 5 then ReadBlockMagic(level, combined, k + 1, rest)
         else ReadBlockCrc(level, combined, 0, 0, rest)
  {
    hide BitsOf, Val, ReadEndMagic, ReadBlockCrc;
    NextByte(uc);
  }

  lemma BlockCrcByte(level: nat, combined: CrcWord, k: nat, crc: nat, uc: nat)
    requires k <= 3 && uc < 256
    ensures forall rest ::
      ReadBlockCrc(level, combined, k, crc, BitsOf(uc, 8) + rest)
      == if k == 3 then ReadRandomised(level, combined, crc * 256 + uc, rest)
         else ReadBlockCrc(level, combined, k + 1, crc * 256 + uc, rest)
  {
    hide BitsOf, Val, ReadRandomised;
    NextByte(uc);
  }

  lemma OriginByte(level: nat, combined: CrcWord, crc: nat, k: nat, orig: nat, uc: nat)
    requires k <= 2 && uc < 256
    ensures forall rest ::
      ReadOrigin(level, combined, crc, k, orig, BitsOf(uc, 8) + rest)
      == if k < 2 then ReadOrigin(level, combined, crc, k + 1, orig * 256 + uc, rest)
         else if orig * 256 + uc > 10 + 100000 * level then Result([], DataError)
         else ReadBody(level, combined, crc, orig * 256 + uc, rest)
  {
    hide BitsOf, Val, ReadBody;
    NextByte(uc);
  }

  lemma EndMagicByte(combined: CrcWord, k: nat, uc: nat)
    requires k <= 5 && uc < 256
    ensures forall rest ::
      ReadEndMagic(combined, k, BitsOf(uc, 8) + rest)
      == if uc != END_MAGIC[k] then Result([], DataError)
         else if k == 5 then ReadEndCrc(combined, 0, 0, rest)
         else ReadEndMagic(combined, k + 1, rest)
  {
    hide BitsOf, Val, ReadEndCrc;
    NextByte(uc);
  }

  lemma EndCrcByte(combined: CrcWord, k: nat, crc: nat, uc: nat)
    requires k <= 3 && uc < 256
    ensures forall rest ::
      ReadEndCrc(combined, k, crc, BitsOf(uc, 8) + rest)
      == if k == 3 then Result([], if Number(combined) != crc * 256 + uc then DataError else End)
         else ReadEndCrc(combined, k + 1, crc * 256 + uc, rest)
  {
    hide BitsOf, Val, Number;
    NextByte(uc);
  }

  class Decompressor {
    const small: bool
    const reader: BitReader

    // the saved state
    var state: Phase
    var k: nat
    var blockSize100k: nat
    var origPtr: nat
    var storedBlockCRC: nat
    var storedCombinedCRC: nat
    var calculatedCombinedCRC: CrcWord
    var hdr: TableReader.HeaderReader?
    var mtf: SymbolReader.MtfReader?
    var out: DState?
    /** Bytes of the block written so far, and how the stream has ended. */
    ghost var begun: nat
    ghost var stop: Stop
    ghost var Repr: set<object>

    ghost predicate Owned()
      reads this
    {
      && this in Repr && reader in Repr
      && (state == InTables ==> hdr != null && {hdr, hdr.selectorMtf, hdr.selector} <= Repr)
      && (state == InSymbols ==> mtf != null && {mtf, mtf.cells, mtf.unzftab, mtf.mtf.mtfa, mtf.mtf.mtfbase} <= Repr)
      && (state == InOutput ==> out != null && {out, out.tt, out.ll16, out.ll4, out.cftab} <= Repr)
    }

    ghost predicate Ready()
      reads this, Repr - {reader}
      requires Owned()
    {
      match state
      case Magic => k <= 3
      case BlockMagic => k <= 5
      case BlockCrc => k <= 3
      case Origin => k <= 2
      case InTables =>
        hdr.Valid() && hdr.max == 100000 * blockSize100k && hdr.Waiting()
      case InSymbols => mtf.Valid() && mtf.max == 100000 * blockSize100k && mtf.Waiting()
      case InOutput => if small then out.SmallReady() else out.FastReady()
      case EndMagic => k <= 5
      case EndCrc => k <= 3
      case Stopped(ret) => stop != More && ret == Verdict(stop)
      case _ => true
    }

    ghost predicate Valid()
      reads this, Repr - {reader}
    {
      && Owned() && Ready()
      && (state != Magic && !state.Stopped? ==> 1 <= blockSize100k <= 9)
    }

    /** What the decoder makes of the bits to come. */
    ghost function Outcome(bits: seq<bool>): Result
      requires Valid()
      reads this, Repr - {reader}
    {
      match state
      case Magic => ReadMagic(k, bits)
      case BlockMagic => ReadBlockMagic(blockSize100k, calculatedCombinedCRC, k, bits)
      case BlockCrc => ReadBlockCrc(blockSize100k, calculatedCombinedCRC, k, storedBlockCRC, bits)
      case RandBit => ReadRandomised(blockSize100k, calculatedCombinedCRC, storedBlockCRC, bits)
      case Origin => ReadOrigin(blockSize100k, calculatedCombinedCRC, storedBlockCRC, k, origPtr, bits)
      case InTables => Resolved(blockSize100k, calculatedCombinedCRC, storedBlockCRC, origPtr, hdr.Outcome(bits))
      case InSymbols => Resolved(blockSize100k, calculatedCombinedCRC, storedBlockCRC, origPtr, mtf.Outcome(bits))
      case InOutput =>
        Emitting(blockSize100k, calculatedCombinedCRC, storedBlockCRC, begun, out.Remaining(), out.calculatedBlockCRC, bits)
      case EndMagic => ReadEndMagic(calculatedCombinedCRC, k, bits)
      case EndCrc => ReadEndCrc(calculatedCombinedCRC, k, storedCombinedCRC, bits)
      case Stopped(_) => Result([], stop)
    }

    /** Nothing of the block has been written yet. */
    ghost predicate AtStart()
      reads this
    {
      (state == InOutput ==> begun == 0) && !Cut()
    }

    /** The block has been found to break off. */
    ghost predicate Cut()
      reads this
    {
      state.Stopped? && stop.BrokenOff?
    }

    ghost function Need(): nat
      reads this, Repr - {reader}
      requires Owned()
    {
      match state
      case RandBit => 1
      case InTables => hdr.Need()
      case InSymbols => mtf.Need()
      case _ => 8
    }

    constructor (small: bool)
      ensures Valid() && fresh(Repr) && reader in Repr && state == Magic && forall bits :: Outcome(bits) == Decode(bits)
      ensures reader.Valid() && reader.Ahead() == [] && reader.next == |reader.input| && this.small == small
    {
      this.small := small;
      reader := new BitReader();
      state, k, blockSize100k, origPtr, storedBlockCRC, storedCombinedCRC, calculatedCombinedCRC := Magic, 0, 0, 0, 0, 0, NO_SUM;
      hdr, mtf, out, begun, stop := null, null, null, 0, More;
      new;
      Repr := {this, reader};
    }

    /** A byte of the stream header, of a mark or of a checksum. */
    method FeedByte(uc: nat)
      requires Valid() && uc < 256 && (state == Magic || state == BlockMagic || state == BlockCrc || state == Origin
               || state == EndMagic || state == EndCrc)
      modifies Repr - {reader}
      ensures Valid() && AtStart() && fresh(Repr - old(Repr)) && reader in Repr
      ensures forall rest :: Outcome(rest) == old(Outcome(BitsOf(uc, 8) + rest))
    {
      hide *;
      match state
      case Magic => FeedMagic(uc);
      case BlockMagic => FeedBlockMagic(uc);
      case BlockCrc => FeedBlockCrc(uc);
      case Origin => FeedOrigin(uc);
      case EndMagic => FeedEndMagic(uc);
      case EndCrc => FeedEndCrc(uc);
    }

    method FeedMagic(uc: nat)
      requires Valid() && uc < 256 && state == Magic
      modifies Repr - {reader}
      ensures Valid() && AtStart() && Repr == old(Repr) && reader in Repr
      ensures forall rest :: Outcome(rest) == old(Outcome(BitsOf(uc, 8) + rest))
    {
      hide ReadMagic, ReadBlockMagic, BitsOf;
      MagicByte(k, uc);
      if k < 3 {
        if uc != STREAM_MAGIC[k] { state, stop := Stopped(DataErrMagic), MagicError; } else { k := k + 1; }
      } else if uc < 0x31 || uc > 0x39 {
        state, stop := Stopped(DataErrMagic), MagicError;
      } else {
        blockSize100k := uc - 0x30;
        calculatedCombinedCRC := NO_SUM;
        state, k := BlockMagic, 0;
      }
    }

    method FeedBlockMagic(uc: nat)
      requires Valid() && uc < 256 && state == BlockMagic
      modifies Repr - {reader}
      ensures Valid() && AtStart() && Repr == old(Repr) && reader in Repr
      ensures forall rest :: Outcome(rest) == old(Outcome(BitsOf(uc, 8) + rest))
    {
      hide ReadBlockMagic, ReadBlockCrc, ReadEndMagic, BitsOf;
      BlockMagicByte(blockSize100k, calculatedCombinedCRC, k, uc);
      if k == 0 && uc == END_MAGIC[0] {
        state, k := EndMagic, 1;
      } else if uc != BLOCK_MAGIC[k] {
        state, stop := Stopped(DataErr), DataError;
      } else if k < 5 {
        k := k + 1;
      } else {
        state, k, storedBlockCRC := BlockCrc, 0, 0;
      }
    }

    method FeedBlockCrc(uc: nat)
      requires Valid() && uc < 256 && state == BlockCrc
      modifies Repr - {reader}
      ensures Valid() && AtStart() && Repr == old(Repr) && reader in Repr
      ensures forall rest :: Outcome(rest) == old(Outcome(BitsOf(uc, 8) + rest))
    {
      hide ReadBlockCrc, ReadRandomised, BitsOf;
      BlockCrcByte(blockSize100k, calculatedCombinedCRC, k, storedBlockCRC, uc);
      storedBlockCRC := storedBlockCRC * 256 + uc;
      k := k + 1;
      if k == 4 {
        state := RandBit;
      }
    }

    method FeedRandBit(bit: nat)
      requires Valid() && bit < 2 && state == RandBit
      modifies Repr - {reader}
      ensures Valid() && AtStart() && Repr == old(Repr) && reader in Repr
      ensures forall rest :: Outcome(rest) == old(Outcome(BitsOf(bit, 1) + rest))
    {
      hide ReadOrigin;
      assert BitsOf(bit, 1) == [bit == 1];
      assert forall rest :: (BitsOf(bit, 1) + rest)[1..] == rest && (BitsOf(bit, 1) + rest)[0] == (bit == 1);
      if bit == 1 {
        state, stop := Stopped(NotModelled), Randomised;
      } else {
        state, k, origPtr := Origin, 0, 0;
      }
    }

    method FeedOrigin(uc: nat)
      requires Valid() && uc < 256 && state == Origin
      modifies Repr - {reader}
      ensures Valid() && AtStart() && fresh(Repr - old(Repr)) && reader in Repr
      ensures forall rest :: Outcome(rest) == old(Outcome(BitsOf(uc, 8) + rest))
    {
      hide ReadOrigin, ReadBody, BitsOf;
      OriginByte(blockSize100k, calculatedCombinedCRC, storedBlockCRC, k, origPtr, uc);
      origPtr := origPtr * 256 + uc;
      k := k + 1;
      if k == 3 {
        if origPtr > 10 + 100000 * blockSize100k {
          state, stop := Stopped(DataErr), DataError;
        } else {
          StartTables();
        }
      }
    }

    method StartTables()
      requires this in Repr && reader in Repr && 1 <= blockSize100k <= 9
      modifies this
      ensures Valid() && AtStart() && fresh(Repr - old(Repr)) && reader in Repr
      ensures forall rest :: Outcome(rest) == old(ReadBody(blockSize100k, calculatedCombinedCRC, storedBlockCRC, origPtr, rest))
    {
      hide ReadBody, Resolved, ReadBlock;
      forall rest { ResolvedBody(blockSize100k, calculatedCombinedCRC, storedBlockCRC, origPtr, rest); }
      hdr := new TableReader.HeaderReader(100000 * blockSize100k);
      state := InTables;
      Repr := {this, reader, hdr, hdr.selectorMtf, hdr.selector};
    }

    method FeedEndMagic(uc: nat)
      requires Valid() && uc < 256 && state == EndMagic
      modifies Repr - {reader}
      ensures Valid() && AtStart() && Repr == old(Repr) && reader in Repr
      ensures forall rest :: Outcome(rest) == old(Outcome(BitsOf(uc, 8) + rest))
    {
      hide ReadEndMagic, ReadEndCrc, BitsOf;
      EndMagicByte(calculatedCombinedCRC, k, uc);
      if uc != END_MAGIC[k] {
        state, stop := Stopped(DataErr), DataError;
        return;
      }
      k := k + 1;
      if k == 6 {
        state, k, storedCombinedCRC := EndCrc, 0, 0;
      }
    }

    method FeedEndCrc(uc: nat)
      requires Valid() && uc < 256 && state == EndCrc
      modifies Repr - {reader}
      ensures Valid() && AtStart() && Repr == old(Repr) && reader in Repr
      ensures forall rest :: Outcome(rest) == old(Outcome(BitsOf(uc, 8) + rest))
    {
      hide Number, ReadEndCrc, BitsOf;
      EndCrcByte(calculatedCombinedCRC, k, storedCombinedCRC, uc);
      storedCombinedCRC := storedCombinedCRC * 256 + uc;
      k := k + 1;
      if k == 4 {
        state := Stopped(if Number(calculatedCombinedCRC) != storedCombinedCRC then DataErr else StreamEnd);
        stop := if Number(calculatedCombinedCRC) != storedCombinedCRC then DataError else End;
      }
    }

    // -------------------------------------------------------------- the block

    method FeedTables(v: nat)
      requires Valid() && state == InTables && v < Pow2(hdr.Need())
      modifies Repr - {reader}
      ensures Valid() && AtStart() && fresh(Repr - old(Repr)) && reader in Repr
      ensures forall rest :: Outcome(rest) == old(Outcome(BitsOf(v, hdr.Need()) + rest))
    {
      hide Resolved, BitsOf, Pow2, TableReader.HeaderReader.Valid, TableReader.HeaderReader.Outcome;
      var h := hdr;
      h.Feed(v);
      SettleTables();
    }

    method SettleTables()
      requires this in Repr && reader in Repr && 1 <= blockSize100k <= 9 && state == InTables
      requires hdr != null && hdr.Valid() && hdr.max == 100000 * blockSize100k && {hdr, hdr.selectorMtf, hdr.selector} <= Repr
      modifies this
      ensures Valid() && AtStart() && fresh(Repr - old(Repr)) && reader in Repr
      ensures forall rest ::
        Outcome(rest) == Resolved(old(blockSize100k), old(calculatedCombinedCRC), old(storedBlockCRC), old(origPtr), old(hdr.Outcome(rest)))
    {
      hide Resolved;
      if hdr.state == TableReader.Failed {
        ResolvedColumn(blockSize100k, calculatedCombinedCRC, storedBlockCRC, origPtr, [], []);
        state, stop := Stopped(DataErr), DataError;
      } else if hdr.state == TableReader.Overrun {
        ResolvedColumn(blockSize100k, calculatedCombinedCRC, storedBlockCRC, origPtr, [], []);
        state, stop := Stopped(NotModelled), Overrun;
      } else if hdr.state == TableReader.Ready {
        StartSymbols();
      }
    }

    method StartSymbols()
      requires this in Repr && reader in Repr && 1 <= blockSize100k <= 9 && state == InTables
      requires hdr != null && hdr.Valid() && hdr.state == TableReader.Ready && hdr.max == 100000 * blockSize100k
      modifies this
      ensures Valid() && AtStart() && fresh(Repr - old(Repr)) && reader in Repr
      ensures forall rest ::
        Outcome(rest) == Resolved(old(blockSize100k), old(calculatedCombinedCRC), old(storedBlockCRC), old(origPtr), old(hdr.Outcome(rest)))
    {
      hide Resolved;
      hide TableReader.HeaderReader.Valid, SymbolReader.MtfReader.Valid, TableReader.HeaderReader.Outcome,
           SymbolReader.MtfReader.Outcome;
      var m := BeginSymbols(hdr, 100000 * blockSize100k);
      mtf, state := m, InSymbols;
      Repr := {this, reader, m, m.cells, m.unzftab, m.mtf.mtfa, m.mtf.mtfbase};
      SettleSymbols();
    }

    method FeedSymbols(v: nat)
      requires Valid() && state == InSymbols && v < Pow2(mtf.Need())
      modifies Repr - {reader}
      ensures Valid() && AtStart() && fresh(Repr - old(Repr)) && reader in Repr
      ensures forall rest :: Outcome(rest) == old(Outcome(BitsOf(v, mtf.Need()) + rest))
    {
      hide Resolved, BitsOf, Pow2;
      var m := mtf;
      m.Feed(v);
      SettleSymbols();
    }

    /** The symbols may have come to an end. */
    method SettleSymbols()
      requires Owned() && state == InSymbols && 1 <= blockSize100k <= 9
      requires mtf.Valid() && mtf.max == 100000 * blockSize100k
      modifies this, mtf.cells
      ensures Valid() && AtStart() && fresh(Repr - old(Repr)) && reader in Repr
      ensures forall rest ::
        Outcome(rest) == Resolved(old(blockSize100k), old(calculatedCombinedCRC), old(storedBlockCRC), old(origPtr), old(mtf.Outcome(rest)))
    {
      hide Resolved;
      if mtf.state == SymbolReader.Failed {
        ResolvedColumn(blockSize100k, calculatedCombinedCRC, storedBlockCRC, origPtr, [], []);
        state, stop := Stopped(DataErr), DataError;
      } else if mtf.state == SymbolReader.Done {
        mtf.Finished();
        StartOutput(mtf.cells, mtf.unzftab, mtf.nblock);
      }
    }

    /** The column is complete: check origPtr and build the tables of the inverse transform. */
    method StartOutput(cells: array<int>, unzftab: array<int>, nblock: nat)
      requires this in Repr && reader in Repr && cells in Repr && 1 <= blockSize100k <= 9
      requires nblock <= 100000 * blockSize100k <= cells.Length && unzftab != cells
      requires SymbolReader.Tallied(unzftab[..], cells[..nblock])
      modifies this, cells
      ensures Valid() && AtStart() && fresh(Repr - old(Repr)) && reader in Repr
      ensures forall rest ::
        Outcome(rest) == Resolved(old(blockSize100k), old(calculatedCombinedCRC), old(storedBlockCRC), old(origPtr),
                                  Got(old(cells[..nblock]), rest))
    {
      hide Resolved, Emitting, Walk, SymbolAfter, Spelt, SymbolReader.Tallied;
      hide DState.FastReady, DState.SmallReady, DState.Remaining, ReadMagic, ReadBlockMagic, ReadBlockCrc, ReadRandomised,
           ReadOrigin, ReadEndMagic, ReadEndCrc;
      forall rest { ResolvedColumn(blockSize100k, calculatedCombinedCRC, storedBlockCRC, origPtr, cells[..nblock], rest); }
      if origPtr >= nblock {
        state, stop := Stopped(DataErr), DataError;
        return;
      }
      var d := NewOutput(cells, unzftab, nblock);
      out, state, begun := d, InOutput, 0;
      Repr := {this, reader, cells, d, d.tt, d.ll16, d.ll4, d.cftab};
    }

    /** Put out what there is room for; when the block is finished its checksum is compared.
        Bytes are lost, written but not reported, only by the fast decoder, and only in the call
        in which it finds the block cut short: then all that it writes. */
    method EmitSome(availOut: nat) returns (w: seq<int>, ghost lost: seq<int>)
      requires Valid() && state == InOutput
      modifies Repr - {reader}
      ensures Valid() && Repr == old(Repr) && |w + lost| <= availOut
      ensures forall rest :: old(Outcome(rest)) == Then(w + lost, Outcome(rest))
      ensures if Cut() then |w + lost| == stop.bytes - old(begun) && (small ==> lost == []) && (!small ==> w == [])
              else lost == []
      ensures state == InOutput ==> |w| == availOut && forall rest :: StillToCome(Outcome(rest))
      ensures state == InOutput || state == BlockMagic || state.Stopped?
    {
      hide Emitting, Fold, Update, DState.FastReady, DState.SmallReady, DState.Remaining, Wrote, StillToCome, ReadMagic,
           ReadBlockMagic, ReadBlockCrc, ReadRandomised, ReadOrigin, ReadEndMagic, ReadEndCrc;
      var d := out;
      var corrupt;
      ghost var r0, crc0 := d.Remaining(), d.calculatedBlockCRC;
      w, lost, corrupt := WriteSome(availOut);
      assert w + [] == w;
      if corrupt {
        forall rest { CutShortThen(blockSize100k, calculatedCombinedCRC, storedBlockCRC, begun, w + lost, crc0, rest); }
        state, stop := Stopped(DataErr), BrokenOff(begun + |w + lost|);
        return;
      }
      WroteFollows(r0, w, availOut, d.Remaining());
      forall rest {
        EmittedSome(blockSize100k, calculatedCombinedCRC, storedBlockCRC, begun, r0, crc0, w, d.Remaining(), rest);
      }
      begun := begun + |w|;
      if d.nblockUsed == d.saveNblock + 1 && d.stateOutLen == 0 {
        EndBlock();
      } else {
        forall rest {
          MoreToEmit(blockSize100k, calculatedCombinedCRC, storedBlockCRC, begun, d.Remaining(), d.calculatedBlockCRC, rest);
        }
      }
    }

    /** All of the block has been put out. */
    method EndBlock()
      requires Valid() && state == InOutput && out.nblockUsed == out.saveNblock + 1 && out.stateOutLen == 0
      modifies this
      ensures Valid() && AtStart() && Repr == old(Repr) && (state == BlockMagic || state.Stopped?)
      ensures forall rest :: Outcome(rest) == old(Outcome(rest))
    {
      hide Emitting, DState.FastReady, DState.SmallReady, DState.Remaining, ReadBlockMagic, Finalised, Combine, Number;
      var d := out;
      d.Drained();
      forall rest {
        EmittedAll(blockSize100k, calculatedCombinedCRC, storedBlockCRC, begun, d.calculatedBlockCRC, rest);
      }
      var crc := Finalised(d.calculatedBlockCRC);
      if Number(crc) != storedBlockCRC {
        state, stop := Stopped(DataErr), DataError;
      } else {
        calculatedCombinedCRC := Combine(calculatedCombinedCRC, crc);
        state, k := BlockMagic, 0;
      }
    }

    method WriteSome(availOut: nat) returns (w: seq<int>, ghost lost: seq<int>, corrupt: bool)
      requires Valid() && state == InOutput
      modifies out
      ensures Valid() && out.Framed() && |w + lost| <= availOut
      ensures if corrupt then (small ==> lost == []) && (!small ==> w == []) else lost == []
      ensures corrupt ==> old(out.Remaining()) == Text(w + lost, false)
      ensures !corrupt ==> Wrote(old(out.Remaining()), w, availOut, out.Remaining())
      ensures !corrupt && out.Remaining() == Text([], true) ==> out.nblockUsed == out.saveNblock + 1 && out.stateOutLen == 0
      ensures !corrupt ==> out.calculatedBlockCRC == Fold(old(out.calculatedBlockCRC), w)
    {
      hide Fold, Update, DState.FastReady, DState.SmallReady, DState.Remaining, Wrote;
      ghost var r0 := out.Remaining();
      lost := [];
      if small {
        w, corrupt := out.UnRleSmall(availOut);
      } else {
        w, corrupt := out.UnRleFast(availOut);
        if corrupt { lost := r0.bytes; }
      }
      assert w + [] == w && [] + lost == lost;
    }

    method Needed() returns (n: nat)
      requires Valid() && state != InOutput && !state.Stopped?
      ensures n == Need() && 1 <= n <= 20
    {
      hide SymbolReader.MtfReader.Valid, TableReader.HeaderReader.Valid;
      if state == RandBit { n := 1; }
      else if state == InTables { n := hdr.Needed(); }
      else if state == InSymbols { n := mtf.Needed(); }
      else { n := 8; }
    }

    method Feed(v: nat, n: nat)
      requires Valid() && state != InOutput && !state.Stopped? && n == Need() && v < Pow2(n)
      modifies Repr - {reader}
      ensures Valid() && AtStart() && fresh(Repr - old(Repr)) && reader in Repr
      ensures forall rest :: Outcome(rest) == old(Outcome(BitsOf(v, n) + rest))
    {
      hide Valid, Outcome, BitsOf, Pow2;
      BytePowers();
      if state == RandBit { FeedRandBit(v); }
      else if state == InTables { FeedTables(v); }
      else if state == InSymbols { FeedSymbols(v); }
      else { FeedByte(v); }
    }

    /** Too few bits: the decoder has to wait for more. */
    lemma Starved(bits: seq<bool>)
      requires Valid() && state != InOutput && !state.Stopped? && |bits| < Need()
      ensures Outcome(bits) == Result([], More)
    {
      hide SymbolReader.MtfReader.Valid, TableReader.HeaderReader.Valid, Resolved, TableReader.HeaderReader.Outcome,
           SymbolReader.MtfReader.Outcome;
      ResolvedColumn(blockSize100k, calculatedCombinedCRC, storedBlockCRC, origPtr, [], bits);
      if state == InTables { hdr.Starved(bits); }
      if state == InSymbols { mtf.Starved(bits); }
    }

    /** One GET_BITS and what follows it, up to the next. */
    method Advance() returns (ok: bool)
      requires Valid() && reader.Valid() && state != InOutput && !state.Stopped?
      modifies Repr
      ensures Valid() && reader.Valid() && fresh(Repr - old(Repr)) && reader in Repr
      ensures AtStart()
      ensures forall future :: old(Outcome(reader.Ahead() + future)) == Outcome(reader.Ahead() + future)
      ensures ok ==> |reader.Ahead()| < old(|reader.Ahead()|)
      ensures !ok ==> reader.next == |reader.input| && Outcome(reader.Ahead()) == Result([], More)
      ensures !ok ==> Repr == old(Repr) && state == old(state) && reader.Ahead() == old(reader.Ahead())
    {
      hide Valid, Outcome, BitsOf, BytesBits, Pow2;
      var n := Needed();
      var v;
      ghost var before := reader.Ahead();
      StaysValid();
      label L:
      ok, v := GetFrom(n);
      if ok {
        assert forall future :: before + future == BitsOf(v, n) + (reader.Ahead() + future);
        Feed(v, n);
      } else {
        Starved(reader.Ahead());
      }
    }

    lemma StoppedOutcome(bits: seq<bool>)
      requires Valid() && state.Stopped?
      ensures Outcome(bits) == Result([], stop)
    {
    }

    lemma StaysValid()
      requires Valid()
      ensures this in Repr && reader in Repr && (state.Stopped? ==> stop != More && state.ret == Verdict(stop))
    {
    }

    /** GET_BITS on the decoder's own reader leaves the rest of its state alone. */
    method GetFrom(n: nat) returns (ok: bool, v: nat)
      requires Valid() && reader.Valid() && n <= 24
      modifies reader
      ensures Valid() && reader.Valid() && Need() == old(Need())
      ensures forall bits :: Outcome(bits) == old(Outcome(bits))
      ensures ok ==> v < Pow2(n) && old(reader.Ahead()) == BitsOf(v, n) + reader.Ahead()
      ensures !ok ==> reader.Ahead() == old(reader.Ahead()) && reader.next == |reader.input| && |reader.Ahead()| < n
    {
      hide BitsOf, BytesBits, Pow2, Valid, Outcome, Need;
      StaysValid();
      ok, v := reader.GetBits(n);
    }

    /** BZ2_bzDecompress: use what input there is and what room there is for output.  What the
        decoder made of the input before the call is the bytes written now followed by what it
        makes of the rest, whatever input is still to come.  The verdict Ok means that it waits
        for input, or that the room is used up and there is more to come: never that it has yet
        to find the end.  Only where the fast decoder finds a block cut short, bytes can be
        lost: they have been written but are not reported. */
    method BzDecompress(availOut: nat) returns (w: seq<int>, ret: Return, ghost lost: seq<int>)
      requires Valid() && reader.Valid() && !state.Stopped?
      modifies Repr
      ensures Valid() && reader.Valid() && fresh(Repr - old(Repr)) && |w + lost| <= availOut
      ensures forall future :: old(Outcome(reader.Ahead() + future)) == Then(w + lost, Outcome(reader.Ahead() + future))
      ensures if Cut() then Loses(stop.bytes, small, w, lost) else lost == []
      ensures ret == Ok <==> !state.Stopped?
      ensures ret == Ok ==> (reader.next == |reader.input| && Outcome(reader.Ahead()) == Result([], More))
                            || (|w| == availOut && forall rest :: StillToCome(Outcome(rest)))
      ensures ret != Ok ==> stop != More && ret == Verdict(stop)
    {
      hide Valid, Outcome, BytesBits, Then, StillToCome, BitReader.Valid, BitReader.Ahead;
      w, lost := [], [];
      forall future { ThenThen([], [], Outcome(reader.Ahead() + future)); }
      StaysValid();
      while true
        invariant Valid() && reader.Valid() && !state.Stopped? && fresh(Repr - old(Repr)) && reader in Repr
        invariant |w| <= availOut && lost == [] && (w == [] || AtStart())
        invariant forall future :: old(Outcome(reader.Ahead() + future)) == Then(w, Outcome(reader.Ahead() + future))
        decreases |reader.Ahead()|, if state == InOutput then 1 else 0
      {
        if state == InOutput {
          var more;
          more, lost := EmitSome(availOut - |w|);
          StaysValid();
          forall future { ThenThen(w, more + lost, Outcome(reader.Ahead() + future)); }
          assert w + (more + lost) == (w + more) + lost;
          w := w + more;
          assert w + [] == w;
          if state == InOutput { return w, Ok, lost; }
        } else {
          var ok := Advance();
          assert w + [] == w;
          if !ok { return w, Ok, lost; }
        }
        if state.Stopped? { break; }
      }
      StaysValid();
      ret := state.ret;
    }

    /** New input for the decoder. */
    method Supply(chunk: seq<int>)
      requires Valid() && reader.Valid() && forall i :: 0 <= i < |chunk| ==> 0 <= chunk[i] < 256
      modifies reader
      ensures Valid() && reader.Valid() && reader.Ahead() == old(reader.Ahead()) + BytesBits(chunk)
      ensures forall bits :: Outcome(bits) == old(Outcome(bits))
    {
      hide BytesBits, Valid, Outcome;
      StaysValid();
      reader.Supply(chunk);
    }

    method NewOutput(cells: array<int>, unzftab: array<int>, nblock: nat) returns (d: DState)
      requires origPtr < nblock <= 100000 * blockSize100k && blockSize100k <= 9 && nblock <= cells.Length && unzftab != cells
      requires SymbolReader.Tallied(unzftab[..], cells[..nblock])
      modifies cells
      ensures fresh(d) && (if small then d.SmallReady() else d.FastReady())
      ensures fresh({d, d.tt, d.ll16, d.ll4, d.cftab} - {cells})
      ensures d.Remaining() == Spelt(Walk(old(cells[..nblock]), origPtr, nblock), SymbolAfter(old(cells[..nblock]), origPtr, nblock))
      ensures d.calculatedBlockCRC == INITIAL
    {
      hide Walk, SymbolAfter, Spelt, CountEq, CountLt, IsColumn;
      if small {
        var ll4 := new int[(1 + cells.Length) / 2](_ => 0);
        d := new DState.StartSmall(cells, ll4, unzftab, nblock, origPtr, blockSize100k);
      } else {
        d := new DState.StartFast(cells, unzftab, nblock, origPtr, blockSize100k);
      }
    }
  }

  /** The bytes of all calls, one after the other. */
  ghost function Flat(outs: seq<seq<int>>): seq<int> {
    if |outs| == 0 then [] else Flat(outs[..|outs| - 1]) + outs[|outs| - 1]
  }

  ghost predicate AllBytes(chunks: seq<seq<int>>) {
    forall i :: 0 <= i < |chunks| ==> ByteString(chunks[i])
  }

  /** The pieces of the input, put together. */
  lemma {:induction false} FlatBytes(chunks: seq<seq<int>>)
    requires AllBytes(chunks)
    ensures ByteString(Flat(chunks))
  {
    if |chunks| > 0 { FlatBytes(chunks[..|chunks| - 1]); }
  }

  ghost function Concat(chunks: seq<seq<int>>): (s: seq<int>)
    requires AllBytes(chunks)
    ensures ByteString(s)
  {
    FlatBytes(chunks);
    Flat(chunks)
  }

  lemma NoneYet(chunks: seq<seq<int>>)
    requires AllBytes(chunks)
    ensures AllBytes(chunks[..0]) && BytesBits(Concat(chunks[..0])) == []
  {
    NoBytes();
  }

  /** One piece of the input more. */
  lemma OneChunkMore(chunks: seq<seq<int>>, i: nat)
    requires AllBytes(chunks) && i < |chunks|
    ensures AllBytes(chunks[..i]) && AllBytes(chunks[..i + 1]) && ByteString(chunks[i])
    ensures BytesBits(Concat(chunks[..i + 1])) == BytesBits(Concat(chunks[..i])) + BytesBits(chunks[i])
  {
    hide BytesBits;
    assert chunks[..i + 1] == chunks[..i] + [chunks[i]];
    FlatMore(chunks[..i], chunks[i]);
    BytesConcat(Concat(chunks[..i]), chunks[i]);
  }

  /** The bits of the pieces from i on. */
  lemma {:induction false} ChunksLeft(chunks: seq<seq<int>>, i: nat) returns (left: seq<bool>)
    requires AllBytes(chunks) && i <= |chunks|
    ensures AllBytes(chunks[..i]) && BytesBits(Concat(chunks)) == BytesBits(Concat(chunks[..i])) + left
    decreases |chunks| - i
  {
    hide BytesBits, Concat;
    if i == |chunks| {
      assert chunks[..i] == chunks;
      left := [];
    } else {
      OneChunkMore(chunks, i);
      var l := ChunksLeft(chunks, i + 1);
      left := BytesBits(chunks[i]) + l;
    }
  }

  /** What is lost belongs to the block that breaks off, for which n bytes have been put out: all
      of that block the call has written. */
  ghost predicate Loses(n: nat, small: bool, w: seq<int>, lost: seq<int>) {
    |lost| <= n && if small then lost == [] else |lost| == n || w == []
  }

  /** The bytes of the last call. */
  ghost function Last(outs: seq<seq<int>>): seq<int> { if |outs| == 0 then [] else outs[|outs| - 1] }

  /** The verdict and the bytes received are those of the whole stream, all; after the verdict Ok
      the bytes are the first of them. */
  ghost predicate Received(all: Result, small: bool, outs: seq<seq<int>>, lost: seq<int>, ret: Return) {
    && (ret != DataErr || all.stop == DataError ==> lost == [])
    && match ret
       case Ok => Flat(outs) <= all.out
       case StreamEnd => all == Result(Flat(outs), End)
       case DataErr =>
         && all.out == Flat(outs) + lost
         && (all.stop == DataError || (all.stop.BrokenOff? && Loses(all.stop.bytes, small, Last(outs), lost)))
       case DataErrMagic => all == Result(Flat(outs), MagicError)
       case NotModelled => all == Result(Flat(outs), Randomised) || all == Result(Flat(outs), Overrun)
  }

  /** After a call that was answered Ok: the bytes so far, total, are the first of those of the
      input so far, and either they are all and the stream goes on, or the room given to the call
      is used up and there is more to come. */
  ghost predicate Pending(sofar: Result, total: seq<int>, full: bool) {
    && total <= sofar.out
    && (sofar == Result(total, More) || (full && (total < sofar.out || sofar.stop.BrokenOff?)))
  }

  /** Call k was answered so. */
  ghost predicate Answered(chunks: seq<seq<int>>, outs: seq<seq<int>>, rooms: seq<nat>, k: nat)
    requires AllBytes(chunks) && k < |outs| <= |chunks| == |rooms|
  {
    Pending(Decode(BytesBits(Concat(chunks[..k + 1]))), Flat(outs[..k + 1]), |outs[k]| == rooms[k])
  }

  /** A caller that hands over the input in any pieces, with room for any number of bytes each
      time; outs is what each call wrote.  The bytes it receives and the verdict are those of
      decoding the input at once, whatever may follow it and whichever of the two decoders is
      used.  A call is answered Ok only if all that the input so far is decoded to has been
      written, or if there is no room for the next byte of it.  The only bytes that depend on
      the pieces are those of a block that breaks off before a count: the fast decoder loses
      what it writes of it in its last call. */
  method InPieces(small: bool, chunks: seq<seq<int>>, rooms: seq<nat>)
    returns (outs: seq<seq<int>>, ret: Return, ghost lost: seq<int>)
    requires |chunks| == |rooms| && AllBytes(chunks)
    ensures |outs| <= |rooms| && Within(outs, lost, rooms)
    ensures forall future :: Received(Decode(BytesBits(Concat(chunks)) + future), small, outs, lost, ret)
    ensures ret == Ok ==> |outs| == |rooms|
    ensures forall k :: 0 <= k < |outs| && (k < |outs| - 1 || ret == Ok) ==> Answered(chunks, outs, rooms, k)
  {
    hide Decode, BytesBits, Decompressor.Valid, Decompressor.Outcome, Flat, Then, Received, Concat, AllBytes, Within, Pending,
         Answered, StillToCome, Loses, Last;
    var d := new Decompressor(small);
    outs, ret, lost := [], Ok, [];
    NoneYet(chunks);
    NoOuts(rooms);
    forall future ensures Decode(BytesBits(Concat(chunks[..0])) + future) == Then(Flat(outs), d.Outcome(d.reader.Ahead() + future)) {
      ThenThen([], [], Decode(future));
      assert [] + future == future;
    }
    for i := 0 to |chunks|
      invariant d.Valid() && d.reader.Valid() && !d.state.Stopped? && fresh(d.Repr) && d.reader in d.Repr
      invariant ret == Ok && lost == [] && d.small == small
      invariant |outs| == i && Within(outs, lost, rooms) && AllBytes(chunks[..i])
      invariant forall future ::
        Decode(BytesBits(Concat(chunks[..i])) + future) == Then(Flat(outs), d.Outcome(d.reader.Ahead() + future))
      invariant forall k :: 0 <= k < i ==> Answered(chunks, outs, rooms, k)
    {
      OneChunkMore(chunks, i);
      ghost var before, here, sofar := BytesBits(Concat(chunks[..i])), BytesBits(chunks[i]), BytesBits(Concat(chunks[..i + 1]));
      label L:
      var w;
      w, ret, lost := OnePiece(d, chunks[i], rooms[i]);
      forall future ensures Decode(sofar + future) == Then(Flat(outs) + (w + lost), d.Outcome(d.reader.Ahead() + future)) {
        assert sofar + future == before + (here + future);
        assert old@L(d.reader.Ahead()) + (here + future) == (old@L(d.reader.Ahead()) + here) + future;
        ThenThen(Flat(outs), w + lost, d.Outcome(d.reader.Ahead() + future));
      }
      OneOutMore(outs, w, lost, rooms);
      AnsweredStill(chunks, outs, w, rooms);
      if ret != Ok {
        ghost var left := ChunksLeft(chunks, i + 1);
        forall future ensures Received(Decode(BytesBits(Concat(chunks)) + future), small, outs + [w], lost, ret) {
          assert BytesBits(Concat(chunks)) + future == sofar + (left + future);
          ReceivedAll(Decode(sofar + (left + future)), small, outs, w, lost, ret, d.stop);
        }
        outs := outs + [w];
        return;
      }
      assert sofar + [] == sofar && d.reader.Ahead() + [] == d.reader.Ahead() && w + lost == w;
      StillPending(Decode(sofar), Flat(outs) + w, d.Outcome(d.reader.Ahead()), |w| == rooms[i]);
      AnsweredNow(chunks, outs, w, rooms);
      outs := outs + [w];
    }
    assert chunks[..|chunks|] == chunks;
    forall future ensures Received(Decode(BytesBits(Concat(chunks)) + future), small, outs, lost, ret) {
      ReceivedSome(Decode(BytesBits(Concat(chunks)) + future), small, outs, d.Outcome(d.reader.Ahead() + future));
    }
  }

  /** Some input and a call. */
  method OnePiece(d: Decompressor, chunk: seq<int>, room: nat) returns (w: seq<int>, ret: Return, ghost lost: seq<int>)
    requires d.Valid() && d.reader.Valid() && !d.state.Stopped? && d.reader in d.Repr && ByteString(chunk)
    modifies d.Repr
    ensures d.Valid() && d.reader.Valid() && fresh(d.Repr - old(d.Repr)) && d.reader in d.Repr && |w + lost| <= room
    ensures forall later ::
      old(d.Outcome((d.reader.Ahead() + BytesBits(chunk)) + later)) == Then(w + lost, d.Outcome(d.reader.Ahead() + later))
    ensures ret == Ok ==> !d.state.Stopped? && lost == []
                          && (d.Outcome(d.reader.Ahead()) == Result([], More)
                              || (|w| == room && StillToCome(d.Outcome(d.reader.Ahead()))))
    ensures ret != Ok ==> d.state.Stopped? && d.stop != More && ret == Verdict(d.stop)
                          && if d.stop.BrokenOff? then Loses(d.stop.bytes, d.small, w, lost) else lost == []
    ensures ret != Ok ==> forall later :: d.Outcome(d.reader.Ahead() + later) == Result([], d.stop)
  {
    hide BytesBits, Decompressor.Valid, Decompressor.Outcome, Then, StillToCome, Loses;
    d.Supply(chunk);
    w, ret, lost := d.BzDecompress(room);
    d.StaysValid();
    if ret != Ok {
      forall later { d.StoppedOutcome(d.reader.Ahead() + later); }
    }
  }

  lemma ReceivedAll(all: Result, small: bool, outs: seq<seq<int>>, w: seq<int>, lost: seq<int>, ret: Return, stop: Stop)
    requires all == Then(Flat(outs) + (w + lost), Result([], stop)) && stop != More && ret == Verdict(stop)
    requires if stop.BrokenOff? then Loses(stop.bytes, small, w, lost) else lost == []
    ensures Received(all, small, outs + [w], lost, ret)
  {
    FlatMore(outs, w);
    hide Flat;
    Associate(Flat(outs), w, lost);
    assert (Flat(outs) + (w + lost)) + [] == Flat(outs) + (w + lost);
    if lost == [] { assert w + lost == w; }
  }

  lemma ReceivedSome(all: Result, small: bool, outs: seq<seq<int>>, r: Result)
    requires all == Then(Flat(outs), r)
    ensures Received(all, small, outs, [], Ok)
  {
  }

  lemma StillPending(sofar: Result, total: seq<int>, r: Result, full: bool)
    requires sofar == Then(total, r) && (r == Result([], More) || (full && StillToCome(r)))
    ensures Pending(sofar, total, full)
  {
    assert total + [] == total;
  }

  /** The answers of earlier calls. */
  lemma AnsweredStill(chunks: seq<seq<int>>, outs: seq<seq<int>>, w: seq<int>, rooms: seq<nat>)
    requires AllBytes(chunks) && |outs| < |chunks| == |rooms|
    requires forall k :: 0 <= k < |outs| ==> Answered(chunks, outs, rooms, k)
    ensures forall k :: 0 <= k < |outs| ==> Answered(chunks, outs + [w], rooms, k)
  {
    hide Pending, Flat, Concat, Decode;
    forall k | 0 <= k < |outs| ensures Answered(chunks, outs + [w], rooms, k) {
      assert Answered(chunks, outs, rooms, k);
      assert (outs + [w])[..k + 1] == outs[..k + 1];
    }
  }

  lemma AnsweredNow(chunks: seq<seq<int>>, outs: seq<seq<int>>, w: seq<int>, rooms: seq<nat>)
    requires AllBytes(chunks) && |outs| < |chunks| == |rooms|
    requires AllBytes(chunks[..|outs| + 1])
    requires Pending(Decode(BytesBits(Concat(chunks[..|outs| + 1]))), Flat(outs) + w, |w| == rooms[|outs|])
    ensures Answered(chunks, outs + [w], rooms, |outs|)
  {
    hide Pending, Flat, Concat, Decode;
    FlatMore(outs, w);
    assert (outs + [w])[..|outs| + 1] == outs + [w];
  }

  /** No call writes more than there is room for. */
  ghost predicate Within(outs: seq<seq<int>>, lost: seq<int>, rooms: seq<nat>)
    requires |outs| <= |rooms|
  {
    && (forall k :: 0 <= k < |outs| ==> |outs[k]| <= rooms[k])
    && (lost != [] ==> |outs| > 0 && |Last(outs) + lost| <= rooms[|outs| - 1])
  }

  lemma NoOuts(rooms: seq<nat>)
    ensures Flat([]) == [] && Within([], [], rooms)
  {
  }

  lemma OneOutMore(outs: seq<seq<int>>, w: seq<int>, lost: seq<int>, rooms: seq<nat>)
    requires |outs| < |rooms| && Within(outs, [], rooms) && |w + lost| <= rooms[|outs|]
    ensures Within(outs + [w], lost, rooms) && Flat(outs + [w]) == Flat(outs) + w
  {
    FlatMore(outs, w);
    hide Flat;
    forall k | 0 <= k < |outs| + 1 ensures |(outs + [w])[k]| <= rooms[k] {
      if k < |outs| { assert (outs + [w])[k] == outs[k]; }
    }
  }

  lemma FlatMore(outs: seq<seq<int>>, w: seq<int>)
    ensures Flat(outs + [w]) == Flat(outs) + w
  {
    assert (outs + [w])[..|outs|] == outs;
  }

  lemma Associate(a: seq<int>, b: seq<int>, c: seq<int>)
    ensures (a + b) + c == a + (b + c)
  {
  }

  lemma BytePowers()
    ensures Pow2(1) == 2 && Pow2(8) == 256
  {
    PowersOfTwo();
  }

  lemma CutShortThen(level: nat, combined: CrcWord, stored: nat, begun: nat, w: seq<int>, crc: CrcWord, bits: seq<bool>)
    ensures Emitting(level, combined, stored, begun, Text(w, false), crc, bits)
         == Then(w, Result([], BrokenOff(begun + |w|)))
  {
    assert w + [] == w;
  }

  /** There are more bytes to come, or the block breaks off. */
  ghost predicate StillToCome(r: Result) { r.out != [] || r.stop.BrokenOff? }

  lemma MoreToEmit(level: nat, combined: CrcWord, stored: nat, begun: nat, r: Text, crc: CrcWord, bits: seq<bool>)
    requires r != Text([], true)
    ensures StillToCome(Emitting(level, combined, stored, begun, r, crc, bits))
  {
    hide AfterBlock;
  }

  lemma WroteFollows(r0: Text, w: seq<int>, avail: nat, r1: Text)
    requires Wrote(r0, w, avail, r1)
    ensures Follows(r0, w, r1) && (|w| == avail || r1 == Text([], true))
  {
  }

  /** The tables are known: the symbols follow. */
  method BeginSymbols(hdr: TableReader.HeaderReader, max: nat) returns (m: SymbolReader.MtfReader)
    requires hdr.Valid() && hdr.state == TableReader.Ready && hdr.max == max
    ensures fresh({m, m.cells, m.unzftab, m.mtf.mtfa, m.mtf.mtfbase})
    ensures m.Valid() && m.max == max && forall rest :: m.Outcome(rest) == hdr.Outcome(rest)
  {
    hide UsedBytes, TablesFor, ReadData;
    var cells := new int[max];
    m := new SymbolReader.MtfReader(max, hdr.seqToUnseq, hdr.selector[..hdr.nSelectors], hdr.tables, cells, hdr.H(), hdr.tops);
  }

  lemma NextByte(uc: nat)
    requires uc < 256
    ensures forall rest :: var b := BitsOf(uc, 8) + rest; |b| >= 8 && Val(b[..8]) == uc && b[8..] == rest
  {
    hide Val, BitsOf;
    ByteValue(uc);
    assert forall rest :: (BitsOf(uc, 8) + rest)[..8] == BitsOf(uc, 8);
  }
}
