/** BZ2_blockSort (blocksort.c) with its choice between the two sorters, and the encoding of one block
    (compress.c, BZ2_compressBlock): sort, move-to-front, Huffman, bits. */
module BlockEncode {
  import MainOrder
  import MainRadix
  import opened Bits
  import opened Counting
  import opened Rotations
  import opened InverseTransform
  import opened RunLength
  import opened BlockCrc
  import opened Mtf
  import opened MtfEncode
  import opened BlockFormat
  import opened BlockRoundTrip
  import opened BitStream
  import opened SelectTables
  import opened SendMtf
  import opened StreamFormat
  import opened OutputFits
  import Fallback = FallbackSort
  import Main = MainSort
  import opened BlockFill

  method FindOrigin(ptr: array<int>, nblock: nat) returns (origPtr: nat)
    requires IsPermutation(ptr[..], nblock) && nblock > 0
    ensures origPtr < nblock <= ptr.Length && ptr[origPtr] == 0
  {
    PermutationOnto(ptr[..], nblock, 0);
    var i := 0;
    while ptr[i] != 0
      invariant 0 <= i < nblock && forall k :: 0 <= k < i ==> ptr[k] != 0
      decreases nblock - i
    {
      i := i + 1;
    }
    origPtr := i;
  }

  method SortByRadix(ptr: array<int>, block: array<int>, nblock: nat)
    requires 0 < nblock == ptr.Length <= block.Length && nblock <= 900000 && IsColumn(block[..nblock]) && ptr != block
    modifies ptr, block
    ensures SortedRotations(block[..nblock], ptr[..]) && block[..nblock] == old(block[..nblock])
  {
    hide IsColumn;
    var eclass := new int[nblock];
    var bhtab := new bool[32 * (nblock / 32 + 4)];
    Fallback.FallbackSort(ptr, eclass, block, bhtab, nblock);
  }

  /** The work factor decides how much mainSort may do. */
  function Budget(nblock: nat, workFactor: int): nat {
    var wfact := if workFactor < 1 then 1 else if workFactor > 100 then 100 else workFactor;
    nblock * ((wfact - 1) / 3)
  }

  /** mainSort on arrays of its own, within its budget. */
  method SortByBuckets(ptr: array<int>, block: array<int>, nblock: nat, workFactor: int) returns (budget: int)
    requires 10000 <= nblock == ptr.Length && nblock <= 900000 && nblock + MainOrder.OVERSHOOT <= block.Length
    requires IsColumn(block[..nblock]) && ptr != block
    modifies ptr, block
    ensures block[..nblock] == old(block[..nblock]) && (budget >= 0 ==> SortedRotations(block[..nblock], ptr[..]))
  {
    var quadrant, ftab := new int[nblock + MainOrder.OVERSHOOT], new int[MainRadix.SMALL_BUCKETS + 1];
    budget := Main.MainSort(ptr, block, quadrant, ftab, nblock, Budget(nblock, workFactor), 0);
  }

  /** BZ2_blockSort: small blocks, and blocks that are too repetitive for mainSort, go to the
      fallback sorter. */
  method BlockSort(block: array<int>, nblock: nat, workFactor: int) returns (ptr: array<int>, origPtr: nat)
    requires 0 < nblock && nblock + MainOrder.OVERSHOOT <= block.Length && nblock <= 900000 && IsColumn(block[..nblock])
    modifies block
    ensures fresh(ptr) && SortedRotations(block[..nblock], ptr[..]) && ptr.Length == nblock
    ensures origPtr < nblock && ptr[origPtr] == 0
    ensures block[..nblock] == old(block[..nblock])
  {
    hide IsColumn, SortedRotations;
    ptr := new int[nblock];
    if nblock < 10000 {
      SortByRadix(ptr, block, nblock);
    } else {
      var budget := SortByBuckets(ptr, block, nblock, workFactor);
      if budget < 0 {
        SortByRadix(ptr, block, nblock);
      }
    }
    SortedPermutes(block[..nblock], ptr[..]);
    origPtr := FindOrigin(ptr, nblock);
  }

  lemma SortedPermutes(b: seq<int>, ptr: seq<int>)
    requires SortedRotations(b, ptr)
    ensures IsPermutation(ptr, |b|)
  {
  }

  /** The block holds bytes in use only. */
  ghost predicate UsesOnly(b: seq<int>, used: seq<bool>) {
    |used| == 256 && IsColumn(b) && forall k :: 0 <= k < |b| ==> used[b[k]]
  }

  /** Every byte of the last column is a byte of the block. */
  lemma ColumnUsed(b: seq<int>, ptr: seq<int>, used: seq<bool>)
    requires IsPermutation(ptr, |b|) && UsesOnly(b, used)
    ensures IsColumn(LastColumn(b, ptr))
    ensures forall i :: 0 <= i < |b| ==> used[LastColumn(b, ptr)[i]]
  {
    var col := LastColumn(b, ptr);
    forall i | 0 <= i < |b| ensures 0 <= col[i] < 256 && used[col[i]] {
      assert col[i] == b[Pred(|b|, ptr[i])];
    }
  }

  /** What a described block holds. */
  lemma DescribedBlock(bytes: seq<int>, used: seq<bool>, crc: CrcWord, runs: seq<Run>)
    requires Describes(bytes, used, crc, runs) && Separated(runs)
    ensures UsesOnly(bytes, used)
    ensures Expand(bytes) == Some(Flatten(runs)) && crc == Fold(INITIAL, Flatten(runs))
  {
    hide Fold, Expand, EncodeRuns;
    EncodedBytes(runs);
    ExpandUndoesEncode(runs);
  }

  /** The tokens are those of a block in the format. */
  lemma TokensAreBlock(used: seq<bool>, col: seq<int>, toks: seq<int>)
    requires |used| == 256 && IsColumn(col) && |col| > 0 && forall i :: 0 <= i < |col| ==> used[col[i]]
    requires AllIn(Numbered(used, col), Identity(|UsedBytes(used, 256)|))
    requires toks == Tokens(RanksOf(Identity(|UsedBytes(used, 256)|), Numbered(used, col)), |UsedBytes(used, 256)| + 1)
    requires |UsedBytes(used, 256)| >= 1
    ensures AllIn(col, UsedBytes(used, 256)) && toks == ColumnTokens(used, col)
    ensures BlockTokens(toks, InUse(used) + 2)
  {
    hide RanksOf, Tokens, UsedBytes, AllIn;
    ColumnRanks(used, col);
    TokensShape(RanksOf(UsedBytes(used, 256), col), |UsedBytes(used, 256)|);
  }

  /** The coded block, if its parts are as they should be. */
  lemma CodedBlock(level: nat, h: Header, b: seq<int>, ptr: seq<int>, orig: nat, raw: seq<int>, toks: seq<int>) returns (c: Coded)
    requires SortedRotations(b, ptr) && orig < |b| && ptr[orig] == 0 && |b| <= 100000 * level <= 900000
    requires Expand(b) == Some(raw) && Writable(h) && TokensFor(h, toks)
    requires AllIn(LastColumn(b, ptr), UsedBytes(h.used, 256)) && toks == ColumnTokens(h.used, LastColumn(b, ptr))
    ensures c == Coded(h, LastColumn(b, ptr), orig, raw) && GoodBlock(level, c)
  {
    hide Expand, Walk, RanksOf, Tokens, UsedBytes, LastColumn, Writable, TokenBits;
    InverseUndoesSort(b, ptr, orig);
    c := Coded(h, LastColumn(b, ptr), orig, raw);
    TokensCount(h, toks);
  }

  lemma TokensCount(h: Header, toks: seq<int>)
    requires TokensFor(h, toks)
    ensures |toks| <= G_SIZE * |h.sel|
  {
  }

  function Half(w: int, k: nat): int { if k == 0 then w % 0x1_0000 else w / 0x1_0000 }

  lemma SeenAsHalves(f: seq<int>, halves: seq<int>)
    requires |halves| == 2 * |f| && forall k :: 0 <= k < |halves| ==> halves[k] == Half(f[k / 2], k % 2)
    ensures WordsFrom(halves, f, 0)
  {
    forall k | 0 <= k < |f| ensures WordAt(halves, k) == f[k] {
      assert halves[2 * k] == Half(f[2 * k / 2], 2 * k % 2) && halves[2 * k + 1] == Half(f[(2 * k + 1) / 2], (2 * k + 1) % 2);
    }
  }

  /** The sorted block becomes tokens. */
  method TokensOf(ptr: array<int>, block: array<int>, inUse: array<bool>, nblock: nat)
    returns (nInUse: nat, toks: seq<int>, freq: seq<int>)
    requires 0 < nblock == ptr.Length <= block.Length && inUse.Length == 256
    requires IsPermutation(ptr[..], nblock) && UsesOnly(block[..nblock], inUse[..])
    ensures nInUse == InUse(inUse[..]) >= 1 && |toks| <= nblock + 1
    ensures AllIn(LastColumn(block[..nblock], ptr[..]), UsedBytes(inUse[..], 256))
    ensures toks == ColumnTokens(inUse[..], LastColumn(block[..nblock], ptr[..]))
    ensures BlockTokens(toks, nInUse + 2) && Counted(freq, toks, nInUse + 2)
  {
    hide IsPermutation, IsColumn, LastColumn, Numbered, Counted, AllIn, RanksOf, UsedBytes, Tokens, Identity, ColumnTokens,
         BlockTokens;
    var unseqToSeq, mtfFreq := new int[256], new int[258];
    // the memory of ptr, seen as halves
    var arr1 := new int[2 * nblock](k requires 0 <= k < 2 * nblock reads ptr => Half(ptr[k / 2], k % 2));
    SeenAsHalves(ptr[..], arr1[..]);
    ghost var b, f, used := block[..nblock], ptr[..], inUse[..];
    ColumnUsed(b, f, used);
    forall k | 0 <= k < nblock ensures 0 <= block[k] < 256 && inUse[block[k]] {
      BlockByte(b, used, k);
      assert b[k] == block[k];
    }
    var nMTF;
    nInUse, nMTF := GenerateMtfValues(f, arr1, block, inUse, nblock, unseqToSeq, mtfFreq);
    toks, freq := arr1[..nMTF], mtfFreq[..];
    assert block[..nblock] == b && ptr[..] == f && inUse[..] == used;
    TokensAreBlock(used, LastColumn(b, f), toks);
  }

  lemma BlockByte(b: seq<int>, used: seq<bool>, k: nat)
    requires UsesOnly(b, used) && k < |b|
    ensures 0 <= b[k] < 256 && used[b[k]]
  {
  }

  method SortBlock(block: array<int>, inUse: array<bool>, nblock: nat, workFactor: int)
    returns (ghost ptr: seq<int>, origPtr: nat, nInUse: nat, toks: seq<int>, freq: seq<int>)
    requires 0 < nblock && nblock + MainOrder.OVERSHOOT <= block.Length && nblock <= 900000 && inUse.Length == 256
    requires UsesOnly(block[..nblock], inUse[..])
    modifies block
    ensures block[..nblock] == old(block[..nblock])
    ensures SortedRotations(block[..nblock], ptr) && IsPermutation(ptr, nblock)
    ensures origPtr < nblock && |ptr| == nblock && ptr[origPtr] == 0
    ensures nInUse == InUse(inUse[..]) >= 1 && |toks| <= nblock + 1
    ensures AllIn(LastColumn(block[..nblock], ptr), UsedBytes(inUse[..], 256))
    ensures toks == ColumnTokens(inUse[..], LastColumn(block[..nblock], ptr))
    ensures BlockTokens(toks, nInUse + 2) && Counted(freq, toks, nInUse + 2)
  {
    hide IsColumn, SortedRotations, Counted, AllIn, UsedBytes, ColumnTokens, BlockTokens, LastColumn, IsPermutation;
    ghost var b := block[..nblock];
    var order;
    order, origPtr := BlockSort(block, nblock, workFactor);
    ptr := order[..];
    SortedPermutes(b, ptr);
    nInUse, toks, freq := TokensOf(order, block, inUse, nblock);
  }

  method SendBlock(w: BitWriter, blockCRC: CrcWord, origPtr: nat, toks: seq<int>, freq: seq<int>, inUse: seq<bool>, nInUse: nat)
    returns (ghost h: Header)
    requires |inUse| == 256 && nInUse == InUse(inUse) >= 1 && w.Valid() && origPtr < 900000
    requires BlockTokens(toks, nInUse + 2) && Counted(freq, toks, nInUse + 2) && |toks| <= 900001
    modifies w
    ensures w.Valid() && Writable(h) && h.used == inUse && TokensFor(h, toks)
    ensures w.Bits() == old(w.Bits()) + (BlockStart(blockCRC, origPtr) + BlockBits(h, toks))
  {
    hide Counted, UsedBytes, BlockTokens, Writable, TokensFor, BlockBits, BlockStart, BitWriter.Bits, BitWriter.Valid;
    SendBlockStart(w, blockCRC, origPtr);
    h := SendMtfValues(w, toks, freq, inUse, nInUse);
    Joined(old(w.Bits()), BlockStart(blockCRC, origPtr), BlockBits(h, toks));
  }

  /** The part of BZ2_compressBlock for a block with something in it: the block is sorted,
      coded and written, and can be read back as the bytes it stands for. */
  method EncodeBlock(w: BitWriter, block: array<int>, inUse: array<bool>, nblock: nat, blockCRC: CrcWord, level: nat, workFactor: int,
                     ghost runs: seq<Run>) returns (ghost c: Coded)
    requires w.Valid() && 0 < nblock && nblock + MainOrder.OVERSHOOT <= block.Length && nblock <= 100000 * level <= 900000
    requires inUse.Length == 256 && Separated(runs) && Describes(block[..nblock], inUse[..], blockCRC, runs)
    modifies w, block
    ensures w.Valid() && GoodBlock(level, c) && c.raw == Flatten(runs)
    ensures w.Bits() == old(w.Bits()) + BlockStream(level, c)
    ensures |BlockStream(level, c)| <= OVERHEAD_BITS + 20 * (nblock + 1)
    ensures block[..nblock] == old(block[..nblock])
  {
    hide Describes, IsColumn, SortedRotations, Counted, AllIn, UsedBytes, ColumnTokens, BlockTokens, Writable, TokensFor,
         BlockBits, Expand, Flatten, GoodBlock, LastColumn, IsPermutation, Separated, UsesOnly, BlockStart, BlockStream,
         BitWriter.Bits, BitWriter.Valid;
    ghost var b, used := block[..nblock], inUse[..];
    DescribedBlock(b, used, blockCRC, runs);
    ghost var ptr;
    var origPtr, nInUse, toks, freq;
    ptr, origPtr, nInUse, toks, freq := SortBlock(block, inUse, nblock, workFactor);
    ghost var h := SendBlock(w, blockCRC, origPtr, toks, freq, inUse[..], nInUse);
    c := CodedBlock(level, h, b, ptr, origPtr, Flatten(runs), toks);
    StreamParts(level, c, blockCRC, origPtr, toks);
    StreamSize(level, c);
  }

  lemma Joined(a: seq<bool>, b: seq<bool>, c: seq<bool>)
    ensures (a + b) + c == a + (b + c)
  {
  }

  /** The bits of a block before its tables. */
  ghost function BlockStart(crc: CrcWord, orig: nat): seq<bool> {
    BytesBits(BLOCK_MAGIC) + (BytesBits(Bytes4(Number(Finalised(crc)))) + ([false] + BitsOf(orig, 24)))
  }

  lemma StreamParts(level: nat, c: Coded, crc: CrcWord, orig: nat, toks: seq<int>)
    requires GoodBlock(level, c) && crc == Fold(INITIAL, c.raw) && orig == c.orig
    requires AllIn(c.col, UsedBytes(c.h.used, 256)) && toks == ColumnTokens(c.h.used, c.col)
    ensures Writable(c.h) && TokensFor(c.h, toks)
    ensures BlockStream(level, c) == BlockStart(crc, orig) + BlockBits(c.h, toks)
  {
    hide BlockBits, BytesBits, BitsOf, Fold, Number, Finalised, AllIn, UsedBytes, ColumnTokens, Writable, TokensFor, Expand;
    var d := BitsOf(orig, 24) + BlockBits(c.h, toks);
    var n := BytesBits(Bytes4(Number(Finalised(crc))));
    assert [false] + d == ([false] + BitsOf(orig, 24)) + BlockBits(c.h, toks);
    assert n + ([false] + d) == (n + ([false] + BitsOf(orig, 24))) + BlockBits(c.h, toks);
  }

  /** bsPutUChar, for each byte of s. */
  method PutBytes(w: BitWriter, s: seq<int>)
    requires w.Valid() && ByteString(s)
    modifies w
    ensures w.Valid() && w.Bits() == old(w.Bits()) + BytesBits(s)
  {
    hide BytesBits, BitsOf, Pow2;
    PowersOfTwo();
    NoBytes();
    assert s[..0] == [];
    assert w.Bits() + [] == w.Bits();
    for i := 0 to |s|
      invariant w.Valid() && w.Bits() == old(w.Bits()) + BytesBits(s[..i])
    {
      BytesSnoc(s[..i], s[i]);
      assert s[..i + 1] == s[..i] + [s[i]];
      Joined(old(w.Bits()), BytesBits(s[..i]), BitsOf(s[i], 8));
      w.BsW(8, s[i]);
    }
    assert s[..|s|] == s;
  }

  /** Mark, checksum, randomisation bit and origPtr. */
  method SendBlockStart(w: BitWriter, blockCRC: CrcWord, origPtr: nat)
    requires w.Valid() && origPtr < 900000
    modifies w
    ensures w.Valid() && w.Bits() == old(w.Bits()) + BlockStart(blockCRC, origPtr)
  {
    hide BytesBits, BitsOf, Finalised, Number;
    ghost var a := w.Bits();
    PutBytes(w, BLOCK_MAGIC);
    var u := Number(Finalised(blockCRC));
    Bytes4Number(u);
    PutBytes(w, Bytes4(u));
    assert BitsOf(0, 1) == [false] by { ZeroBit(); }
    PowersOfTwo();
    assert Pow2(1) == 2;
    w.BsW(1, 0);
    w.BsW(24, origPtr);
    var m, n, o := BytesBits(BLOCK_MAGIC), BytesBits(Bytes4(u)), BitsOf(origPtr, 24);
    assert (((a + m) + n) + [false]) + o == a + (m + (n + ([false] + o)));
  }

  lemma ZeroBit()
    ensures BitsOf(0, 1) == [false]
  {
  }
}
