/** Filling a block (bzlib.c): bytes are gathered into runs and each finished run is
    written into the block, summed into the block checksum and marked in inUse. */
module BlockFill {
  import MainOrder
  import opened RunLength
  import opened BlockCrc

  /** bytes are the encoded runs, used marks exactly the bytes among them, and crc sums
      the raw bytes the runs stand for. */
  ghost predicate Describes(bytes: seq<int>, used: seq<bool>, crc: CrcWord, runs: seq<Run>) {
    && bytes == EncodeRuns(runs)
    && |used| == 256 && (forall c :: 0 <= c < 256 ==> (used[c] <==> c in bytes))
    && crc == Fold(INITIAL, Flatten(runs))
  }

  function MarkRun(used: seq<bool>, r: Run): (u: seq<bool>)
    requires |used| == 256 && 0 <= r.ch < 256 && 1 <= r.len <= 255
    ensures |u| == 256
  {
    if r.len >= 4 then used[r.ch := true][r.len - 4 := true] else used[r.ch := true]
  }

  lemma DescribesAppend(bytes: seq<int>, used: seq<bool>, crc: CrcWord, runs: seq<Run>, r: Run)
    requires Describes(bytes, used, crc, runs)
    requires 0 <= r.ch < 256 && 1 <= r.len <= 255
    ensures Describes(bytes + EncodeRun(r), MarkRun(used, r), Fold(crc, Rep(r.ch, r.len)), runs + [r])
  {
    hide Fold, EncodeRun, Rep, Flatten, EncodeRuns;
    RunBytes(r);
    FoldConcat(INITIAL, Flatten(runs), Rep(r.ch, r.len));
    FlattenAppend(runs, r);
    EncodeAppend(runs, r);
  }

  class EState {
    const block: array<int>
    const inUse: array<bool>
    const nblockMAX: nat
    var nblock: nat
    var stateInCh: int
    var stateInLen: nat
    var blockCRC: CrcWord
    /** The runs already written to this block. */
    ghost var runs: seq<Run>

    ghost function Pending(): seq<Run>
      reads this
    {
      if stateInCh < 256 then [Run(stateInCh, stateInLen)] else []
    }

    /** The raw bytes this block and its unfinished run stand for. */
    ghost function Gathered(): seq<int>
      reads this
    {
      Flatten(runs + Pending())
    }

    ghost function Bytes(): seq<int>
      reads this, block
      requires nblock <= block.Length
    {
      block[..nblock]
    }

    /** The block holds exactly the finished runs, and inUse and blockCRC describe it. */
    ghost predicate Consistent()
      reads this, block, inUse
    {
      && nblock <= block.Length && inUse.Length == 256
      && Describes(block[..nblock], inUse[..], blockCRC, runs)
    }

    ghost predicate Valid()
      reads this, block, inUse
    {
      && Consistent()
      && 0 <= stateInCh <= 256 && (stateInCh == 256 <==> stateInLen == 0)
      && Separated(runs + Pending())
    }

    /** Ready for more bytes: a flushed run is never followed by input to the same block. */
    ghost predicate Open()
      reads this
    {
      stateInCh == 256 ==> runs == []
    }

    constructor (blockSize100k: nat)
      requires 1 <= blockSize100k <= 9
      ensures Valid() && Open() && fresh(block) && fresh(inUse)
      ensures nblockMAX == 100000 * blockSize100k - 19
      ensures block.Length == 100000 * blockSize100k + MainOrder.OVERSHOOT
      ensures Gathered() == [] && nblock == 0
    {
      block := new int[100000 * blockSize100k + MainOrder.OVERSHOOT];
      inUse := new bool[256](_ => false);
      nblockMAX := 100000 * blockSize100k - 19;
      nblock, stateInCh, stateInLen, blockCRC := 0, 256, 0, INITIAL;
      runs := [];
    }

    /** prepare_new_block: the block and its description start afresh; a run that has not been
        written yet is carried over. */
    method StartBlock()
      requires Valid()
      modifies this`nblock, this`blockCRC, this`runs, inUse
      ensures Valid() && nblock == 0 && runs == []
    {
      hide Fold, Update;
      PendingAlone(runs, Pending());
      nblock, blockCRC, runs := 0, INITIAL, [];
      for i := 0 to 256
        invariant forall k :: 0 <= k < i ==> !inUse[k]
        invariant inUse.Length == 256 && nblock == 0 && blockCRC == INITIAL && runs == []
      {
        inUse[i] := false;
      }
      NothingDescribed(block[..0], inUse[..]);
      assert runs + Pending() == Pending();
    }

    /** isempty_RL. */
    predicate IsEmptyRL()
      reads this
    {
      !(stateInCh < 256 && stateInLen > 0)
    }

    /** Append one byte to the block; a building block of add_pair_to_block. */
    method Put(c: int)
      requires nblock < block.Length
      modifies this`nblock, block
      ensures nblock == old(nblock) + 1
      ensures block[..nblock] == old(block[..nblock]) + [c]
    {
      block[nblock] := c;
      nblock := nblock + 1;
    }

    method PutRun(ch: int, k: nat)
      requires nblock + 5 <= block.Length
      requires 1 <= k <= 255
      modifies this`nblock, block
      ensures nblock <= old(nblock) + 5
      ensures block.Length >= nblock
      ensures block[..nblock] == old(block[..nblock]) + EncodeRun(Run(ch, k))
    {
      ghost var was := block[..nblock];
      match k
      case 1 =>
        Put(ch);
        assert EncodeRun(Run(ch, k)) == [ch];
      case 2 =>
        Put(ch); Put(ch);
        assert EncodeRun(Run(ch, k)) == [ch, ch];
      case 3 =>
        Put(ch); Put(ch); Put(ch);
        assert EncodeRun(Run(ch, k)) == [ch, ch, ch];
      case _ =>
        Put(ch); Put(ch); Put(ch); Put(ch); Put(k - 4);
        assert EncodeRun(Run(ch, k)) == [ch, ch, ch, ch, k - 4];
    }

    method UpdateCrc(ch: int, k: nat)
      modifies this`blockCRC
      ensures blockCRC == Fold(old(blockCRC), Rep(ch, k))
    {
      hide Update;
      var i := 0;
      while i < k
        invariant i <= k
        invariant blockCRC == Fold(old(blockCRC), Rep(ch, i))
      {
        FoldStep(old(blockCRC), Rep(ch, i), ch);
        assert Rep(ch, i + 1) == Rep(ch, i) + [ch];
        blockCRC := Update(blockCRC, ch);
        i := i + 1;
      }
    }

    method AddPairToBlock()
      requires Valid() && stateInCh < 256
      requires nblock + 5 <= block.Length
      modifies this`nblock, this`blockCRC, this`runs, block, inUse
      ensures Consistent() && nblock <= old(nblock) + 5
      ensures runs == old(runs + Pending())
    {
      hide Describes, EncodeRun, Fold, Rep, Separated, Flatten, EncodeRuns;
      ghost var r := Run(stateInCh, stateInLen);
      PendingBounds(runs, r);
      DescribesAppend(block[..nblock], inUse[..], blockCRC, runs, r);
      UpdateCrc(stateInCh, stateInLen);
      PutRun(stateInCh, stateInLen);
      inUse[stateInCh] := true;
      if stateInLen >= 4 { inUse[stateInLen - 4] := true; }
      assert inUse[..] == MarkRun(old(inUse[..]), r);
      runs := runs + [r];
    }

    method FlushRL()
      requires Valid() && nblock + 5 <= block.Length
      modifies this, block, inUse
      ensures Valid() && nblock <= old(nblock) + 5
      ensures runs == old(runs + Pending()) && Pending() == []
    {
      hide Describes, EncodeRun, Fold, Rep, Separated, Flatten, EncodeRuns;
      if stateInCh < 256 { AddPairToBlock(); }
      stateInCh, stateInLen := 256, 0;
      assert runs + Pending() == runs;
    }

    /** ADD_CHAR_TO_BLOCK, fast track included. */
    method AddChar(zchh: int)
      requires Valid() && Open() && 0 <= zchh < 256
      requires nblock + 5 <= block.Length
      modifies this, block, inUse
      ensures Valid() && Open() && nblock <= old(nblock) + 5 && !IsEmptyRL()
      ensures Gathered() == old(Gathered()) + [zchh]
    {
      hide Describes, EncodeRun, Fold, Rep, Separated, Flatten, EncodeRuns;
      ghost var before := runs + Pending();
      if stateInCh < 256 { PendingBounds(runs, Run(stateInCh, stateInLen)); }
      if zchh != stateInCh && stateInLen == 1 {
        AddSingle();
        stateInCh := zchh;
        StartRun(before, zchh);
      } else if zchh != stateInCh || stateInLen == 255 {
        if stateInCh < 256 { AddPairToBlock(); }
        stateInCh, stateInLen := zchh, 1;
        StartRun(before, zchh);
      } else {
        GrowRun(runs, zchh, stateInLen);
        stateInLen := stateInLen + 1;
      }
    }

    /** The fast track of ADD_CHAR_TO_BLOCK: a run of one byte is finished. */
    method AddSingle()
      requires Valid() && stateInCh < 256 && stateInLen == 1
      requires nblock + 5 <= block.Length
      modifies this`nblock, this`blockCRC, this`runs, block, inUse
      ensures Consistent() && nblock <= old(nblock) + 5
      ensures runs == old(runs + Pending())
    {
      hide Describes, EncodeRun, Update, Separated, Flatten, EncodeRuns;
      ghost var r := Run(stateInCh, 1);
      PendingBounds(runs, r);
      DescribesAppend(block[..nblock], inUse[..], blockCRC, runs, r);
      SingleRun(blockCRC, stateInCh);
      blockCRC := Update(blockCRC, stateInCh);
      inUse[stateInCh] := true;
      assert inUse[..] == MarkRun(old(inUse[..]), r);
      Put(stateInCh);
      runs := runs + [r];
    }
  }

  lemma PendingAlone(rs: seq<Run>, p: seq<Run>)
    requires Separated(rs + p)
    ensures Separated(p) && Separated(rs)
  {
    var s := rs + p;
    assert forall i :: 0 <= i < |rs| ==> s[i] == rs[i];
    assert forall i :: 0 <= i < |p| ==> s[|rs| + i] == p[i];
  }

  lemma NothingDescribed(bytes: seq<int>, used: seq<bool>)
    requires bytes == [] && |used| == 256 && forall c :: 0 <= c < 256 ==> !used[c]
    ensures Describes(bytes, used, INITIAL, [])
  {
  }

  lemma NoRuns(bytes: seq<int>, used: seq<bool>, crc: CrcWord, runs: seq<Run>)
    requires Describes(bytes, used, crc, runs) && Separated(runs) && bytes == []
    ensures runs == []
  {
    hide Fold;
    if runs != [] { FirstOfEncoded(runs); }
  }

  lemma SingleRun(crc: CrcWord, c: int)
    ensures Fold(crc, Rep(c, 1)) == Update(crc, c)
    ensures EncodeRun(Run(c, 1)) == [c]
  {
    hide Update;
    assert Rep(c, 1) == [c] && [c][..0] == [];
  }

  lemma PendingBounds(rs: seq<Run>, r: Run)
    requires Separated(rs + [r])
    ensures 0 <= r.ch < 256 && 1 <= r.len <= 255
  {
    assert (rs + [r])[|rs|] == r;
  }

  lemma RunBytes(r: Run)
    requires r.len >= 1
    ensures forall c :: c in EncodeRun(r) <==> c == r.ch || (r.len >= 4 && c == r.len - 4)
  {
    assert r.len < 4 ==> EncodeRun(r)[0] == r.ch;
    assert r.len >= 4 ==> EncodeRun(r)[0] == r.ch && EncodeRun(r)[4] == r.len - 4;
  }

  lemma StartRun(before: seq<Run>, c: int)
    requires Separated(before) && 0 <= c < 256
    requires |before| > 0 ==> before[|before| - 1].ch != c || before[|before| - 1].len == 255
    ensures Separated(before + [Run(c, 1)])
    ensures Flatten(before + [Run(c, 1)]) == Flatten(before) + [c]
  {
    FlattenAppend(before, Run(c, 1));
    assert Rep(c, 1) == [c];
  }

  lemma GrowRun(rs: seq<Run>, c: int, k: nat)
    requires Separated(rs + [Run(c, k)]) && k < 255
    ensures Separated(rs + [Run(c, k + 1)])
    ensures Flatten(rs + [Run(c, k + 1)]) == Flatten(rs + [Run(c, k)]) + [c]
  {
    var s, t := rs + [Run(c, k)], rs + [Run(c, k + 1)];
    FlattenAppend(rs, Run(c, k));
    FlattenAppend(rs, Run(c, k + 1));
    assert Rep(c, k + 1) == Rep(c, k) + [c];
    assert s[|rs|] == Run(c, k) && t[|rs|] == Run(c, k + 1);
    assert forall i :: 0 <= i < |rs| ==> t[i] == s[i];
  }
}
