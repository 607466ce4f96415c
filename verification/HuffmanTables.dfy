/** Assigning canonical codes and building the decoding tables (huffman.c). */
module HuffmanTables {
  import opened Counting
  import opened HuffmanCodes
  import opened InverseTransform

  ghost predicate Assigned(code: seq<int>, lens: seq<int>, n: nat, i: nat) {
    && |lens| <= |code| && (forall k :: 0 <= k < |lens| ==> 0 <= lens[k])
    && forall k :: 0 <= k < |lens| && (lens[k] < n || (lens[k] == n && k < i)) ==> code[k] == Code(lens, k)
  }

  method AssignOne(code: array<int>, lens: seq<int>, n: nat, i: nat, vec: nat) returns (vec': nat)
    requires i < |lens| && Assigned(code[..], lens, n, i)
    requires vec == First(lens, n) + CountEq(lens, i, n)
    modifies code
    ensures Assigned(code[..], lens, n, i + 1)
    ensures vec' == First(lens, n) + CountEq(lens, i + 1, n)
  {
    hide First;
    vec' := vec;
    if lens[i] == n {
      code[i] := vec;
      vec' := vec + 1;
    }
  }

  /** BZ2_hbAssignCodes: every symbol receives its canonical code. */
  method HbAssignCodes(code: array<int>, length: array<int>, minLen: nat, maxLen: nat, alphaSize: nat)
    requires alphaSize <= length.Length && alphaSize <= code.Length && code != length
    requires Lengths(length[..alphaSize], minLen, maxLen)
    modifies code
    ensures forall i :: 0 <= i < alphaSize ==> code[i] == Code(length[..alphaSize], i)
  {
    hide First, CountEq;
    ghost var lens := length[..alphaSize];
    var vec := 0;
    FirstIsZero(lens, minLen, minLen);
    assert minLen <= lens[0] <= maxLen;
    for n := minLen to maxLen + 1
      invariant length[..alphaSize] == lens
      invariant vec == First(lens, n) && Assigned(code[..], lens, n, 0)
    {
      CountNone(lens, n);
      for i := 0 to alphaSize
        invariant length[..alphaSize] == lens
        invariant vec == First(lens, n) + CountEq(lens, i, n) && Assigned(code[..], lens, n, i)
      {
        vec := AssignOne(code, length[..alphaSize], n, i, vec);
      }
      FirstStep(lens, n);
      vec := 2 * vec;
    }
  }

  lemma CountNone(lens: seq<int>, n: int)
    ensures CountEq(lens, 0, n) == 0 && CountLt(lens, 0, n) == 0
  {
  }

  lemma FirstStep(lens: seq<int>, n: nat)
    ensures First(lens, n + 1) == 2 * (First(lens, n) + CountEq(lens, |lens|, n))
  {
  }

  // ---------------------------------------------------------------- decoding tables

  ghost predicate Placed(perm: seq<int>, lens: seq<int>, n: int, i: nat) {
    forall k :: 0 <= k < |lens| && (lens[k] < n || (lens[k] == n && k < i)) ==>
      Rank(lens, k) < |perm| && perm[Rank(lens, k)] == k
  }

  method PlaceOne(perm: array<int>, lens: seq<int>, n: int, i: nat, pp: nat) returns (pp': nat)
    requires i < |lens| <= perm.Length && Placed(perm[..], lens, n, i)
    requires pp == CountLt(lens, |lens|, n) + CountEq(lens, i, n)
    modifies perm
    ensures Placed(perm[..], lens, n, i + 1)
    ensures pp' == CountLt(lens, |lens|, n) + CountEq(lens, i + 1, n)
  {
    CountStepEq(lens, i, n);
    hide CountLt, CountEq;
    pp' := pp;
    if lens[i] == n {
      RankBelowNextSymbol(lens, i);
      PlaceKeeps(perm[..], lens, n, i);
      perm[pp] := i;
      assert perm[..] == old(perm[..])[pp := i];
      pp' := pp + 1;
    }
  }

  lemma PlaceKeeps(perm: seq<int>, lens: seq<int>, n: int, i: nat)
    requires i < |lens| <= |perm| && Placed(perm, lens, n, i) && lens[i] == n
    requires Rank(lens, i) < |perm|
    ensures Placed(perm[Rank(lens, i) := i], lens, n, i + 1)
  {
    hide Rank;
    forall k | 0 <= k < |lens| && (lens[k] < n || (lens[k] == n && k < i + 1))
      ensures Rank(lens, k) < |perm| && perm[Rank(lens, i) := i][Rank(lens, k)] == k
    {
      RankOrder(lens, k, i);
    }
  }

  lemma CountStepEq(lens: seq<int>, i: nat, n: int)
    requires i < |lens|
    ensures CountEq(lens, i + 1, n) == CountEq(lens, i, n) + if lens[i] == n then 1 else 0
  {
  }

  /** The first loop: symbols sorted by length, stably. */
  method PlaceSymbols(perm: array<int>, length: array<int>, minLen: nat, maxLen: nat, alphaSize: nat)
    requires alphaSize <= length.Length && alphaSize <= perm.Length && perm != length
    requires Lengths(length[..alphaSize], minLen, maxLen)
    modifies perm
    ensures forall i :: 0 <= i < alphaSize ==>
              Rank(length[..alphaSize], i) < perm.Length && perm[Rank(length[..alphaSize], i)] == i
  {
    hide CountEq, CountLt, Rank;
    ghost var lens := length[..alphaSize];
    var pp := 0;
    NoShorter(lens, alphaSize, minLen, -1);
    assert minLen <= lens[0] <= maxLen;
    for i := minLen to maxLen + 1
      invariant length[..alphaSize] == lens
      invariant pp == CountLt(lens, |lens|, i) && Placed(perm[..], lens, i, 0)
    {
      CountNone(lens, i);
      for j := 0 to alphaSize
        invariant length[..alphaSize] == lens
        invariant pp == CountLt(lens, |lens|, i) + CountEq(lens, j, i) && Placed(perm[..], lens, i, j)
      {
        pp := PlaceOne(perm, length[..alphaSize], i, j, pp);
      }
      CountsStep(lens, |lens|, i);
    }
  }

  lemma {:induction false} NothingNegative(lens: seq<int>, i: nat, c: int)
    requires i <= |lens| && c <= 0 && forall k :: 0 <= k < |lens| ==> 0 <= lens[k]
    ensures CountLt(lens, i, c) == 0
  {
    if i > 0 { NothingNegative(lens, i - 1, c); }
  }

  /** base[n] counts the symbols of length below n. */
  method CountShorter(base: array<int>, length: array<int>, maxLen: nat, alphaSize: nat)
    requires alphaSize <= length.Length && base.Length == MAX_ALPHA_SIZE && base != length
    requires maxLen <= 20 && Lengths(length[..alphaSize], 0, maxLen)
    modifies base
    ensures forall n :: 0 <= n < MAX_CODE_LEN ==> base[n] == CountLt(length[..alphaSize], alphaSize, n)
  {
    ghost var lens := length[..alphaSize];
    for i := 0 to MAX_CODE_LEN
      invariant forall n :: 0 <= n < i ==> base[n] == 0
    {
      base[i] := 0;
    }
    for i := 0 to alphaSize
      invariant length[..alphaSize] == lens
      invariant forall n :: 0 <= n < MAX_CODE_LEN ==> base[n] == CountEq(lens, i, n - 1)
    {
      assert length[i] == lens[i];
      base[length[i] + 1] := base[length[i] + 1] + 1;
    }
    NothingNegative(lens, alphaSize, 0);
    NothingNegative(lens, alphaSize, -1);
    CountsStep(lens, alphaSize, -1);
    for i := 1 to MAX_CODE_LEN
      invariant length[..alphaSize] == lens
      invariant forall n :: 0 <= n < i ==> base[n] == CountLt(lens, alphaSize, n)
      invariant forall n :: i <= n < MAX_CODE_LEN ==> base[n] == CountEq(lens, alphaSize, n - 1)
    {
      CountsStep(lens, alphaSize, i - 1);
      base[i] := base[i] + base[i - 1];
    }
  }

  /** limit[n] is the last code of length n. */
  method SetLimits(limit: array<int>, base: array<int>, minLen: nat, maxLen: nat, ghost lens: seq<int>)
    requires limit.Length == base.Length == MAX_ALPHA_SIZE && limit != base
    requires 1 <= minLen <= maxLen <= 20 && Lengths(lens, minLen, maxLen)
    requires forall n :: 0 <= n < MAX_CODE_LEN ==> base[n] == CountLt(lens, |lens|, n)
    modifies limit
    ensures forall n :: minLen <= n <= maxLen ==> limit[n] == First(lens, n) + CountEq(lens, |lens|, n) - 1
    ensures forall n :: 0 <= n < MAX_CODE_LEN && !(minLen <= n <= maxLen) ==> limit[n] == 0
  {
    hide First, CountEq, CountLt;
    for i := 0 to MAX_CODE_LEN
      invariant forall n :: 0 <= n < i ==> limit[n] == 0
    {
      limit[i] := 0;
    }
    var vec := 0;
    FirstIsZero(lens, minLen, minLen);
    for i := minLen to maxLen + 1
      invariant vec == First(lens, i)
      invariant forall n :: minLen <= n < i ==> limit[n] == First(lens, n) + CountEq(lens, |lens|, n) - 1
      invariant forall n :: 0 <= n < MAX_CODE_LEN && !(minLen <= n < i) ==> limit[n] == 0
    {
      CountsStep(lens, |lens|, i);
      FirstStep(lens, i);
      vec := vec + (base[i + 1] - base[i]);
      limit[i] := vec - 1;
      vec := 2 * vec;
    }
  }

  /** base[n] becomes what to subtract from a code of length n to index perm. */
  method SetBases(limit: array<int>, base: array<int>, minLen: nat, maxLen: nat, ghost lens: seq<int>)
    requires limit.Length == base.Length == MAX_ALPHA_SIZE && limit != base
    requires 1 <= minLen <= maxLen <= 20 && Lengths(lens, minLen, maxLen)
    requires forall n :: 0 <= n < MAX_CODE_LEN ==> base[n] == CountLt(lens, |lens|, n)
    requires forall n :: minLen <= n <= maxLen ==> limit[n] == First(lens, n) + CountEq(lens, |lens|, n) - 1
    modifies base
    ensures forall n :: minLen <= n <= maxLen ==> base[n] == First(lens, n) - CountLt(lens, |lens|, n)
    ensures forall n :: maxLen < n < MAX_CODE_LEN ==> base[n] == CountLt(lens, |lens|, n)
  {
    hide First, CountEq, CountLt;
    FirstIsZero(lens, minLen, minLen);
    NoShorter(lens, |lens|, minLen, -1);
    for i := minLen + 1 to maxLen + 1
      invariant forall n :: minLen <= n < i ==> base[n] == First(lens, n) - CountLt(lens, |lens|, n)
      invariant forall n :: i <= n < MAX_CODE_LEN ==> base[n] == CountLt(lens, |lens|, n)
    {
      FirstStep(lens, i - 1);
      base[i] := 2 * (limit[i - 1] + 1) - base[i];
    }
  }

  /** BZ2_hbCreateDecodeTables. */
  method HbCreateDecodeTables(limit: array<int>, base: array<int>, perm: array<int>, length: array<int>,
                              minLen: nat, maxLen: nat, alphaSize: nat)
    requires limit.Length == base.Length == perm.Length == MAX_ALPHA_SIZE && alphaSize <= length.Length
    requires limit != base && limit != perm && base != perm && length !in {limit, base, perm}
    requires 1 <= minLen <= maxLen <= 20 && Lengths(length[..alphaSize], minLen, maxLen)
    modifies limit, base, perm
    ensures TablesFor(Tables(minLen, limit[..], base[..], perm[..]), length[..alphaSize], maxLen)
  {
    hide First, CountEq, CountLt, Rank;
    ghost var lens := length[..alphaSize];
    PlaceSymbols(perm, length, minLen, maxLen, alphaSize);
    CountShorter(base, length, maxLen, alphaSize);
    SetLimits(limit, base, minLen, maxLen, lens);
    SetBases(limit, base, minLen, maxLen, lens);
  }
}
