/** Rotations of a block, their lexicographic order, and what it means for an
    order of rotations to be sorted.  Both block sorters are held to SortedRotations,
    and the inverse transform relies on nothing else. */
module Rotations {

  ghost predicate LexLe(a: seq<int>, b: seq<int>)
    requires |a| == |b|
  {
    |a| == 0 || a[0] < b[0] || (a[0] == b[0] && LexLe(a[1..], b[1..]))
  }

  lemma {:induction false} LexReflexive(a: seq<int>)
    ensures LexLe(a, a)
  {
    if |a| > 0 { LexReflexive(a[1..]); }
  }

  lemma {:induction false} LexTransitive(a: seq<int>, b: seq<int>, c: seq<int>)
    requires |a| == |b| == |c|
    requires LexLe(a, b) && LexLe(b, c)
    ensures LexLe(a, c)
  {
    if |a| > 0 && a[0] == b[0] == c[0] { LexTransitive(a[1..], b[1..], c[1..]); }
  }

  lemma {:induction false} LexAntisymmetric(a: seq<int>, b: seq<int>)
    requires |a| == |b|
    requires LexLe(a, b) && LexLe(b, a)
    ensures a == b
  {
    if |a| > 0 {
      LexAntisymmetric(a[1..], b[1..]);
      assert a == [a[0]] + a[1..] && b == [b[0]] + b[1..];
    }
  }

  /** Dropping a common suffix position keeps the order. */
  lemma {:induction false} LexPrefix(a: seq<int>, b: seq<int>, k: nat)
    requires |a| == |b| && k <= |a|
    requires LexLe(a, b)
    ensures LexLe(a[..k], b[..k])
  {
    if k > 0 && a[0] == b[0] {
      LexPrefix(a[1..], b[1..], k - 1);
      assert a[..k][1..] == a[1..][..k - 1];
      assert b[..k][1..] == b[1..][..k - 1];
    }
  }

  /** The first place where two strings differ decides their order. */
  lemma {:induction false} LexAt(a: seq<int>, b: seq<int>, k: nat)
    requires |a| == |b| && k < |a|
    requires a[..k] == b[..k] && a[k] < b[k]
    ensures LexLe(a, b) && !LexLe(b, a)
  {
    if k > 0 {
      assert a[0] == a[..k][0] && b[0] == b[..k][0];
      assert a[1..][..k - 1] == a[..k][1..];
      assert b[1..][..k - 1] == b[..k][1..];
      LexAt(a[1..], b[1..], k - 1);
    }
  }

  function Rot<T>(b: seq<T>, i: nat): (r: seq<T>)
    requires i <= |b|
    ensures |r| == |b|
  {
    b[i..] + b[..i]
  }

  /** One step back around the circle. */
  function Pred(n: nat, i: nat): (r: nat)
    requires i < n
    ensures r < n
  {
    if i == 0 then n - 1 else i - 1
  }

  function Succ(n: nat, i: nat): (r: nat)
    requires i < n
    ensures r < n && Pred(n, r) == i
  {
    if i + 1 == n then 0 else i + 1
  }

  lemma RotPred<T>(b: seq<T>, i: nat)
    requires i < |b|
    ensures var p := Pred(|b|, i);
            Rot(b, p) == [b[p]] + Rot(b, i)[..|b| - 1] && Rot(b, i)[|b| - 1] == b[p]
  {
  }

  ghost predicate Distinct(s: seq<int>) {
    forall i, j :: 0 <= i < j < |s| ==> s[i] != s[j]
  }

  lemma Twice(p: seq<int>, i: nat, j: nat)
    requires i < j < |p| && p[i] == p[j]
    ensures multiset(p)[p[i]] >= 2
  {
    assert p == p[..i] + [p[i]] + p[i + 1..j] + [p[j]] + p[j + 1..];
  }

  lemma DistinctRearranged(s: seq<int>, t: seq<int>)
    requires Distinct(s) && multiset(s) == multiset(t)
    ensures Distinct(t)
  {
    forall i, j | 0 <= i < j < |t| ensures t[i] != t[j] {
      if t[i] == t[j] {
        Twice(t, i, j);
        DistinctOnce(s, t[i]);
      }
    }
  }

  lemma {:induction false} DistinctOnce(s: seq<int>, x: int)
    requires Distinct(s)
    ensures multiset(s)[x] <= 1
  {
    if |s| > 0 {
      var s0 := s[..|s| - 1];
      assert s == s0 + [s[|s| - 1]];
      DistinctOnce(s0, x);
      if s[|s| - 1] == x { assert x !in s0; }
    }
  }

  ghost predicate IsPermutation(p: seq<int>, n: nat) {
    && |p| == n
    && (forall i :: 0 <= i < n ==> 0 <= p[i] < n)
    && (forall i, j :: 0 <= i < j < n ==> p[i] != p[j])
  }

  /** The order the transmitted block is built from: every rotation once, never decreasing. */
  ghost predicate SortedRotations(b: seq<int>, ptr: seq<int>) {
    && IsPermutation(ptr, |b|)
    && (forall i, j :: 0 <= i < j < |b| ==> LexLe(Rot(b, ptr[i]), Rot(b, ptr[j])))
  }

  ghost function Range(n: nat): (r: set<int>)
    ensures forall i :: i in r <==> 0 <= i < n
    ensures |r| == n
  {
    if n == 0 then {} else Range(n - 1) + {n - 1}
  }

  lemma {:induction false} DistinctSetSize(p: seq<int>)
    requires forall i, j :: 0 <= i < j < |p| ==> p[i] != p[j]
    ensures |set x | x in p| == |p|
  {
    if |p| > 0 {
      DistinctSetSize(p[1..]);
      assert p == [p[0]] + p[1..];
      assert (set x | x in p) == (set x | x in p[1..]) + {p[0]};
    }
  }

  lemma SubsetFull<T>(a: set<T>, b: set<T>)
    requires a <= b && |a| == |b|
    ensures a == b
  {
    assert b == a + (b - a);
    assert |b| == |a| + |b - a|;
  }

  /** Pigeonhole: a permutation hits every index. */
  lemma PermutationOnto(p: seq<int>, n: nat, v: int)
    requires IsPermutation(p, n) && 0 <= v < n
    ensures v in p
  {
    DistinctSetSize(p);
    var s := set x | x in p;
    SubsetFull(s, Range(n));
    assert v in s;
  }

  lemma PermutationCounts(p: seq<int>, n: nat, v: int)
    requires IsPermutation(p, n)
    ensures multiset(p)[v] == if 0 <= v < n then 1 else 0
  {
    if 0 <= v < n {
      PermutationOnto(p, n, v);
      var k :| 0 <= k < n && p[k] == v;
      assert p == p[..k] + [v] + p[k + 1..];
      assert multiset(p) == multiset(p[..k]) + multiset{v} + multiset(p[k + 1..]);
      assert v !in p[..k] && v !in p[k + 1..];
    }
  }

  lemma PermutationsAgree(p: seq<int>, q: seq<int>, n: nat)
    requires IsPermutation(p, n) && IsPermutation(q, n)
    ensures multiset(p) == multiset(q)
  {
    forall v: int ensures multiset(p)[v] == multiset(q)[v] {
      PermutationCounts(p, n, v);
      PermutationCounts(q, n, v);
    }
  }

  function Map<T, U>(f: T -> U, p: seq<T>): (r: seq<U>)
    ensures |r| == |p| && forall i :: 0 <= i < |p| ==> r[i] == f(p[i])
  {
    seq(|p|, i requires 0 <= i < |p| => f(p[i]))
  }

  function RemoveAt<T>(q: seq<T>, k: nat): seq<T>
    requires k < |q|
  {
    q[..k] + q[k + 1..]
  }

  lemma RemoveAtMultiset<T>(q: seq<T>, k: nat)
    requires k < |q|
    ensures multiset(q) == multiset(RemoveAt(q, k)) + multiset{q[k]}
    ensures multiset(RemoveAt(q, k)) == multiset(q) - multiset{q[k]}
  {
    assert q == q[..k] + [q[k]] + q[k + 1..];
  }

  lemma MapRemove<T, U>(f: T -> U, q: seq<T>, k: nat)
    requires k < |q|
    ensures multiset(Map(f, q)) == multiset(Map(f, RemoveAt(q, k))) + multiset{f(q[k])}
  {
    RemoveAtMultiset(Map(f, q), k);
    assert Map(f, RemoveAt(q, k)) == RemoveAt(Map(f, q), k);
  }

  lemma {:induction false} MapMultiset<T, U>(f: T -> U, p: seq<T>, q: seq<T>)
    requires multiset(p) == multiset(q)
    ensures multiset(Map(f, p)) == multiset(Map(f, q))
  {
    if |p| == 0 {
      assert |multiset(q)| == 0;
    } else {
      var x := p[0];
      RemoveAtMultiset(p, 0);
      assert x in multiset(q);
      var k :| 0 <= k < |q| && q[k] == x;
      RemoveAtMultiset(q, k);
      MapMultiset(f, RemoveAt(p, 0), RemoveAt(q, k));
      MapRemove(f, p, 0);
      MapRemove(f, q, k);
    }
  }

  ghost predicate LexSorted(s: seq<seq<int>>, n: nat) {
    && (forall i :: 0 <= i < |s| ==> |s[i]| == n)
    && (forall i, j :: 0 <= i < j < |s| ==> LexLe(s[i], s[j]))
  }

  lemma SortedHead(s: seq<seq<int>>, x: seq<int>, n: nat)
    requires LexSorted(s, n) && x in s
    ensures |x| == n && LexLe(s[0], x)
  {
    var j :| 0 <= j < |s| && s[j] == x;
    LexReflexive(x);
  }

  lemma SortedTail(s: seq<seq<int>>, n: nat)
    requires LexSorted(s, n) && |s| > 0
    ensures LexSorted(s[1..], n)
    ensures multiset(s[1..]) == multiset(s) - multiset{s[0]}
  {
    assert s == [s[0]] + s[1..];
  }

  /** A multiset of strings has one sorted listing. */
  lemma {:induction false} SortedListingUnique(s: seq<seq<int>>, t: seq<seq<int>>, n: nat)
    requires LexSorted(s, n) && LexSorted(t, n)
    requires multiset(s) == multiset(t)
    ensures s == t
  {
    if |s| == 0 {
      assert |multiset(t)| == 0;
    } else {
      assert |t| == |multiset(t)| == |multiset(s)| == |s|;
      assert s[0] in multiset(t) && t[0] in multiset(s);
      SortedHead(t, s[0], n);
      SortedHead(s, t[0], n);
      LexAntisymmetric(s[0], t[0]);
      SortedTail(s, n);
      SortedTail(t, n);
      SortedListingUnique(s[1..], t[1..], n);
      assert s == [s[0]] + s[1..] && t == [t[0]] + t[1..];
    }
  }
}
