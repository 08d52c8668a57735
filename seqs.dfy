/** The array operations the pages build on: `filter`, `slice` and summing a field. */
module Seqs {

  /** `s.filter(p)`: the elements satisfying `p`, in their original order. */
  function Filter<T>(s: seq<T>, p: T -> bool): (r: seq<T>)
    ensures |r| <= |s|
  {
    if s == [] then []
    else Filter(s[..|s| - 1], p) + (if p(s[|s| - 1]) then [s[|s| - 1]] else [])
  }

  /** `filter` keeps exactly the elements that pass, and only elements of `s`. */
  lemma {:induction false} FilterElements<T>(s: seq<T>, p: T -> bool)
    ensures forall i :: 0 <= i < |Filter(s, p)| ==> p(Filter(s, p)[i])
    ensures forall i :: 0 <= i < |s| && p(s[i]) ==> s[i] in Filter(s, p)
    ensures multiset(Filter(s, p)) <= multiset(s)
  {
    if s != [] {
      var s' := s[..|s| - 1];
      FilterElements(s', p);
      assert s == s' + [s[|s| - 1]];
      forall i | 0 <= i < |s| && p(s[i]) ensures s[i] in Filter(s, p) {
        if i < |s'| {
          assert s[i] == s'[i];
        }
      }
    }
  }

  /** `filter` keeps every copy of a passing element and none of a failing one. */
  lemma {:induction false} FilterMultiplicity<T>(s: seq<T>, p: T -> bool)
    ensures forall x :: multiset(Filter(s, p))[x] == if p(x) then multiset(s)[x] else 0
  {
    if s != [] {
      var s' := s[..|s| - 1];
      var y := s[|s| - 1];
      FilterMultiplicity(s', p);
      assert s == s' + [y];
      assert multiset(s) == multiset(s') + multiset{y};
      assert Filter(s, p) == Filter(s', p) + (if p(y) then [y] else []);
    }
  }

  /** Filtering one more element appends it when it passes: the forEach/push view of `filter`. */
  lemma FilterSnoc<T>(s: seq<T>, x: T, p: T -> bool)
    ensures Filter(s + [x], p) == Filter(s, p) + (if p(x) then [x] else [])
  {
    assert (s + [x])[..|s|] == s;
  }

  /** Filtering a single element. */
  lemma FilterSingleton<T>(x: T, p: T -> bool)
    ensures Filter([x], p) == if p(x) then [x] else []
  {
    assert [x][..0] == [];
  }

  /** The prefix view of `FilterSnoc`: filtering one more element of `s`. */
  lemma FilterPrefixSnoc<T>(s: seq<T>, k: nat, p: T -> bool)
    requires k < |s|
    ensures Filter(s[..k + 1], p) == Filter(s[..k], p) + (if p(s[k]) then [s[k]] else [])
  {
    assert s[..k + 1] == s[..k] + [s[k]];
    FilterSnoc(s[..k], s[k], p);
  }

  /** Filtering distributes over concatenation, so relative order is kept. */
  lemma {:induction false} FilterAppend<T>(s: seq<T>, t: seq<T>, p: T -> bool)
    ensures Filter(s + t, p) == Filter(s, p) + Filter(t, p)
    decreases |t|
  {
    if t == [] {
      assert s + t == s;
    } else {
      var t' := t[..|t| - 1];
      var x := t[|t| - 1];
      assert t == t' + [x];
      assert s + t == (s + t') + [x];
      FilterAppend(s, t', p);
      FilterSnoc(s + t', x, p);
      FilterSnoc(t', x, p);
    }
  }

  /** Two filters in a row are one filter by the conjunction. */
  lemma {:induction false} FilterFilter<T>(s: seq<T>, p: T -> bool, q: T -> bool, pq: T -> bool)
    requires forall x :: pq(x) == (p(x) && q(x))
    ensures Filter(Filter(s, p), q) == Filter(s, pq)
  {
    if s != [] {
      var s' := s[..|s| - 1];
      var x := s[|s| - 1];
      FilterFilter(s', p, q, pq);
      assert Filter(s, pq) == Filter(s', pq) + (if pq(x) then [x] else []);
      if p(x) {
        assert Filter(s, p) == Filter(s', p) + [x];
        FilterSnoc(Filter(s', p), x, q);
      } else {
        assert Filter(s, p) == Filter(s', p);
        assert Filter(s, pq) == Filter(s', pq);
      }
    }
  }

  /** A filter every element passes returns the whole sequence. */
  lemma {:induction false} FilterAll<T>(s: seq<T>, p: T -> bool)
    requires forall i :: 0 <= i < |s| ==> p(s[i])
    ensures Filter(s, p) == s
  {
    if s != [] {
      var s' := s[..|s| - 1];
      forall i | 0 <= i < |s'| ensures p(s'[i]) {
        assert s'[i] == s[i];
      }
      FilterAll(s', p);
      assert Filter(s, p) == Filter(s', p) + [s[|s| - 1]];
      assert s == s' + [s[|s| - 1]];
    }
  }

  /** A filter no element passes returns nothing. */
  lemma {:induction false} FilterNone<T>(s: seq<T>, p: T -> bool)
    requires forall i :: 0 <= i < |s| ==> !p(s[i])
    ensures Filter(s, p) == []
  {
    if s != [] {
      FilterNone(s[..|s| - 1], p);
    }
  }

  /** Two predicates that agree on every element filter alike. */
  lemma {:induction false} FilterSame<T>(s: seq<T>, p: T -> bool, q: T -> bool)
    requires forall i :: 0 <= i < |s| ==> p(s[i]) == q(s[i])
    ensures Filter(s, p) == Filter(s, q)
  {
    if s != [] {
      FilterSame(s[..|s| - 1], p, q);
    }
  }

  /** A predicate implied by another keeps at least as many elements. */
  lemma {:induction false} FilterMono<T>(s: seq<T>, p: T -> bool, q: T -> bool)
    requires forall i :: 0 <= i < |s| ==> p(s[i]) ==> q(s[i])
    ensures |Filter(s, p)| <= |Filter(s, q)|
  {
    if s != [] {
      FilterMono(s[..|s| - 1], p, q);
    }
  }

  /** `r` is `s` with some elements left out, the rest kept in order. */
  predicate IsSubsequence<T(==)>(r: seq<T>, s: seq<T>)
    decreases |s|
  {
    if r == [] then true
    else if s == [] then false
    else if r[|r| - 1] == s[|s| - 1] then IsSubsequence(r[..|r| - 1], s[..|s| - 1])
    else IsSubsequence(r, s[..|s| - 1])
  }

  /** `filter` keeps the order of what it keeps. */
  lemma {:induction false} FilterIsSubsequence<T>(s: seq<T>, p: T -> bool)
    ensures IsSubsequence(Filter(s, p), s)
  {
    if s != [] {
      var s' := s[..|s| - 1];
      FilterIsSubsequence(s', p);
      var f := Filter(s, p);
      if p(s[|s| - 1]) {
        assert f[..|f| - 1] == Filter(s', p);
      } else if f != [] {
        FilterElements(s', p);
        assert f == Filter(s', p);
        assert p(f[|f| - 1]);
      }
    }
  }

  /** `s.slice(0, n)`. */
  function Take<T>(s: seq<T>, n: nat): (r: seq<T>)
    ensures |r| == if n < |s| then n else |s|
    ensures r <= s
  {
    if n < |s| then s[..n] else s
  }

  /** `s.slice(n)`. */
  function Drop<T>(s: seq<T>, n: nat): (r: seq<T>)
    ensures |r| == if n < |s| then |s| - n else 0
  {
    if n < |s| then s[n..] else []
  }

  /** Sum of an integer field over a sequence. */
  function SumInt<T>(s: seq<T>, f: T -> int): int {
    if s == [] then 0 else SumInt(s[..|s| - 1], f) + f(s[|s| - 1])
  }

  lemma SumIntSnoc<T>(s: seq<T>, x: T, f: T -> int)
    ensures SumInt(s + [x], f) == SumInt(s, f) + f(x)
  {
    assert (s + [x])[..|s|] == s;
  }

  /** The prefix view of `SumIntSnoc`. */
  lemma SumIntPrefixSnoc<T>(s: seq<T>, k: nat, f: T -> int)
    requires k < |s|
    ensures SumInt(s[..k + 1], f) == SumInt(s[..k], f) + f(s[k])
  {
    assert s[..k + 1] == s[..k] + [s[k]];
    SumIntSnoc(s[..k], s[k], f);
  }

  lemma {:induction false} SumIntAppend<T>(s: seq<T>, t: seq<T>, f: T -> int)
    ensures SumInt(s + t, f) == SumInt(s, f) + SumInt(t, f)
    decreases |t|
  {
    if t == [] {
      assert s + t == s;
    } else {
      var t' := t[..|t| - 1];
      var x := t[|t| - 1];
      assert t == t' + [x];
      assert s + t == (s + t') + [x];
      SumIntAppend(s, t', f);
      SumIntSnoc(s + t', x, f);
      SumIntSnoc(t', x, f);
    }
  }

  /** Changing one element changes the sum by the difference of that element's field. */
  lemma {:induction false} SumIntUpdate<T>(s: seq<T>, k: nat, x: T, f: T -> int)
    requires k < |s|
    ensures SumInt(s[k := x], f) == SumInt(s, f) - f(s[k]) + f(x)
  {
    assert s == s[..k] + [s[k]] + s[k + 1..];
    assert s[k := x] == s[..k] + [x] + s[k + 1..];
    SumIntAppend(s[..k] + [s[k]], s[k + 1..], f);
    SumIntAppend(s[..k] + [x], s[k + 1..], f);
    SumIntSnoc(s[..k], s[k], f);
    SumIntSnoc(s[..k], x, f);
  }

  /** No two elements have the same key. */
  predicate DistinctBy<T>(s: seq<T>, key: T -> string) {
    forall i, j :: 0 <= i < j < |s| ==> key(s[i]) != key(s[j])
  }

  /** No element occurs twice. */
  predicate NoDup<T(==)>(s: seq<T>) {
    forall i, j :: 0 <= i < j < |s| ==> s[i] != s[j]
  }

  /** A slice inside the left operand of `+` is a slice of that operand. */
  lemma SliceAppendLeft<T>(a: seq<T>, b: seq<T>, i: nat, k: nat)
    requires i + k <= |a|
    ensures (a + b)[i..i + k] == a[i..i + k]
  {
  }

  /** The right operand of `+` is the slice after the left one. */
  lemma SliceAppendRight<T>(a: seq<T>, b: seq<T>)
    ensures (a + b)[|a|..|a| + |b|] == b
  {
  }

  /** A slice holds only elements of its sequence. */
  lemma SliceMembers<T>(s: seq<T>, i: nat, j: nat)
    requires i <= j <= |s|
    ensures forall x :: x in s[i..j] ==> x in s
  {
    forall x | x in s[i..j] ensures x in s {
      var m :| 0 <= m < j - i && s[i..j][m] == x;
      assert s[i + m] == x;
    }
  }

  /** A duplicate-free sequence has as many elements as its set of elements. */
  lemma {:induction false} NoDupCard<T>(s: seq<T>)
    requires NoDup(s)
    ensures |set x | x in s| == |s|
  {
    if s != [] {
      var s' := s[..|s| - 1];
      var x := s[|s| - 1];
      assert s == s' + [x];
      assert NoDup(s');
      NoDupCard(s');
      assert (set y | y in s) == (set y | y in s') + {x};
      forall i | 0 <= i < |s'| ensures s'[i] != x {
        assert s'[i] == s[i];
      }
    }
  }
}
