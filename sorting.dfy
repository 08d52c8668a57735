/** `Array.prototype.sort` with a comparator: a stable sort. `geq(a, b)` holds when the
    comparator does not place `b` strictly before `a`. Modelled as insertion sort, whose
    result is the unique stable ordering. */
module Sorting {
  import opened Seqs

  /** The comparator is consistent: any two elements compare, and comparison chains. */
  ghost predicate TotalPreorder<T(!new)>(geq: (T, T) -> bool) {
    && (forall a, b :: geq(a, b) || geq(b, a))
    && (forall a, b, c :: geq(a, b) && geq(b, c) ==> geq(a, c))
  }

  predicate SortedBy<T>(s: seq<T>, geq: (T, T) -> bool) {
    forall i, j :: 0 <= i < j < |s| ==> geq(s[i], s[j])
  }

  /** Places `x` after every element of `t` that may precede it. */
  function Insert<T>(t: seq<T>, x: T, geq: (T, T) -> bool): (r: seq<T>)
    ensures |r| == |t| + 1
    ensures multiset(r) == multiset(t) + multiset{x}
  {
    if t == [] then [x]
    else if geq(t[0], x) then
      assert t == [t[0]] + t[1..];
      [t[0]] + Insert(t[1..], x, geq)
    else [x] + t
  }

  /** The stable sort of `s` under `geq`. */
  function SortBy<T>(s: seq<T>, geq: (T, T) -> bool): (r: seq<T>)
    ensures |r| == |s|
    ensures multiset(r) == multiset(s)
  {
    if s == [] then []
    else
      assert s == s[..|s| - 1] + [s[|s| - 1]];
      Insert(SortBy(s[..|s| - 1], geq), s[|s| - 1], geq)
  }

  /** The elements that compare equal to `v`: a tie class of the comparator. */
  function Tie<T>(geq: (T, T) -> bool, v: T): T -> bool {
    y => geq(y, v) && geq(v, y)
  }

  lemma {:induction false} InsertSorted<T(!new)>(t: seq<T>, x: T, geq: (T, T) -> bool)
    requires TotalPreorder(geq) && SortedBy(t, geq)
    ensures SortedBy(Insert(t, x, geq), geq)
  {
    if t != [] {
      if geq(t[0], x) {
        var rest := Insert(t[1..], x, geq);
        InsertSorted(t[1..], x, geq);
        forall j | 0 <= j < |rest| ensures geq(t[0], rest[j]) {
          assert rest[j] in multiset(t[1..]) + multiset{x};
          if rest[j] != x {
            var m :| 0 <= m < |t[1..]| && t[1..][m] == rest[j];
            assert t[m + 1] == rest[j];
          }
        }
        assert Insert(t, x, geq) == [t[0]] + rest;
      } else {
        forall j | 0 <= j < |t| ensures geq(x, t[j]) {
          assert geq(t[0], t[j]) || j == 0;
        }
      }
    }
  }

  /** The sort's result is ordered by the comparator. */
  lemma {:induction false} SortBySorted<T(!new)>(s: seq<T>, geq: (T, T) -> bool)
    requires TotalPreorder(geq)
    ensures SortedBy(SortBy(s, geq), geq)
  {
    if s != [] {
      SortBySorted(s[..|s| - 1], geq);
      InsertSorted(SortBy(s[..|s| - 1], geq), s[|s| - 1], geq);
    }
  }

  /** Nothing in `t` ties with an element that is strictly before all of `t`. */
  lemma NoTieBelow<T(!new)>(t: seq<T>, x: T, geq: (T, T) -> bool, v: T)
    requires TotalPreorder(geq) && SortedBy(t, geq)
    requires t != [] && !geq(t[0], x) && Tie(geq, v)(x)
    ensures forall j :: 0 <= j < |t| ==> !Tie(geq, v)(t[j])
  {
    forall j | 0 <= j < |t| ensures !geq(t[j], v) {
      assert geq(t[0], t[j]) || j == 0;
      assert !geq(t[j], x);
    }
  }

  lemma InsertStableBehind<T>(t: seq<T>, x: T, geq: (T, T) -> bool, p: T -> bool)
    requires t != [] && geq(t[0], x)
    requires Filter(Insert(t[1..], x, geq), p) == Filter(t[1..] + [x], p)
    ensures Filter(Insert(t, x, geq), p) == Filter(t + [x], p)
  {
    var rest := Insert(t[1..], x, geq);
    var u := t[1..] + [x];
    assert Insert(t, x, geq) == [t[0]] + rest;
    ConsSnoc(t, x);
    FilterAppend([t[0]], rest, p);
    FilterAppend([t[0]], u, p);
    assert Filter([t[0]] + rest, p) == Filter([t[0]], p) + Filter(rest, p);
    assert Filter(rest, p) == Filter(u, p);
  }

  lemma ConsSnoc<T>(t: seq<T>, x: T)
    requires t != []
    ensures t + [x] == [t[0]] + (t[1..] + [x])
  {
    assert t == [t[0]] + t[1..];
  }

  lemma InsertStableAhead<T>(t: seq<T>, x: T, geq: (T, T) -> bool, p: T -> bool)
    requires t != [] && !geq(t[0], x)
    requires p(x) ==> Filter(t, p) == []
    ensures Filter(Insert(t, x, geq), p) == Filter(t + [x], p)
  {
    assert Insert(t, x, geq) == [x] + t;
    FilterSnoc(t, x, p);
    FilterAppend([x], t, p);
    FilterSnoc([], x, p);
  }

  lemma {:induction false} InsertStable<T(!new)>(t: seq<T>, x: T, geq: (T, T) -> bool, v: T)
    requires TotalPreorder(geq) && SortedBy(t, geq)
    ensures Filter(Insert(t, x, geq), Tie(geq, v)) == Filter(t + [x], Tie(geq, v))
  {
    var p := Tie(geq, v);
    if t == [] {
      assert t + [x] == [x];
    } else if geq(t[0], x) {
      InsertStable(t[1..], x, geq, v);
      InsertStableBehind(t, x, geq, p);
    } else {
      if p(x) {
        NoTieBelow(t, x, geq, v);
        FilterNone(t, p);
      }
      InsertStableAhead(t, x, geq, p);
    }
  }

  /** Stability: within each tie class the sort keeps the input order. */
  lemma {:induction false} SortByStable<T(!new)>(s: seq<T>, geq: (T, T) -> bool, v: T)
    requires TotalPreorder(geq)
    ensures Filter(SortBy(s, geq), Tie(geq, v)) == Filter(s, Tie(geq, v))
  {
    if s != [] {
      var s' := s[..|s| - 1];
      var x := s[|s| - 1];
      assert s == s' + [x];
      SortByStable(s', geq, v);
      SortBySorted(s', geq);
      InsertStable(SortBy(s', geq), x, geq, v);
      FilterSnoc(SortBy(s', geq), x, Tie(geq, v));
      FilterSnoc(s', x, Tie(geq, v));
    }
  }

  lemma {:induction false} InsertDistinct<T>(t: seq<T>, x: T, geq: (T, T) -> bool, key: T -> string)
    requires DistinctBy(t, key)
    requires forall i :: 0 <= i < |t| ==> key(t[i]) != key(x)
    ensures DistinctBy(Insert(t, x, geq), key)
  {
    if t != [] && geq(t[0], x) {
      var rest := Insert(t[1..], x, geq);
      InsertDistinct(t[1..], x, geq, key);
      forall j | 0 <= j < |rest| ensures key(t[0]) != key(rest[j]) {
        assert rest[j] in multiset(t[1..]) + multiset{x};
        if rest[j] != x {
          var m :| 0 <= m < |t[1..]| && t[1..][m] == rest[j];
          assert t[m + 1] == rest[j];
        }
      }
      assert Insert(t, x, geq) == [t[0]] + rest;
    }
  }

  /** Sorting keeps keys distinct. */
  lemma {:induction false} SortByDistinct<T>(s: seq<T>, geq: (T, T) -> bool, key: T -> string)
    requires DistinctBy(s, key)
    ensures DistinctBy(SortBy(s, geq), key)
  {
    if s != [] {
      var s' := s[..|s| - 1];
      var x := s[|s| - 1];
      var r := SortBy(s', geq);
      SortByDistinct(s', geq, key);
      forall i | 0 <= i < |r| ensures key(r[i]) != key(x) {
        assert r[i] in multiset(s');
        var m :| 0 <= m < |s'| && s'[m] == r[i];
        assert s[m] == r[i];
      }
      InsertDistinct(r, x, geq, key);
    }
  }

  lemma {:induction false} SumIntInsert<T>(t: seq<T>, x: T, geq: (T, T) -> bool, f: T -> int)
    ensures SumInt(Insert(t, x, geq), f) == SumInt(t, f) + f(x)
  {
    if t == [] {
      SumIntSnoc([], x, f);
    } else if geq(t[0], x) {
      SumIntInsert(t[1..], x, geq, f);
      SumIntAppend([t[0]], Insert(t[1..], x, geq), f);
      SumIntAppend([t[0]], t[1..], f);
      assert t == [t[0]] + t[1..];
    } else {
      SumIntAppend([x], t, f);
      SumIntSnoc([], x, f);
    }
  }

  /** Sorting does not change a field's total. */
  lemma {:induction false} SumIntSort<T>(s: seq<T>, geq: (T, T) -> bool, f: T -> int)
    ensures SumInt(SortBy(s, geq), f) == SumInt(s, f)
  {
    if s != [] {
      var s' := s[..|s| - 1];
      SumIntSort(s', geq, f);
      SumIntInsert(SortBy(s', geq), s[|s| - 1], geq, f);
      SumIntSnoc(s', s[|s| - 1], f);
      assert s == s' + [s[|s| - 1]];
    }
  }

  /** Keeping the first `n` of a sorted sequence keeps elements that precede every dropped one. */
  lemma TakeDominatesDrop<T>(r: seq<T>, n: nat, geq: (T, T) -> bool)
    requires SortedBy(r, geq)
    ensures forall i, j :: 0 <= i < |Take(r, n)| && 0 <= j < |Drop(r, n)| ==> geq(Take(r, n)[i], Drop(r, n)[j])
  {
    forall i, j | 0 <= i < |Take(r, n)| && 0 <= j < |Drop(r, n)|
      ensures geq(Take(r, n)[i], Drop(r, n)[j])
    {
      assert Take(r, n)[i] == r[i] && Drop(r, n)[j] == r[n + j];
    }
  }
}
