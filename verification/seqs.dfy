/** Generic sequence operations the tracker relies on: `Array.prototype.filter`, the
    stable `Array.prototype.sort` under a comparator, and sums of projected values. */
module Seqs {

  /** `s.filter(p)`. */
  function Filter<T(!new)>(s: seq<T>, p: T -> bool): (r: seq<T>)
    ensures |r| <= |s|
    ensures forall x :: x in r <==> x in s && p(x)
    ensures forall x {:trigger multiset(r)[x]} :: multiset(r)[x] == if p(x) then multiset(s)[x] else 0
  {
    if s == [] then []
    else
      assert s == [s[0]] + s[1..];
      if p(s[0]) then [s[0]] + Filter(s[1..], p) else Filter(s[1..], p)
  }

  /** `t` is `s` with some elements left out and the rest kept in order. */
  ghost predicate IsSubsequence<T>(t: seq<T>, s: seq<T>)
  {
    if s == [] then t == []
    else (t != [] && t[0] == s[0] && IsSubsequence(t[1..], s[1..])) || IsSubsequence(t, s[1..])
  }

  lemma {:induction false} FilterIsSubsequence<T(!new)>(s: seq<T>, p: T -> bool)
    ensures IsSubsequence(Filter(s, p), s)
  {
    if s != [] {
      FilterIsSubsequence(s[1..], p);
    }
  }

  lemma {:induction false} FilterAllPass<T(!new)>(s: seq<T>, p: T -> bool)
    requires forall i :: 0 <= i < |s| ==> p(s[i])
    ensures Filter(s, p) == s
  {
    if s != [] { FilterAllPass(s[1..], p); }
  }

  lemma {:induction false} FilterIdempotent<T(!new)>(s: seq<T>, p: T -> bool)
    ensures Filter(Filter(s, p), p) == Filter(s, p)
  {
    var f := Filter(s, p);
    forall i | 0 <= i < |f| ensures p(f[i]) { assert f[i] in f; }
    FilterAllPass(f, p);
  }

  /** Filtering by a narrower test after a wider one is filtering by the narrower test alone. */
  lemma {:induction false} FilterNarrower<T(!new)>(s: seq<T>, p: T -> bool, q: T -> bool)
    requires forall x :: q(x) ==> p(x)
    ensures Filter(Filter(s, p), q) == Filter(s, q)
  {
    if s != [] {
      FilterNarrower(s[1..], p, q);
    }
  }

  /** `le` says `a` may stand before `b`: a comparator `c` read as `c(a, b) <= 0`. */
  ghost predicate TotalPreorder<T(!new)>(le: (T, T) -> bool)
  {
    && (forall a, b :: le(a, b) || le(b, a))
    && (forall a, b, c :: le(a, b) && le(b, c) ==> le(a, c))
  }

  /** `rel` holds from every element to every later one; with a comparator's `le`, "sorted". */
  ghost predicate Pairwise<T>(s: seq<T>, rel: (T, T) -> bool)
  {
    forall i, j :: 0 <= i < j < |s| ==> rel(s[i], s[j])
  }

  /** Places `x` before the first element it may precede. */
  function Insert<T>(x: T, s: seq<T>, le: (T, T) -> bool): (r: seq<T>)
    ensures |r| == |s| + 1
    ensures multiset(r) == multiset(s) + multiset{x}
  {
    if s == [] then [x]
    else if le(x, s[0]) then [x] + s
    else
      assert s == [s[0]] + s[1..];
      [s[0]] + Insert(x, s[1..], le)
  }

  /** A stable sort: an element that came first stays first among those `le` cannot tell apart,
      which is what `Array.prototype.sort` guarantees. */
  function Sort<T>(s: seq<T>, le: (T, T) -> bool): (r: seq<T>)
    ensures |r| == |s|
    ensures multiset(r) == multiset(s)
  {
    if s == [] then []
    else
      assert s == [s[0]] + s[1..];
      Insert(s[0], Sort(s[1..], le), le)
  }

  lemma {:induction false} InsertSorted<T(!new)>(x: T, s: seq<T>, le: (T, T) -> bool)
    requires TotalPreorder(le) && Pairwise(s, le)
    ensures Pairwise(Insert(x, s, le), le)
  {
    if s != [] && !le(x, s[0]) {
      InsertSorted(x, s[1..], le);
      var r := Insert(x, s, le);
      var t := Insert(x, s[1..], le);
      assert r == [s[0]] + t;
      forall j | 1 <= j < |r| ensures le(r[0], r[j]) {
        assert r[j] in multiset(t);
        assert r[j] in multiset(s[1..]) + multiset{x};
        if r[j] == x {
        } else {
          assert r[j] in s[1..];
          var k :| 0 <= k < |s[1..]| && s[1..][k] == r[j];
          assert s[k + 1] == r[j];
        }
      }
    }
  }

  lemma {:induction false} SortSorted<T(!new)>(s: seq<T>, le: (T, T) -> bool)
    requires TotalPreorder(le)
    ensures Pairwise(Sort(s, le), le)
  {
    if s != [] {
      SortSorted(s[1..], le);
      InsertSorted(s[0], Sort(s[1..], le), le);
    }
  }

  /** Sorting what is already in order changes nothing. */
  lemma {:induction false} SortOfSorted<T>(s: seq<T>, le: (T, T) -> bool)
    requires Pairwise(s, le)
    ensures Sort(s, le) == s
  {
    if s != [] {
      SortOfSorted(s[1..], le);
      assert s == [s[0]] + s[1..];
    }
  }

  /** How many leading elements of `s` the element `x` may not precede. */
  function LeadCount<T>(x: T, s: seq<T>, le: (T, T) -> bool): (k: nat)
    ensures k <= |s|
    ensures forall i :: 0 <= i < k ==> !le(x, s[i])
    ensures k < |s| ==> le(x, s[k])
  {
    if s == [] || le(x, s[0]) then 0 else 1 + LeadCount(x, s[1..], le)
  }

  /** Where `Insert` puts `x`: after the leading elements it may not precede, before the first
      one it may, with the rest of `s` unchanged around it. */
  lemma {:induction false} InsertSplits<T>(x: T, s: seq<T>, le: (T, T) -> bool)
    ensures var k := LeadCount(x, s, le); Insert(x, s, le) == s[..k] + [x] + s[k..]
  {
    if s == [] || le(x, s[0]) {
      assert s[..0] + [x] + s[0..] == [x] + s;
    } else {
      var rest := s[1..];
      InsertSplits(x, rest, le);
      var k := LeadCount(x, rest, le);
      assert [s[0]] + rest == s;
      ConsSplit(s[0], rest, x, k);
    }
  }

  /** Putting `x` at place `k` of the tail is putting it at place `k + 1` of the whole. */
  lemma ConsSplit<T>(a: T, rest: seq<T>, x: T, k: nat)
    requires k <= |rest|
    ensures [a] + (rest[..k] + [x] + rest[k..])
      == ([a] + rest)[..k + 1] + [x] + ([a] + rest)[k + 1..]
  {
    var s := [a] + rest;
    assert s[..k + 1] == [a] + rest[..k];
    assert s[k + 1..] == rest[k..];
  }

  /** A relation that holds between every earlier and later element still holds after filtering. */
  lemma {:induction false} FilterPairwise<T(!new)>(s: seq<T>, p: T -> bool, rel: (T, T) -> bool)
    requires Pairwise(s, rel)
    ensures Pairwise(Filter(s, p), rel)
  {
    if s != [] {
      assert Pairwise(s[1..], rel) by {
        forall i, j | 0 <= i < j < |s[1..]| ensures rel(s[1..][i], s[1..][j]) {
          assert s[1..][i] == s[i + 1] && s[1..][j] == s[j + 1];
        }
      }
      FilterPairwise(s[1..], p, rel);
      var t := Filter(s[1..], p);
      if p(s[0]) {
        var r := [s[0]] + t;
        forall i, j | 0 <= i < j < |r| ensures rel(r[i], r[j]) {
          if i == 0 {
            assert r[j] == t[j - 1];
            assert t[j - 1] in s[1..];
            var k :| 0 <= k < |s[1..]| && s[1..][k] == t[j - 1];
            assert s[k + 1] == r[j];
            assert rel(s[0], s[k + 1]);
          } else {
            assert r[i] == t[i - 1] && r[j] == t[j - 1];
            assert rel(t[i - 1], t[j - 1]);
          }
        }
      }
    }
  }

  function Sum<T>(s: seq<T>, f: T -> int): int
  {
    if s == [] then 0 else f(s[0]) + Sum(s[1..], f)
  }

  lemma {:induction false} SumAppend<T>(a: seq<T>, b: seq<T>, f: T -> int)
    ensures Sum(a + b, f) == Sum(a, f) + Sum(b, f)
  {
    if a == [] {
      assert a + b == b;
    } else {
      assert (a + b)[0] == a[0] && (a + b)[1..] == a[1..] + b;
      SumAppend(a[1..], b, f);
    }
  }

  /** Replacing one element changes the sum by the difference of the two values. */
  lemma {:induction false} SumUpdate<T>(s: seq<T>, j: nat, y: T, f: T -> int)
    requires j < |s|
    ensures Sum(s[j := y], f) == Sum(s, f) - f(s[j]) + f(y)
  {
    if j > 0 {
      SumUpdate(s[1..], j - 1, y, f);
      assert s[j := y][1..] == s[1..][j - 1 := y];
    }
  }

  /** Inserting adds the inserted value to the sum. */
  lemma {:induction false} InsertSum<T>(x: T, s: seq<T>, le: (T, T) -> bool, f: T -> int)
    ensures Sum(Insert(x, s, le), f) == f(x) + Sum(s, f)
  {
    if s != [] && !le(x, s[0]) {
      var r := Insert(x, s, le);
      InsertSum(x, s[1..], le, f);
      assert r[0] == s[0] && r[1..] == Insert(x, s[1..], le);
    }
  }

  /** Sorting does not change the sum. */
  lemma {:induction false} SortSum<T>(s: seq<T>, le: (T, T) -> bool, f: T -> int)
    ensures Sum(Sort(s, le), f) == Sum(s, f)
  {
    if s != [] {
      SortSum(s[1..], le, f);
      InsertSum(s[0], Sort(s[1..], le), le, f);
    }
  }

  ghost predicate Symmetric<T(!new)>(rel: (T, T) -> bool)
  {
    forall a, b :: rel(a, b) == rel(b, a)
  }

  lemma InsertKeepsPairwise<T(!new)>(x: T, s: seq<T>, le: (T, T) -> bool, rel: (T, T) -> bool)
    requires Symmetric(rel) && Pairwise(s, rel)
    requires forall i :: 0 <= i < |s| ==> rel(x, s[i])
    ensures Pairwise(Insert(x, s, le), rel)
  {
    var k := LeadCount(x, s, le);
    InsertSplits(x, s, le);
    var r := s[..k] + [x] + s[k..];
    forall i, j | 0 <= i < j < |r| ensures rel(r[i], r[j]) {
      SplitAt(s, x, k, i);
      SplitAt(s, x, k, j);
      if i == k || j == k {
        assert rel(r[i], r[j]) == rel(r[j], r[i]);
      }
    }
  }

  /** The element at place `i` once `x` is put at place `k`. */
  lemma SplitAt<T>(s: seq<T>, x: T, k: nat, i: nat)
    requires k <= |s| && i <= |s|
    ensures var r := s[..k] + [x] + s[k..];
      |r| == |s| + 1 && r[i] == (if i < k then s[i] else if i == k then x else s[i - 1])
  {
  }

  /** A symmetric relation that holds between all elements at distinct places still does after
      sorting, which only moves them around. */
  lemma {:induction false} SortKeepsPairwise<T(!new)>(s: seq<T>, le: (T, T) -> bool,
      rel: (T, T) -> bool)
    requires Symmetric(rel) && Pairwise(s, rel)
    ensures Pairwise(Sort(s, le), rel)
  {
    if s != [] {
      assert Pairwise(s[1..], rel) by {
        forall i, j | 0 <= i < j < |s[1..]| ensures rel(s[1..][i], s[1..][j]) {
          assert s[1..][i] == s[i + 1] && s[1..][j] == s[j + 1];
        }
      }
      SortKeepsPairwise(s[1..], le, rel);
      var t := Sort(s[1..], le);
      forall i | 0 <= i < |t| ensures rel(s[0], t[i]) {
        assert t[i] in multiset(s[1..]);
        var m :| 0 <= m < |s[1..]| && s[1..][m] == t[i];
        assert s[m + 1] == t[i];
      }
      InsertKeepsPairwise(s[0], t, le, rel);
    }
  }

  /** Sequences whose elements contribute the same values place by place have the same sum. */
  lemma {:induction false} SumPointwise<A, B>(a: seq<A>, b: seq<B>, f: A -> int, g: B -> int)
    requires |a| == |b| && forall i :: 0 <= i < |a| ==> f(a[i]) == g(b[i])
    ensures Sum(a, f) == Sum(b, g)
  {
    if a != [] {
      assert forall i :: 0 <= i < |a| - 1 ==> a[1..][i] == a[i + 1] && b[1..][i] == b[i + 1];
      SumPointwise(a[1..], b[1..], f, g);
    }
  }

  lemma {:induction false} FilterSnoc<T(!new)>(s: seq<T>, x: T, p: T -> bool)
    ensures Filter(s + [x], p) == Filter(s, p) + (if p(x) then [x] else [])
  {
    if s == [] {
      assert s + [x] == [x] && [x][1..] == [];
    } else {
      assert (s + [x])[0] == s[0] && (s + [x])[1..] == s[1..] + [x];
      FilterSnoc(s[1..], x, p);
    }
  }
}
