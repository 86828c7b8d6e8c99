/**
 * Sequence operations that the dashboard borrows from its table library:
 * a stable sort by a total preorder (used for sorting a column, for
 * `nlargest` and for the key order of `groupby`), a boolean-mask
 * selection and the distinct values of a column.
 */
module Sequences {

  /** `le` is reflexive, transitive and total: a total preorder. */
  ghost predicate TotalPreorder<T(!new)>(le: (T, T) -> bool) {
    && (forall x :: le(x, x))
    && (forall x, y, z :: le(x, y) && le(y, z) ==> le(x, z))
    && (forall x, y :: le(x, y) || le(y, x))
  }

  /** Every element is `le` every later element. */
  ghost predicate SortedBy<T>(s: seq<T>, le: (T, T) -> bool) {
    forall i, j :: 0 <= i < j < |s| ==> le(s[i], s[j])
  }

  /** No element occurs twice. */
  ghost predicate Distinct<T>(s: seq<T>) {
    forall i, j :: 0 <= i < j < |s| ==> s[i] != s[j]
  }

  /**
   * Inserts `x` into `t` after every leading element that is `le` it,
   * so that equal elements keep their order of arrival.
   */
  function Insert<T>(t: seq<T>, x: T, le: (T, T) -> bool): (r: seq<T>)
    ensures |r| == |t| + 1
    ensures multiset(r) == multiset(t) + multiset{x}
  {
    if t == [] then [x]
    else
      assert t == [t[0]] + t[1..];
      if le(t[0], x) then [t[0]] + Insert(t[1..], x, le) else [x] + t
  }

  /** Inserting into an ordered sequence keeps it ordered. */
  lemma {:induction false} InsertSorted<T(!new)>(t: seq<T>, x: T, le: (T, T) -> bool)
    requires TotalPreorder(le) && SortedBy(t, le)
    ensures SortedBy(Insert(t, x, le), le)
  {
    if t == [] {
    } else if le(t[0], x) {
      var rest := Insert(t[1..], x, le);
      InsertSorted(t[1..], x, le);
      assert t == [t[0]] + t[1..];
      forall j | 0 <= j < |rest| ensures le(t[0], rest[j]) {
        assert rest[j] in multiset(rest);
        if rest[j] != x {
          assert rest[j] in multiset(t[1..]);
          var k :| 0 <= k < |t[1..]| && t[1..][k] == rest[j];
          assert t[k + 1] == rest[j];
        }
      }
      InsertSortedHead(t[0], rest, le);
    } else {
      assert le(x, t[0]);
      forall j | 0 <= j < |t| ensures le(x, t[j]) {
        if j > 0 {
          assert le(t[0], t[j]);
        }
      }
      InsertSortedHead(x, t, le);
    }
  }

  /** A head that is `le` every element of an ordered tail keeps it ordered. */
  lemma InsertSortedHead<T>(h: T, t: seq<T>, le: (T, T) -> bool)
    requires SortedBy(t, le)
    requires forall j :: 0 <= j < |t| ==> le(h, t[j])
    ensures SortedBy([h] + t, le)
  {
    var r := [h] + t;
    forall i, j | 0 <= i < j < |r| ensures le(r[i], r[j]) {
      assert r[j] == t[j - 1];
      if i > 0 {
        assert r[i] == t[i - 1];
      }
    }
  }

  /** A stable sort: the result is ordered by `le` and a permutation of `s`. */
  function SortBy<T(!new)>(s: seq<T>, le: (T, T) -> bool): (r: seq<T>)
    requires TotalPreorder(le)
    ensures |r| == |s|
    ensures multiset(r) == multiset(s)
    ensures SortedBy(r, le)
  {
    if s == [] then []
    else
      assert s == s[..|s| - 1] + [s[|s| - 1]];
      InsertSorted(SortBy(s[..|s| - 1], le), s[|s| - 1], le);
      Insert(SortBy(s[..|s| - 1], le), s[|s| - 1], le)
  }

  /**
   * The first `n` elements of a sorted permutation of `s` are taken from
   * `s`, and every element of `s` left out is `le`-after each one taken.
   */
  lemma PrefixOfSorted<T>(s: seq<T>, sorted: seq<T>, n: nat, le: (T, T) -> bool)
    requires n <= |sorted| && SortedBy(sorted, le) && multiset(sorted) == multiset(s)
    ensures multiset(sorted[..n]) <= multiset(s)
    ensures forall x, y :: x in multiset(s) - multiset(sorted[..n]) && y in sorted[..n] ==> le(y, x)
  {
    assert sorted == sorted[..n] + sorted[n..];
    assert multiset(s) - multiset(sorted[..n]) == multiset(sorted[n..]);
    forall x, y | x in multiset(sorted[n..]) && y in sorted[..n] ensures le(y, x) {
      var j :| 0 <= j < |sorted[n..]| && sorted[n..][j] == x;
      var i :| 0 <= i < n && sorted[..n][i] == y;
      assert sorted[i] == y && sorted[n + j] == x;
    }
  }

  lemma {:induction false} InsertDistinct<T>(t: seq<T>, x: T, le: (T, T) -> bool)
    requires Distinct(t) && x !in t
    ensures Distinct(Insert(t, x, le))
  {
    if t != [] && le(t[0], x) {
      assert t == [t[0]] + t[1..];
      InsertDistinct(t[1..], x, le);
      var rest := Insert(t[1..], x, le);
      assert t[0] !in multiset(t[1..]) + multiset{x};
      assert t[0] !in rest;
    }
  }

  /** Sorting keeps a sequence free of duplicates. */
  lemma {:induction false} SortByDistinct<T(!new)>(s: seq<T>, le: (T, T) -> bool)
    requires TotalPreorder(le) && Distinct(s)
    ensures Distinct(SortBy(s, le))
  {
    if s != [] {
      var init := s[..|s| - 1];
      SortByDistinct(init, le);
      assert s[|s| - 1] !in multiset(init);
      InsertDistinct(SortBy(init, le), s[|s| - 1], le);
    }
  }

  /** The elements of `s` that satisfy `p`: a boolean-mask selection. */
  function Filter<T(!new)>(s: seq<T>, p: T -> bool): (r: seq<T>)
    ensures |r| <= |s|
  {
    if s == [] then []
    else if p(s[0]) then [s[0]] + Filter(s[1..], p)
    else Filter(s[1..], p)
  }

  /**
   * A mask keeps every selected element, as often as it occurs, and
   * nothing else.
   */
  lemma {:induction false} FilterSelects<T(!new)>(s: seq<T>, p: T -> bool)
    ensures forall x :: x in Filter(s, p) <==> x in s && p(x)
    ensures forall x :: multiset(Filter(s, p))[x] == if p(x) then multiset(s)[x] else 0
  {
    if s != [] {
      assert s == [s[0]] + s[1..];
      FilterSelects(s[1..], p);
    }
  }

  /**
   * A mask keeps the order of its input: masking a concatenation masks
   * each part.
   */
  lemma {:induction false} FilterConcat<T(!new)>(a: seq<T>, b: seq<T>, p: T -> bool)
    ensures Filter(a + b, p) == Filter(a, p) + Filter(b, p)
  {
    if a == [] {
      assert a + b == b;
    } else {
      assert (a + b)[0] == a[0] && (a + b)[1..] == a[1..] + b;
      FilterConcat(a[1..], b, p);
    }
  }

  /** A single element is kept exactly when it passes the mask. */
  lemma FilterSingleton<T(!new)>(x: T, p: T -> bool)
    ensures Filter([x], p) == if p(x) then [x] else []
  {
    assert [x][1..] == [];
  }

  /** Selecting with a mask keeps a sequence free of duplicates. */
  lemma {:induction false} FilterDistinct<T(!new)>(s: seq<T>, p: T -> bool)
    requires Distinct(s)
    ensures Distinct(Filter(s, p))
  {
    if s != [] {
      FilterDistinct(s[1..], p);
      FilterSelects(s[1..], p);
      assert s[0] !in s[1..];
      var rest := Filter(s[1..], p);
      if p(s[0]) {
        assert s[0] !in rest;
        var r := [s[0]] + rest;
        forall i, j | 0 <= i < j < |r| ensures r[i] != r[j] {
          assert r[j] == rest[j - 1];
          if i > 0 {
            assert r[i] == rest[i - 1];
          }
        }
      }
    }
  }

  /** The distinct elements of `s`, each once. */
  function Dedup<T(==, !new)>(s: seq<T>): (r: seq<T>)
    ensures Distinct(r)
    ensures forall x :: x in r <==> x in s
  {
    if s == [] then []
    else
      var init := Dedup(s[..|s| - 1]);
      assert s == s[..|s| - 1] + [s[|s| - 1]];
      if s[|s| - 1] in init then init else init + [s[|s| - 1]]
  }
}
