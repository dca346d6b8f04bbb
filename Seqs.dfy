/**
 * What the database's query layer does to a table in this application:
 * keep the rows that match a condition, order them by a key, take the
 * first few, and cut the result into pages.
 */
module Seqs {
  import opened Wrappers

  /** `filter(...)`: the rows satisfying `p`, in their original order, each as often as it occurs. */
  function Filter<T(!new)>(s: seq<T>, p: T -> bool): (r: seq<T>)
    ensures |r| <= |s|
    ensures forall x :: x in r <==> x in s && p(x)
    ensures forall x :: multiset(r)[x] == if p(x) then multiset(s)[x] else 0
  {
    if s == [] then []
    else
      var rest := Filter(s[1..], p);
      assert s == [s[0]] + s[1..];
      if p(s[0]) then [s[0]] + rest else rest
  }

  /** Filtering a row put in front keeps it in front exactly when it satisfies `p`. */
  lemma FilterCons<T(!new)>(x: T, s: seq<T>, p: T -> bool)
    ensures Filter([x] + s, p) == if p(x) then [x] + Filter(s, p) else Filter(s, p)
  {
    var xs := [x] + s;
    assert xs[0] == x && xs[1..] == s;
  }

  /** Filtering a concatenation filters each part. */
  lemma {:induction false} FilterAppend<T(!new)>(a: seq<T>, b: seq<T>, p: T -> bool)
    ensures Filter(a + b, p) == Filter(a, p) + Filter(b, p)
  {
    if a == [] {
      assert a + b == b;
    } else {
      var x, t := a[0], a[1..];
      assert a == [x] + t;
      AppendAssoc([x], t, b);
      FilterAppend(t, b, p);
      FilterCons(x, t + b, p);
      FilterCons(x, t, p);
      if p(x) {
        AppendAssoc([x], Filter(t, p), Filter(b, p));
      }
    }
  }

  lemma AppendAssoc<T>(u: seq<T>, v: seq<T>, w: seq<T>)
    ensures (u + v) + w == u + (v + w)
  {
  }

  /** The positions of `s` that hold a row satisfying `p`. */
  function Positions<T>(s: seq<T>, p: T -> bool): set<int> {
    set i | 0 <= i < |s| && p(s[i])
  }

  /** `.count()` of a filter: how many positions of `s` hold a row satisfying `p`. */
  lemma {:induction false} FilterCount<T(!new)>(s: seq<T>, p: T -> bool)
    ensures |Filter(s, p)| == |Positions(s, p)|
  {
    if s != [] {
      var t, x := s[..|s| - 1], s[|s| - 1];
      assert s == t + [x];
      FilterCount(t, p);
      FilterAppend(t, [x], p);
      FilterCons(x, [], p);
      assert [x] + [] == [x];
      PositionsExtend(t, x, p);
    }
  }

  /** The positions satisfying `p` in `t + [x]`: those of `t`, and the last one when `x` satisfies `p`. */
  lemma PositionsExtend<T>(t: seq<T>, x: T, p: T -> bool)
    ensures |Positions(t + [x], p)| == |Positions(t, p)| + if p(x) then 1 else 0
  {
    var s := t + [x];
    var before, after := Positions(t, p), Positions(s, p);
    assert forall i :: 0 <= i < |t| ==> s[i] == t[i];
    if p(x) {
      assert after == before + {|t|};
      assert |t| !in before;
    } else {
      assert after == before;
    }
  }

  /** `le` is a total preorder: any two rows are comparable, and comparison chains. */
  ghost predicate TotalPreorder<T(!new)>(le: (T, T) -> bool) {
    && (forall a, b :: le(a, b) || le(b, a))
    && (forall a, b, c :: le(a, b) && le(b, c) ==> le(a, c))
  }

  /** Each row may come before every later one. */
  predicate Sorted<T>(s: seq<T>, le: (T, T) -> bool) {
    forall i, j :: 0 <= i < j < |s| ==> le(s[i], s[j])
  }

  /** `x` placed before the first row it may precede. */
  function Insert<T>(x: T, s: seq<T>, le: (T, T) -> bool): (r: seq<T>)
    ensures multiset(r) == multiset(s) + multiset{x}
    ensures |r| == |s| + 1
  {
    if s == [] then [x]
    else if le(x, s[0]) then [x] + s
    else
      assert s == [s[0]] + s[1..];
      [s[0]] + Insert(x, s[1..], le)
  }

  /** `order_by(...)`: the rows rearranged by `le`. */
  function SortBy<T>(s: seq<T>, le: (T, T) -> bool): (r: seq<T>)
    ensures multiset(r) == multiset(s)
    ensures |r| == |s|
  {
    if s == [] then []
    else
      assert s == [s[0]] + s[1..];
      Insert(s[0], SortBy(s[1..], le), le)
  }

  lemma {:induction false} InsertSorted<T(!new)>(x: T, s: seq<T>, le: (T, T) -> bool)
    requires TotalPreorder(le) && Sorted(s, le)
    ensures Sorted(Insert(x, s, le), le)
  {
    if s != [] && !le(x, s[0]) {
      InsertSorted(x, s[1..], le);
      var r := Insert(x, s, le);
      var t := Insert(x, s[1..], le);
      assert r == [s[0]] + t;
      forall j | 0 < j < |r| ensures le(r[0], r[j]) {
        assert r[j] in multiset(t);
        assert r[j] in multiset(s[1..]) + multiset{x};
        if r[j] != x {
          var k :| 0 <= k < |s[1..]| && s[1..][k] == r[j];
          assert le(s[0], s[k + 1]);
        }
      }
    }
  }

  /** The rows `SortBy` returns are in order. */
  lemma {:induction false} SortBySorted<T(!new)>(s: seq<T>, le: (T, T) -> bool)
    requires TotalPreorder(le)
    ensures Sorted(SortBy(s, le), le)
  {
    if s != [] {
      SortBySorted(s[1..], le);
      InsertSorted(s[0], SortBy(s[1..], le), le);
    }
  }

  /** The first row of a sorted sequence may come before every row in it. */
  lemma SortedHeadFirst<T(!new)>(s: seq<T>, le: (T, T) -> bool, x: T)
    requires TotalPreorder(le) && Sorted(s, le) && x in s
    ensures le(s[0], x)
  {
    var k :| 0 <= k < |s| && s[k] == x;
    if k == 0 {
      assert le(x, x) || le(x, x);
    }
  }

  /** `queryset[:n]`: the first `n` rows, or all of them when there are fewer. */
  function Take<T>(s: seq<T>, n: nat): (r: seq<T>)
    ensures |r| <= n && |r| <= |s|
    ensures |r| == if |s| < n then |s| else n
    ensures forall i :: 0 <= i < |r| ==> r[i] == s[i]
  {
    if |s| <= n then s else s[..n]
  }

  /**
   * The first `n` rows of a sorted list are taken from it, and each may come
   * before every row left out.
   */
  lemma TakeOfSorted<T>(s: seq<T>, n: nat, le: (T, T) -> bool)
    requires Sorted(s, le)
    ensures var r := Take(s, n);
      && multiset(r) <= multiset(s)
      && forall x, i :: 0 <= i < |r| && multiset(r)[x] < multiset(s)[x] ==> le(r[i], x)
  {
    var r := Take(s, n);
    var rest := s[|r|..];
    assert s == r + rest;
    forall x, i | 0 <= i < |r| && multiset(r)[x] < multiset(s)[x] ensures le(r[i], x) {
      assert x in multiset(rest);
      var k :| 0 <= k < |rest| && rest[k] == x;
      assert s[|r| + k] == x;
    }
  }

  /**
   * `queryset.filter(p).order_by(...)[:n]`: given `all`, the rows of `s`
   * satisfying `p` in sorted order, its first `n` rows are as many as there
   * are such rows up to `n`, are taken from `s`, satisfy `p`, stay sorted,
   * and each may come before every row satisfying `p` that is left out.
   */
  lemma TakeOfSortedFilter<T(!new)>(s: seq<T>, p: T -> bool, all: seq<T>, n: nat, le: (T, T) -> bool)
    requires Sorted(all, le) && |all| == |Positions(s, p)|
    requires forall x :: multiset(all)[x] == if p(x) then multiset(s)[x] else 0
    ensures var r, count := Take(all, n), |Positions(s, p)|;
      && |r| == (if count < n then count else n)
      && multiset(r) <= multiset(s)
      && (forall x :: x in r ==> p(x))
      && Sorted(r, le)
      && forall x, i :: 0 <= i < |r| && p(x) && multiset(r)[x] < multiset(s)[x] ==> le(r[i], x)
  {
    var r := Take(all, n);
    TakeOfSorted(all, n, le);
    assert multiset(all) <= multiset(s);
    forall x | x in r ensures p(x) {
      assert multiset(all)[x] > 0;
    }
    RunOfSorted(all, r, 0, le);
  }

  /** The query `.first()`: the first row, if there is one. */
  function First<T>(s: seq<T>): (r: Option<T>)
    ensures r.None? <==> s == []
    ensures r.Some? ==> r.value == s[0]
  {
    if s == [] then None else Some(s[0])
  }

  /**
   * How many pages a list of `count` rows has at `perPage` rows a page;
   * an empty list still has its one (empty) first page.
   */
  function NumPages(count: nat, perPage: nat): (n: nat)
    requires perPage > 0
    ensures count == 0 ==> n == 1
    ensures count > 0 ==> (n - 1) * perPage < count <= n * perPage
  {
    if count == 0 then 1 else (count + perPage - 1) / perPage
  }

  /** Why a page request fails: the page number is not one of the list's pages. */
  datatype PageError = InvalidPage

  /**
   * The rows of page `number` (counted from 1) at `perPage` rows a page, or
   * `InvalidPage` (answered with "404 Not Found") outside 1..NumPages.
   */
  function Page<T>(s: seq<T>, perPage: nat, number: int): (r: Result<seq<T>, PageError>)
    requires perPage > 0
    ensures r.Ok? <==> 1 <= number <= NumPages(|s|, perPage)
    ensures r.Ok? ==> |r.value| <= perPage
    ensures r.Ok? ==> |r.value| == if number * perPage <= |s| then perPage else |s| - (number - 1) * perPage
    ensures r.Ok? ==> forall i :: 0 <= i < |r.value| ==> (number - 1) * perPage + i < |s| && r.value[i] == s[(number - 1) * perPage + i]
  {
    if 1 <= number <= NumPages(|s|, perPage) then
      var lo := (number - 1) * perPage;
      PageStartInRange(|s|, perPage, number);
      assert lo + perPage == number * perPage;
      Ok(RowsFrom(s, lo, perPage))
    else Err(InvalidPage)
  }

  /** Up to `size` consecutive rows of `s`, starting at row `lo`. */
  function RowsFrom<T>(s: seq<T>, lo: nat, size: nat): (r: seq<T>)
    requires lo <= |s|
    ensures |r| == if lo + size <= |s| then size else |s| - lo
    ensures forall i :: 0 <= i < |r| ==> lo + i < |s| && r[i] == s[lo + i]
  {
    if lo + size <= |s| then s[lo..lo + size] else s[lo..]
  }

  /** A page that exists starts within the list (or at 0 for the empty list's one page). */
  lemma PageStartInRange(count: nat, perPage: nat, number: int)
    requires perPage > 0 && 1 <= number <= NumPages(count, perPage)
    ensures (number - 1) * perPage <= count
    ensures count > 0 ==> (number - 1) * perPage < count
  {
    var n := NumPages(count, perPage);
    if count > 0 {
      MulMonotone(n - 1, number - 1, perPage);
    }
  }

  /** Every row lies on exactly one page: row `k` is entry `k % perPage` of page `k / perPage + 1`. */
  lemma PageOfRow<T>(s: seq<T>, perPage: nat, k: nat)
    requires perPage > 0 && k < |s|
    ensures var r := Page(s, perPage, k / perPage + 1);
      r.Ok? && k % perPage < |r.value| && r.value[k % perPage] == s[k]
  {
    var q, m := k / perPage, k % perPage;
    var n := NumPages(|s|, perPage);
    assert k == q * perPage + m;
    if q >= n {
      MulMonotone(q, n, perPage);
      assert false;
    }
    var r := Page(s, perPage, q + 1);
    var hi := if (q + 1) * perPage <= |s| then (q + 1) * perPage else |s|;
    assert (q + 1) * perPage == q * perPage + perPage;
    assert |r.value| == hi - q * perPage;
  }

  /** A page of a sorted list is sorted, and holds only rows of the list. */
  lemma PageOfSorted<T>(s: seq<T>, perPage: nat, number: int, le: (T, T) -> bool)
    requires perPage > 0 && Sorted(s, le)
    ensures var r := Page(s, perPage, number);
      r.Ok? ==> Sorted(r.value, le) && forall x :: x in r.value ==> x in s
  {
    var r := Page(s, perPage, number);
    if r.Ok? {
      RunOfSorted(s, r.value, (number - 1) * perPage, le);
    }
  }

  /** A run of consecutive rows of a sorted list, starting at `lo`, is sorted and holds only rows of the list. */
  lemma RunOfSorted<T>(s: seq<T>, run: seq<T>, lo: int, le: (T, T) -> bool)
    requires Sorted(s, le) && lo >= 0
    requires forall i :: 0 <= i < |run| ==> lo + i < |s| && run[i] == s[lo + i]
    ensures Sorted(run, le) && forall x :: x in run ==> x in s
  {
    forall i, j | 0 <= i < j < |run| ensures le(run[i], run[j]) {
      var a, b := run[i], run[j];
      assert lo + i < |s| && lo + j < |s|;
      assert a == s[lo + i] && b == s[lo + j];
    }
    forall x | x in run ensures x in s {
      var i :| 0 <= i < |run| && run[i] == x;
      assert lo + i < |s| && s[lo + i] == x;
    }
  }

  /** Removing the row at `j` removes one occurrence of it. */
  lemma MultisetRemove<T>(s: seq<T>, j: nat)
    requires j < |s|
    ensures multiset(s[..j] + s[j + 1..]) == multiset(s) - multiset{s[j]}
  {
    assert s == s[..j] + [s[j]] + s[j + 1..];
  }

  lemma MulMonotone(a: int, b: int, c: nat)
    requires a >= b
    ensures a * c >= b * c
  {
    assert a * c - b * c == (a - b) * c;
  }
}
