/** The parts of the ORM's `find` / `findAndCount` that the services rely
    on, over a table held as a sequence: a `where` filter, an `order` by a
    key, descending, and a `skip`/`take` window. */
module Query {
  import opened Common

  /** `where`: the rows that satisfy `p`, in table order. */
  function Filter<T(!new)>(s: seq<T>, p: T -> bool): (r: seq<T>)
    ensures |r| <= |s|
    ensures forall i :: 0 <= i < |r| ==> p(r[i])
    ensures forall x :: x in r <==> x in s && p(x)
    ensures multiset(r) <= multiset(s)
  {
    if s == [] then []
    else
      var rest := Filter(s[..|s| - 1], p);
      assert s == s[..|s| - 1] + [s[|s| - 1]];
      if p(s[|s| - 1]) then rest + [s[|s| - 1]] else rest
  }

  lemma {:induction false} FilterAll<T(!new)>(s: seq<T>, p: T -> bool)
    requires forall i :: 0 <= i < |s| ==> p(s[i])
    ensures Filter(s, p) == s
  {
    if s != [] {
      FilterAll(s[..|s| - 1], p);
      assert s == s[..|s| - 1] + [s[|s| - 1]];
    }
  }

  lemma {:induction false} FilterAppend<T(!new)>(s: seq<T>, x: T, p: T -> bool)
    ensures Filter(s + [x], p) == if p(x) then Filter(s, p) + [x] else Filter(s, p)
  {
    assert (s + [x])[..|s + [x]| - 1] == s;
  }

  /** Rows sorted by `key`, largest first. */
  ghost predicate SortedDesc<T>(s: seq<T>, key: T -> int) {
    forall i, j :: 0 <= i < j < |s| ==> key(s[i]) >= key(s[j])
  }

  /** Every row's key is at most `b`. */
  ghost predicate AllAtMost<T>(s: seq<T>, key: T -> int, b: int) {
    forall i :: 0 <= i < |s| ==> key(s[i]) <= b
  }

  /** One step of insertion sort: `x` goes before the first row whose key
      is not larger than its own. */
  function Insert<T>(x: T, s: seq<T>, key: T -> int): (r: seq<T>)
    ensures multiset(r) == multiset(s) + multiset{x}
    ensures |r| == |s| + 1
  {
    if s == [] then [x]
    else if key(s[0]) <= key(x) then [x] + s
    else
      assert s == [s[0]] + s[1..];
      [s[0]] + Insert(x, s[1..], key)
  }

  lemma {:induction false} InsertAtMost<T>(x: T, s: seq<T>, key: T -> int, b: int)
    requires AllAtMost(s, key, b) && key(x) <= b
    ensures AllAtMost(Insert(x, s, key), key, b)
  {
    if s != [] && key(s[0]) > key(x) {
      InsertAtMost(x, s[1..], key, b);
    }
  }

  lemma {:induction false} InsertSorted<T>(x: T, s: seq<T>, key: T -> int)
    requires SortedDesc(s, key)
    ensures SortedDesc(Insert(x, s, key), key)
  {
    if s != [] && key(s[0]) > key(x) {
      InsertSorted(x, s[1..], key);
      assert AllAtMost(s[1..], key, key(s[0]));
      InsertAtMost(x, s[1..], key, key(s[0]));
    }
  }

  /** `order: { key: 'DESC' }`: a permutation of the rows, largest key first.
      Rows with equal keys keep their table order; the database promises
      nothing about them, so this is one of the orders it may return. */
  function SortDesc<T>(s: seq<T>, key: T -> int): (r: seq<T>)
    ensures SortedDesc(r, key)
    ensures multiset(r) == multiset(s)
    ensures |r| == |s|
  {
    if s == [] then [] else
      assert s == [s[0]] + s[1..];
      var rest := SortDesc(s[1..], key);
      InsertSorted(s[0], rest, key);
      Insert(s[0], rest, key)
  }

  /** Sorting keeps exactly the rows it was given. */
  lemma SortDescMembers<T>(s: seq<T>, key: T -> int)
    ensures forall x :: x in SortDesc(s, key) <==> x in s
  {
    var r := SortDesc(s, key);
    assert forall x :: x in r <==> x in multiset(r);
  }

  /** `where` that no row satisfies returns nothing. */
  lemma {:induction false} FilterNone<T(!new)>(s: seq<T>, p: T -> bool)
    requires forall i :: 0 <= i < |s| ==> !p(s[i])
    ensures Filter(s, p) == []
  {
    if s != [] {
      FilterNone(s[..|s| - 1], p);
    }
  }

  /** `take: n` with a constant `n`: the first `n` rows. */
  function TakeAtMost<T>(s: seq<T>, n: nat): (r: seq<T>)
    ensures |r| == if |s| < n then |s| else n
    ensures r == s[..|r|]
  {
    if |s| < n then s else s[..n]
  }

  /** The first rows of a sorted list are sorted and are rows of the list. */
  lemma TakeOfSorted<T>(s: seq<T>, n: nat, key: T -> int)
    requires SortedDesc(s, key)
    ensures SortedDesc(TakeAtMost(s, n), key)
    ensures forall x :: x in TakeAtMost(s, n) ==> x in s
  {
    var r := TakeAtMost(s, n);
    forall x | x in r ensures x in s {
      var i :| 0 <= i < |r| && r[i] == x;
      assert s[i] == x;
    }
  }

  /** `r` holds rows of `all`, and no row of `all` left out of `r` has a
      larger key than a row of `r`: with `|r| == n`, the `n` rows with the
      largest keys. */
  ghost predicate NewestOf<T>(r: seq<T>, all: seq<T>, key: T -> int) {
    multiset(r) <= multiset(all) &&
    forall x, y :: x in multiset(all) - multiset(r) && y in r ==> key(x) <= key(y)
  }

  /** The first rows of a sorted list are the ones with the largest keys. */
  lemma TakeOfSortedNewest<T>(s: seq<T>, n: nat, key: T -> int)
    requires SortedDesc(s, key)
    ensures NewestOf(TakeAtMost(s, n), s, key)
  {
    var r := TakeAtMost(s, n);
    var rest := s[|r|..];
    assert s == r + rest;
    assert multiset(s) - multiset(r) == multiset(rest);
    forall x, y | x in multiset(s) - multiset(r) && y in r ensures key(x) <= key(y) {
      var j :| 0 <= j < |rest| && rest[j] == x;
      var i :| 0 <= i < |r| && r[i] == y;
      assert s[|r| + j] == x && s[i] == y;
    }
  }

  /** Being the rows with the largest keys depends only on which rows the
      list holds, not on their order. */
  lemma NewestOfSameRows<T>(r: seq<T>, a: seq<T>, b: seq<T>, key: T -> int)
    requires NewestOf(r, a, key) && multiset(a) == multiset(b)
    ensures NewestOf(r, b, key)
  {
  }

  /** `order` by `key` descending with a constant `take: n`: sorted, drawn
      from the rows, as many as there are up to `n` (all of them when there
      are no more), and no row left out has a larger key than a row kept. */
  lemma TakeNewest<T>(s: seq<T>, n: nat, key: T -> int)
    ensures var r := TakeAtMost(SortDesc(s, key), n);
      |r| == (if |s| < n then |s| else n) &&
      SortedDesc(r, key) &&
      (forall i :: 0 <= i < |r| ==> r[i] in s) &&
      (|s| <= n ==> forall x :: x in s ==> x in r) &&
      NewestOf(r, s, key)
  {
    var sorted := SortDesc(s, key);
    SortDescMembers(s, key);
    TakeOfSorted(sorted, n, key);
    TakeOfSortedNewest(sorted, n, key);
    NewestOfSameRows(TakeAtMost(sorted, n), sorted, s, key);
  }

  /** `skip`/`take` as the database applies them: a negative OFFSET or LIMIT
      is refused, and a `take` of 0 is dropped by the ORM (it is falsy), so
      it returns every row from `skip` on. */
  function Window<T>(s: seq<T>, skip: int, take: int): (r: Result<seq<T>>)
    ensures r.Err? <==> skip < 0 || take < 0
    ensures r.Err? ==> r.error == InvalidWindow
    ensures r.Ok? ==> |r.value| <= |s| && (take > 0 ==> |r.value| <= take)
    ensures r.Ok? ==> IsPage(r.value, s, skip)
    ensures r.Ok? && skip + take <= |s| && take > 0 ==> |r.value| == take
    ensures r.Ok? && skip >= |s| ==> r.value == []
    ensures r.Ok? ==> |r.value| == PageLength(|s|, skip, take)
  {
    if skip < 0 || take < 0 then Err(InvalidWindow)
    else
      var from := if skip < |s| then skip else |s|;
      var to := if take == 0 || from + take > |s| then |s| else from + take;
      Ok(s[from..to])
  }

  /** How many rows a valid window of a table of `total` rows holds: none
      past the end, every remaining row when `take` is 0 or reaches past
      the end, and `take` rows otherwise. */
  function PageLength(total: int, skip: int, take: int): int {
    if skip >= total then 0
    else if take == 0 || take > total - skip then total - skip
    else take
  }

  /** `(page - 1) * limit`, the number of rows page `page` skips. */
  function Skipped(page: int, limit: int): (n: int)
    ensures page >= 1 && limit >= 0 ==> n >= 0
  {
    (page - 1) * limit
  }

  /** `page` is the run of `all` that starts at position `skip`. */
  ghost predicate IsPage<T>(page: seq<T>, all: seq<T>, skip: int) {
    0 <= skip && (page != [] ==> skip + |page| <= |all|) && forall i :: 0 <= i < |page| ==> page[i] == all[skip + i]
  }

  /** A page of a sorted listing is sorted and holds only rows of the
      listing. */
  lemma PageOfSorted<T>(page: seq<T>, all: seq<T>, skip: int, key: T -> int)
    requires IsPage(page, all, skip) && SortedDesc(all, key)
    ensures SortedDesc(page, key)
    ensures forall x :: x in page ==> x in all
  {
    forall i, j | 0 <= i < j < |page| ensures key(page[i]) >= key(page[j]) {
      assert page[i] == all[skip + i] && page[j] == all[skip + j];
    }
    forall x | x in page ensures x in all {
      var i :| 0 <= i < |page| && page[i] == x;
      assert all[skip + i] == x;
    }
  }

  /** A lookup that returns the index of the first row satisfying `p`, as
      `findOne({ where })` does. */
  function FindFirst<T>(s: seq<T>, p: T -> bool): (r: Option<nat>)
    ensures r.Some? ==> r.value < |s| && p(s[r.value]) &&
                        forall i :: 0 <= i < r.value ==> !p(s[i])
    ensures r.None? ==> forall i :: 0 <= i < |s| ==> !p(s[i])
  {
    if s == [] then None
    else if p(s[0]) then Some(0)
    else match FindFirst(s[1..], p)
      case None => None
      case Some(i) => Some(i + 1)
  }
}
