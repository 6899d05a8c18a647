/** Queries over a table held as a sequence of rows in the store's natural
    (insertion) order: filtering, the first match (`find` / `find_one`),
    ordering by `created_at` descending, limits, and the newest row of one
    author (`order(created_at desc).limit(1).single()`). The functions are
    kept free of postconditions; what they guarantee is stated by the lemmas
    next to them. */
module Tables {
  import opened Wrappers

  function Filter<R>(rows: seq<R>, p: R -> bool): seq<R> {
    if rows == [] then []
    else if p(rows[0]) then [rows[0]] + Filter(rows[1..], p)
    else Filter(rows[1..], p)
  }

  /** `Filter` keeps every copy of each matching row and nothing else; that
      the kept rows stay in table order is `FilterAppend`. */
  lemma {:induction false} FilterSpec<R(!new)>(rows: seq<R>, p: R -> bool)
    ensures |Filter(rows, p)| <= |rows|
    ensures forall x :: x in Filter(rows, p) <==> x in rows && p(x)
    ensures forall i :: 0 <= i < |Filter(rows, p)| ==> p(Filter(rows, p)[i])
    ensures multiset(Filter(rows, p)) <= multiset(rows)
    ensures forall x :: multiset(Filter(rows, p))[x] == if p(x) then multiset(rows)[x] else 0
  {
    if rows != [] {
      FilterSpec(rows[1..], p);
      assert rows == [rows[0]] + rows[1..];
    }
  }

  /** Filtering a table grown by one row at the end extends the filtered
      table by that row when it matches: kept rows stay in table order. */
  lemma {:induction false} FilterAppend<R>(rows: seq<R>, x: R, p: R -> bool)
    ensures Filter(rows + [x], p) == Filter(rows, p) + (if p(x) then [x] else [])
  {
    if rows != [] {
      assert (rows + [x])[1..] == rows[1..] + [x];
      FilterAppend(rows[1..], x, p);
    } else {
      assert rows + [x] == [x];
    }
  }

  /** `Filter` selects nothing exactly when no row matches. */
  lemma {:induction false} FilterEmptyIff<R>(rows: seq<R>, p: R -> bool)
    ensures Filter(rows, p) == [] <==> forall x :: x in rows ==> !p(x)
  {
    if rows != [] {
      assert rows[0] in rows;
      assert forall x :: x in rows <==> x == rows[0] || x in rows[1..];
      FilterEmptyIff(rows[1..], p);
    }
  }

  /** Two filters that agree on every row of the table select the same rows. */
  lemma {:induction false} FilterAgrees<R>(rows: seq<R>, p: R -> bool, q: R -> bool)
    requires forall x :: x in rows ==> p(x) == q(x)
    ensures Filter(rows, p) == Filter(rows, q)
  {
    if rows != [] {
      assert rows[0] in rows;
      assert forall x :: x in rows[1..] ==> x in rows;
      FilterAgrees(rows[1..], p, q);
    }
  }

  /** Index of the first row satisfying `p`, as `find` / `find_one` see it. */
  function FirstIndex<R>(rows: seq<R>, p: R -> bool): (r: Option<nat>)
    ensures r.Some? ==> r.value < |rows|
  {
    if rows == [] then None
    else if p(rows[0]) then Some(0)
    else
      match FirstIndex(rows[1..], p)
      case None => None
      case Some(k) => Some(k + 1)
  }

  /** `FirstIndex` finds the first match, and finds none exactly when no row matches. */
  lemma {:induction false} FirstIndexSpec<R>(rows: seq<R>, p: R -> bool)
    ensures var r := FirstIndex(rows, p);
            && (r.Some? ==> p(rows[r.value]) && forall j :: 0 <= j < r.value ==> !p(rows[j]))
            && (r.None? <==> forall j :: 0 <= j < |rows| ==> !p(rows[j]))
  {
    if rows != [] && !p(rows[0]) {
      FirstIndexSpec(rows[1..], p);
      var r := FirstIndex(rows[1..], p);
      if r.None? {
        assert forall j :: 1 <= j < |rows| ==> rows[j] == rows[1..][j - 1];
      }
    }
  }

  /** The first row satisfying `p` (`Array.prototype.find`, Mongo `find_one`). */
  function First<R>(rows: seq<R>, p: R -> bool): Option<R> {
    match FirstIndex(rows, p)
    case None => None
    case Some(k) => Some(rows[k])
  }

  /** `First` returns a matching row of the table, and nothing exactly when no row matches. */
  lemma FirstSpec<R>(rows: seq<R>, p: R -> bool)
    ensures First(rows, p).Some? ==> First(rows, p).value in rows && p(First(rows, p).value)
    ensures First(rows, p).None? <==> forall x :: x in rows ==> !p(x)
  {
    FirstIndexSpec(rows, p);
  }

  /** `First` is the row at the first matching position. */
  lemma FirstIsEarliest<R>(rows: seq<R>, p: R -> bool, k: nat)
    requires k < |rows| && p(rows[k])
    requires forall j :: 0 <= j < k ==> !p(rows[j])
    ensures First(rows, p) == Some(rows[k])
  {
    FirstIndexSpec(rows, p);
  }

  /** `.limit(n)` / `to_list(n)`: the first `limit` rows. */
  function Take<R>(rows: seq<R>, limit: nat): seq<R> {
    if |rows| <= limit then rows else rows[..limit]
  }

  lemma TakeSpec<R>(rows: seq<R>, limit: nat)
    ensures |Take(rows, limit)| == if |rows| <= limit then |rows| else limit
    ensures Take(rows, limit) == rows[..|Take(rows, limit)|]
  {
  }

  /** Rows listed newest first by `stamp`. */
  ghost predicate NewestFirst<R>(rows: seq<R>, stamp: R -> int) {
    forall i, j :: 0 <= i < j < |rows| ==> stamp(rows[i]) >= stamp(rows[j])
  }

  /** Inserts `x` before the first row that is not newer than it. */
  function InsertByStamp<R>(x: R, rows: seq<R>, stamp: R -> int): seq<R> {
    if rows == [] || stamp(x) >= stamp(rows[0]) then [x] + rows
    else [rows[0]] + InsertByStamp(x, rows[1..], stamp)
  }

  lemma {:induction false} InsertByStampSpec<R>(x: R, rows: seq<R>, stamp: R -> int)
    ensures multiset(InsertByStamp(x, rows, stamp)) == multiset(rows) + multiset{x}
    ensures |InsertByStamp(x, rows, stamp)| == |rows| + 1
    ensures NewestFirst(rows, stamp) ==> NewestFirst(InsertByStamp(x, rows, stamp), stamp)
  {
    if rows == [] || stamp(x) >= stamp(rows[0]) {
      if NewestFirst(rows, stamp) {
        forall y | y in rows ensures stamp(y) <= stamp(x) {
          var k :| 0 <= k < |rows| && rows[k] == y;
          assert k == 0 || stamp(rows[0]) >= stamp(rows[k]);
        }
        ConsNewestFirst(x, rows, stamp);
      }
    } else {
      var tail := InsertByStamp(x, rows[1..], stamp);
      InsertByStampSpec(x, rows[1..], stamp);
      assert rows == [rows[0]] + rows[1..];
      if NewestFirst(rows, stamp) {
        assert NewestFirst(rows[1..], stamp) by {
          forall i, j | 0 <= i < j < |rows[1..]| ensures stamp(rows[1..][i]) >= stamp(rows[1..][j]) {
            assert rows[1..][i] == rows[i + 1] && rows[1..][j] == rows[j + 1];
          }
        }
        HeadStaysNewest(rows, tail, x, stamp);
        ConsNewestFirst(rows[0], tail, stamp);
      }
    }
  }

  /** The newest row stays ahead of the rest after an older row joins them. */
  lemma HeadStaysNewest<R>(rows: seq<R>, tail: seq<R>, x: R, stamp: R -> int)
    requires rows != [] && NewestFirst(rows, stamp) && stamp(x) < stamp(rows[0])
    requires multiset(tail) == multiset(rows[1..]) + multiset{x}
    ensures forall y :: y in tail ==> stamp(y) <= stamp(rows[0])
  {
    forall y | y in tail ensures stamp(y) <= stamp(rows[0]) {
      assert y in multiset(tail);
      if y != x {
        assert y in multiset(rows[1..]);
        var k :| 0 <= k < |rows[1..]| && rows[1..][k] == y;
        assert rows[k + 1] == y;
      }
    }
  }

  /** A row at least as new as every row of a newest-first list can head it. */
  lemma ConsNewestFirst<R>(h: R, tail: seq<R>, stamp: R -> int)
    requires NewestFirst(tail, stamp)
    requires forall y :: y in tail ==> stamp(y) <= stamp(h)
    ensures NewestFirst([h] + tail, stamp)
  {
    var r := [h] + tail;
    forall i, j | 0 <= i < j < |r| ensures stamp(r[i]) >= stamp(r[j]) {
      assert r[j] == tail[j - 1];
      if i > 0 {
        assert r[i] == tail[i - 1];
      } else {
        assert tail[j - 1] in tail;
      }
    }
  }

  /** `order('created_at', { ascending: false })` / `.sort("created_at", -1)`.
      Rows with equal stamps keep their natural order. */
  function SortNewestFirst<R>(rows: seq<R>, stamp: R -> int): seq<R> {
    if rows == [] then []
    else InsertByStamp(rows[0], SortNewestFirst(rows[1..], stamp), stamp)
  }

  /** Sorting yields a newest-first permutation of the rows. */
  lemma {:induction false} SortSpec<R>(rows: seq<R>, stamp: R -> int)
    ensures multiset(SortNewestFirst(rows, stamp)) == multiset(rows)
    ensures |SortNewestFirst(rows, stamp)| == |rows|
    ensures NewestFirst(SortNewestFirst(rows, stamp), stamp)
  {
    if rows != [] {
      var rest := SortNewestFirst(rows[1..], stamp);
      SortSpec(rows[1..], stamp);
      InsertByStampSpec(rows[0], rest, stamp);
      assert SortNewestFirst(rows, stamp) == InsertByStamp(rows[0], rest, stamp);
      assert rows == [rows[0]] + rows[1..];
      assert multiset(rows) == multiset{rows[0]} + multiset(rows[1..]);
    }
  }

  /** A filtered, newest-first, limited query. */
  function Query<R>(rows: seq<R>, p: R -> bool, stamp: R -> int, limit: nat): seq<R> {
    Take(SortNewestFirst(Filter(rows, p), stamp), limit)
  }

  /** A query returns at most `limit` matching rows of the table, newest
      first; when no more than `limit` rows match, it returns all of them. */
  lemma QuerySpec<R(!new)>(rows: seq<R>, p: R -> bool, stamp: R -> int, limit: nat)
    ensures var r := Query(rows, p, stamp, limit);
            && |r| <= limit
            && (forall i :: 0 <= i < |r| ==> p(r[i]) && r[i] in rows)
            && NewestFirst(r, stamp)
            && (|Filter(rows, p)| <= limit ==> multiset(r) == multiset(Filter(rows, p)))
  {
    var matching := Filter(rows, p);
    var sorted := SortNewestFirst(matching, stamp);
    var r := Query(rows, p, stamp, limit);
    FilterSpec(rows, p);
    SortSpec(matching, stamp);
    TakeSpec(sorted, limit);
    forall i | 0 <= i < |r| ensures p(r[i]) && r[i] in rows {
      assert r[i] == sorted[i];
      assert r[i] in multiset(matching);
    }
    assert NewestFirst(r, stamp) by {
      forall i, j | 0 <= i < j < |r| ensures stamp(r[i]) >= stamp(r[j]) {
        assert r[i] == sorted[i] && r[j] == sorted[j];
      }
    }
  }

  /** The newest row satisfying `p` (ties go to the earliest such row in
      natural order), or None when no row does. */
  function Newest<R>(rows: seq<R>, p: R -> bool, stamp: R -> int): Option<R> {
    var sorted := SortNewestFirst(Filter(rows, p), stamp);
    if sorted == [] then None else Some(sorted[0])
  }

  /** `Newest` is a matching row with the greatest stamp among the matches,
      and None exactly when nothing matches. */
  lemma NewestSpec<R(!new)>(rows: seq<R>, p: R -> bool, stamp: R -> int)
    ensures Newest(rows, p, stamp).None? <==> forall x :: x in rows ==> !p(x)
    ensures Newest(rows, p, stamp).Some? ==>
              var n := Newest(rows, p, stamp).value;
              n in rows && p(n) && forall x :: x in rows && p(x) ==> stamp(x) <= stamp(n)
  {
    var matching := Filter(rows, p);
    var sorted := SortNewestFirst(matching, stamp);
    FilterSpec(rows, p);
    SortSpec(matching, stamp);
    if sorted == [] {
      assert forall x :: x in rows && p(x) ==> x in multiset(sorted);
    } else {
      assert sorted[0] in multiset(sorted);
      forall x | x in rows && p(x) ensures stamp(x) <= stamp(sorted[0]) {
        assert x in multiset(sorted);
        var k :| 0 <= k < |sorted| && sorted[k] == x;
      }
    }
  }

  /** Adding a row newer than every row of its author makes it that author's newest. */
  lemma NewestAfterInsert<R(!new)>(rows: seq<R>, x: R, p: R -> bool, stamp: R -> int)
    requires p(x)
    requires forall y :: y in rows && p(y) ==> stamp(y) < stamp(x)
    ensures Newest(rows + [x], p, stamp) == Some(x)
  {
    NewestSpec(rows + [x], p, stamp);
    assert x in rows + [x];
    var r := Newest(rows + [x], p, stamp);
    assert r.value in rows + [x];
  }

  /** Removes the first row satisfying `p` (`delete_one`). */
  function RemoveFirst<R>(rows: seq<R>, p: R -> bool): seq<R> {
    match FirstIndex(rows, p)
    case None => rows
    case Some(k) => rows[..k] + rows[k + 1..]
  }

  /** `delete_one` removes exactly the first matching row and keeps the others in order. */
  lemma RemoveFirstSpec<R>(rows: seq<R>, p: R -> bool, k: nat)
    requires k < |rows| && p(rows[k])
    requires forall j :: 0 <= j < k ==> !p(rows[j])
    ensures RemoveFirst(rows, p) == rows[..k] + rows[k + 1..]
    ensures multiset(RemoveFirst(rows, p)) + multiset{rows[k]} == multiset(rows)
  {
    FirstIndexSpec(rows, p);
    assert rows == rows[..k] + [rows[k]] + rows[k + 1..];
  }

  /** A query's first row is the newest match, and a query with no match is empty. */
  lemma QueryStartsWithNewest<R>(rows: seq<R>, p: R -> bool, stamp: R -> int, limit: nat)
    requires limit > 0
    ensures Newest(rows, p, stamp).None? ==> Query(rows, p, stamp, limit) == []
    ensures Newest(rows, p, stamp).Some? ==>
              |Query(rows, p, stamp, limit)| > 0
              && Query(rows, p, stamp, limit)[0] == Newest(rows, p, stamp).value
  {
  }

  /** The positions of the rows satisfying `p`. */
  ghost function Positions<R>(rows: seq<R>, p: R -> bool): set<int> {
    set i | 0 <= i < |rows| && p(rows[i])
  }

  /** `|Filter(rows, p)|` counts the matching positions (`count_documents`). */
  lemma {:induction false} FilterCountsMatches<R>(rows: seq<R>, p: R -> bool)
    ensures |Filter(rows, p)| == |Positions(rows, p)|
  {
    if rows != [] {
      var init, x := rows[..|rows| - 1], rows[|rows| - 1];
      assert rows == init + [x];
      FilterAppend(init, x, p);
      FilterCountsMatches(init, p);
      PositionsAppend(init, x, p);
    }
  }

  /** A row added at the end adds its own position when it matches. */
  lemma PositionsAppend<R>(init: seq<R>, x: R, p: R -> bool)
    ensures Positions(init + [x], p) == Positions(init, p) + (if p(x) then {|init|} else {})
    ensures |init| !in Positions(init, p)
  {
    var rows := init + [x];
    forall i ensures i in Positions(rows, p) <==> i in Positions(init, p) + (if p(x) then {|init|} else {}) {
      if 0 <= i < |init| {
        assert rows[i] == init[i];
      }
    }
  }

  /** The rows whose key is `k` (a `{"id": k}` filter). */
  function KeyIs<R, K(==)>(key: R -> K, k: K): R -> bool {
    r => key(r) == k
  }

  /** No two rows share a key (identifiers drawn fresh for every insert). */
  ghost predicate UniqueKeys<R, K>(rows: seq<R>, key: R -> K) {
    forall i, j :: 0 <= i < j < |rows| ==> key(rows[i]) != key(rows[j])
  }

  /** With unique keys, `delete_one` by key leaves no row with that key. */
  lemma RemoveFirstByKey<R, K>(rows: seq<R>, key: R -> K, k: K)
    requires UniqueKeys(rows, key)
    ensures forall x :: x in RemoveFirst(rows, KeyIs(key, k)) ==> key(x) != k
  {
    FirstIndexSpec(rows, KeyIs(key, k));
    var r := RemoveFirst(rows, KeyIs(key, k));
    match FirstIndex(rows, KeyIs(key, k))
    case None =>
    case Some(i) =>
      forall x | x in r ensures key(x) != k {
        var j :| 0 <= j < |r| && r[j] == x;
        if j < i {
          assert x == rows[j];
        } else {
          assert x == rows[j + 1];
        }
      }
  }

  /** `update_one`: `f` applied to the first row satisfying `p`; a table
      without a match is left as it is. */
  function UpdateFirst<R>(rows: seq<R>, p: R -> bool, f: R -> R): seq<R> {
    match FirstIndex(rows, p)
    case None => rows
    case Some(k) => rows[k := f(rows[k])]
  }

  /** `update_one` changes the first matching row and no other. */
  lemma UpdateFirstAt<R>(rows: seq<R>, p: R -> bool, f: R -> R, k: nat)
    requires k < |rows| && p(rows[k])
    requires forall j :: 0 <= j < k ==> !p(rows[j])
    ensures UpdateFirst(rows, p, f) == rows[k := f(rows[k])]
  {
    FirstIndexSpec(rows, p);
  }

  /** `update_one` without a match changes nothing. */
  lemma UpdateFirstNoMatch<R>(rows: seq<R>, p: R -> bool, f: R -> R)
    requires forall x :: x in rows ==> !p(x)
    ensures UpdateFirst(rows, p, f) == rows
  {
    FirstIndexSpec(rows, p);
  }

  /** An update that keeps the row matching and is idempotent itself
      (`$set` of a constant) is idempotent as a whole. */
  lemma UpdateFirstIdempotent<R>(rows: seq<R>, p: R -> bool, f: R -> R)
    requires forall x :: p(x) ==> p(f(x)) && f(f(x)) == f(x)
    ensures UpdateFirst(UpdateFirst(rows, p, f), p, f) == UpdateFirst(rows, p, f)
  {
    FirstIndexSpec(rows, p);
    match FirstIndex(rows, p)
    case None =>
    case Some(k) =>
      var once := rows[k := f(rows[k])];
      UpdateFirstAt(once, p, f, k);
  }

  /** With unique keys, `update_one` by key changes exactly the row with that
      key, if there is one. */
  lemma UpdateByUniqueKey<R, K>(rows: seq<R>, key: R -> K, k: K, f: R -> R)
    requires UniqueKeys(rows, key)
    ensures |UpdateFirst(rows, KeyIs(key, k), f)| == |rows|
    ensures forall i :: 0 <= i < |rows| ==>
              UpdateFirst(rows, KeyIs(key, k), f)[i] == if key(rows[i]) == k then f(rows[i]) else rows[i]
  {
    FirstIndexSpec(rows, KeyIs(key, k));
  }

  /** With unique keys, no later row shares the first row's key. */
  lemma HeadKeyIsUnique<R, K>(rows: seq<R>, key: R -> K)
    requires rows != [] && UniqueKeys(rows, key)
    ensures UniqueKeys(rows[1..], key)
    ensures forall x :: x in rows[1..] ==> key(x) != key(rows[0])
  {
    var tail := rows[1..];
    forall i, j | 0 <= i < j < |tail| ensures key(tail[i]) != key(tail[j]) {
      assert tail[i] == rows[i + 1] && tail[j] == rows[j + 1];
    }
    forall x | x in tail ensures key(x) != key(rows[0]) {
      var m :| 0 <= m < |tail| && tail[m] == x;
      assert rows[m + 1] == x;
    }
  }

  /** A row whose key no other row has can head a table of unique keys. */
  lemma ConsKeepsUniqueKeys<R, K>(x: R, rows: seq<R>, key: R -> K)
    requires UniqueKeys(rows, key)
    requires forall y :: y in rows ==> key(y) != key(x)
    ensures UniqueKeys([x] + rows, key)
  {
    var r := [x] + rows;
    forall i, j | 0 <= i < j < |r| ensures key(r[i]) != key(r[j]) {
      assert r[j] == rows[j - 1];
      if i > 0 {
        assert r[i] == rows[i - 1];
      }
    }
  }

  /** Filtering keeps keys unique. */
  lemma {:induction false} FilterKeepsUniqueKeys<R(!new), K>(rows: seq<R>, key: R -> K, p: R -> bool)
    requires UniqueKeys(rows, key)
    ensures UniqueKeys(Filter(rows, p), key)
  {
    if rows != [] {
      HeadKeyIsUnique(rows, key);
      FilterKeepsUniqueKeys(rows[1..], key, p);
      if p(rows[0]) {
        FilterSpec(rows[1..], p);
        ConsKeepsUniqueKeys(rows[0], Filter(rows[1..], p), key);
      }
    }
  }
}
