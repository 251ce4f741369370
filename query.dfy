/** What the SQLite statements used by the application do to a table held
    as a sequence of rows: `COUNT(*) … WHERE`, `SELECT … WHERE`, `UPDATE …
    WHERE`, `DELETE … WHERE`, `ORDER BY`, `LIMIT … OFFSET`, `LEFT JOIN` and
    `JOIN`. Row predicates are function values, so one definition serves
    every table. */
module Query {
  import opened Common

  // ---------------------------------------------------------------------------
  // Predicates on rows
  // ---------------------------------------------------------------------------

  function Not<T>(p: T -> bool): T -> bool { x => !p(x) }

  function And<T>(p: T -> bool, q: T -> bool): T -> bool { x => p(x) && q(x) }

  // ---------------------------------------------------------------------------
  // COUNT(*) … WHERE p
  // ---------------------------------------------------------------------------

  function CountWhere<T>(s: seq<T>, p: T -> bool): (n: nat)
    ensures n <= |s|
    ensures n == 0 <==> forall i :: 0 <= i < |s| ==> !p(s[i])
  {
    if s == [] then 0 else (if p(s[0]) then 1 else 0) + CountWhere(s[1..], p)
  }

  /** A weaker filter never counts fewer rows. */
  lemma {:induction false} CountWhereMono<T>(s: seq<T>, p: T -> bool, q: T -> bool)
    requires forall x :: p(x) ==> q(x)
    ensures CountWhere(s, p) <= CountWhere(s, q)
  {
    if s != [] {
      CountWhereMono(s[1..], p, q);
    }
  }

  /** Counting under a disjunction of exclusive conditions adds the counts. */
  lemma {:induction false} CountWhereDisjoint<T>(s: seq<T>, p: T -> bool, q: T -> bool, r: T -> bool)
    requires forall x :: r(x) == (p(x) || q(x))
    requires forall x :: !(p(x) && q(x))
    ensures CountWhere(s, r) == CountWhere(s, p) + CountWhere(s, q)
  {
    if s != [] {
      CountWhereDisjoint(s[1..], p, q, r);
    }
  }

  /** Filters that agree on every row of the table count alike. */
  lemma {:induction false} CountWhereExt<T>(s: seq<T>, p: T -> bool, q: T -> bool)
    requires forall i :: 0 <= i < |s| ==> p(s[i]) == q(s[i])
    ensures CountWhere(s, p) == CountWhere(s, q)
  {
    if s != [] {
      CountWhereExt(s[1..], p, q);
    }
  }

  lemma {:induction false} CountWhereAppend<T>(s: seq<T>, t: seq<T>, p: T -> bool)
    ensures CountWhere(s + t, p) == CountWhere(s, p) + CountWhere(t, p)
  {
    if s == [] {
      assert s + t == t;
    } else {
      assert (s + t)[1..] == s[1..] + t;
      CountWhereAppend(s[1..], t, p);
    }
  }

  // ---------------------------------------------------------------------------
  // SELECT … WHERE p, DELETE … WHERE p
  // ---------------------------------------------------------------------------

  /** The rows satisfying `p`, in table order (see `FilterAppend`). */
  function Filter<T>(s: seq<T>, p: T -> bool): (r: seq<T>)
    ensures |r| == CountWhere(s, p)
    ensures forall i :: 0 <= i < |r| ==> r[i] in s && p(r[i])
    ensures forall i :: 0 <= i < |s| && p(s[i]) ==> s[i] in r
  {
    if s == [] then []
    else if p(s[0]) then [s[0]] + Filter(s[1..], p)
    else Filter(s[1..], p)
  }

  /** A selected row occurs as often as in the table; any other row not at
      all. */
  lemma {:induction false} FilterMultiplicity<T>(s: seq<T>, p: T -> bool)
    ensures forall x :: multiset(Filter(s, p))[x] == if p(x) then multiset(s)[x] else 0
  {
    if s != [] {
      FilterMultiplicity(s[1..], p);
      assert s == [s[0]] + s[1..];
    }
  }

  /** Filtering keeps table order: the rows selected from two tables laid end
      to end are those of the first, then those of the second. */
  lemma {:induction false} FilterAppend<T>(s: seq<T>, t: seq<T>, p: T -> bool)
    ensures Filter(s + t, p) == Filter(s, p) + Filter(t, p)
  {
    if s == [] {
      assert s + t == t;
    } else {
      assert (s + t)[0] == s[0] && (s + t)[1..] == s[1..] + t;
      FilterAppend(s[1..], t, p);
    }
  }

  lemma {:induction false} FilterAll<T>(s: seq<T>, p: T -> bool)
    requires forall i :: 0 <= i < |s| ==> p(s[i])
    ensures Filter(s, p) == s
  {
    if s != [] {
      FilterAll(s[1..], p);
      assert [s[0]] + s[1..] == s;
    }
  }

  /** Counting over the filtered rows counts the rows meeting both filters. */
  lemma {:induction false} CountFilter<T>(s: seq<T>, p: T -> bool, q: T -> bool)
    ensures CountWhere(Filter(s, p), q) == CountWhere(s, And(p, q))
  {
    if s != [] {
      CountFilter(s[1..], p, q);
      if p(s[0]) {
        assert ([s[0]] + Filter(s[1..], p))[1..] == Filter(s[1..], p);
      }
    }
  }

  /** Filters that agree on every row of the table select the same rows. */
  lemma {:induction false} FilterExt<T>(s: seq<T>, p: T -> bool, q: T -> bool)
    requires forall i :: 0 <= i < |s| ==> p(s[i]) == q(s[i])
    ensures Filter(s, p) == Filter(s, q)
  {
    if s != [] {
      FilterExt(s[1..], p, q);
    }
  }

  /** `DELETE FROM t WHERE p`: the rows that do not satisfy `p`. */
  function DeleteWhere<T>(s: seq<T>, p: T -> bool): (r: seq<T>)
    ensures |r| == |s| - CountWhere(s, p)
    ensures forall i :: 0 <= i < |r| ==> r[i] in s && !p(r[i])
    ensures forall i :: 0 <= i < |s| && !p(s[i]) ==> s[i] in r
  {
    CountWhereDisjoint(s, p, Not(p), x => true);
    FilterAll(s, x => true);
    Filter(s, Not(p))
  }

  /** `DELETE` keeps each remaining row as often as the table held it and
      removes every occurrence of a matching row. */
  lemma DeleteWhereMultiplicity<T>(s: seq<T>, p: T -> bool)
    ensures forall x :: multiset(DeleteWhere(s, p))[x] == if p(x) then 0 else multiset(s)[x]
  {
    FilterMultiplicity(s, Not(p));
  }

  /** `DELETE` keeps the remaining rows in table order. */
  lemma DeleteWhereAppend<T>(s: seq<T>, t: seq<T>, p: T -> bool)
    ensures DeleteWhere(s + t, p) == DeleteWhere(s, p) + DeleteWhere(t, p)
  {
    FilterAppend(s, t, Not(p));
  }

  // ---------------------------------------------------------------------------
  // UPDATE … SET f WHERE p
  // ---------------------------------------------------------------------------

  /** `UPDATE t SET … WHERE p`: rows satisfying `p` become `f` of themselves,
      every other row is kept as it was, in place. */
  function UpdateWhere<T>(s: seq<T>, p: T -> bool, f: T -> T): (r: seq<T>)
    ensures |r| == |s|
    ensures forall i :: 0 <= i < |s| ==> r[i] == if p(s[i]) then f(s[i]) else s[i]
  {
    if s == [] then [] else [if p(s[0]) then f(s[0]) else s[0]] + UpdateWhere(s[1..], p, f)
  }

  /** An update whose WHERE clause matches no row leaves the table as it was. */
  lemma UpdateWhereNoMatch<T>(s: seq<T>, p: T -> bool, f: T -> T)
    requires CountWhere(s, p) == 0
    ensures UpdateWhere(s, p, f) == s
  {
  }

  /** An update that leaves the WHERE condition's columns alone matches the
      same number of rows when it is run again. */
  lemma {:induction false} UpdateKeepsMatchCount<T>(s: seq<T>, p: T -> bool, f: T -> T)
    requires forall x :: p(f(x)) == p(x)
    ensures CountWhere(UpdateWhere(s, p, f), p) == CountWhere(s, p)
  {
    if s != [] {
      UpdateKeepsMatchCount(s[1..], p, f);
      assert UpdateWhere(s, p, f)[1..] == UpdateWhere(s[1..], p, f);
    }
  }

  // ---------------------------------------------------------------------------
  // db.get: the first matching row
  // ---------------------------------------------------------------------------

  function FindFirst<T>(s: seq<T>, p: T -> bool): (r: Option<T>)
    ensures r.None? <==> CountWhere(s, p) == 0
    ensures r.Some? ==> r.value in s && p(r.value)
  {
    if s == [] then None else if p(s[0]) then Some(s[0]) else FindFirst(s[1..], p)
  }

  // ---------------------------------------------------------------------------
  // Keys (INTEGER PRIMARY KEY)
  // ---------------------------------------------------------------------------

  ghost predicate DistinctKeys<T>(s: seq<T>, key: T -> int)
  {
    forall i, j :: 0 <= i < j < |s| ==> key(s[i]) != key(s[j])
  }

  /** With distinct keys, at most one row has a given key. */
  lemma {:induction false} AtMostOneWithKey<T>(s: seq<T>, key: T -> int, k: int, p: T -> bool)
    requires DistinctKeys(s, key)
    requires forall x :: p(x) ==> key(x) == k
    ensures CountWhere(s, p) <= 1
  {
    if s != [] {
      assert DistinctKeys(s[1..], key) by {
        forall i, j | 0 <= i < j < |s[1..]| ensures key(s[1..][i]) != key(s[1..][j]) {
          assert s[1..][i] == s[i + 1] && s[1..][j] == s[j + 1];
        }
      }
      AtMostOneWithKey(s[1..], key, k, p);
      if p(s[0]) {
        forall i | 0 <= i < |s[1..]| ensures !p(s[1..][i]) {
          assert s[1..][i] == s[i + 1];
        }
      }
    }
  }

  /** Every key is a positive number below the next AUTOINCREMENT value. */
  ghost predicate KeysBelow<T>(s: seq<T>, key: T -> int, bound: int)
  {
    forall i :: 0 <= i < |s| ==> 1 <= key(s[i]) < bound
  }

  /** Appending a row keyed with the next AUTOINCREMENT value keeps the keys
      distinct and below the advanced counter. */
  lemma AppendFreshKey<T>(s: seq<T>, x: T, key: T -> int, bound: int)
    requires DistinctKeys(s, key) && KeysBelow(s, key, bound)
    requires key(x) == bound && bound >= 1
    ensures DistinctKeys(s + [x], key) && KeysBelow(s + [x], key, bound + 1)
  {
  }

  lemma FilterKeepsKeysBelow<T>(s: seq<T>, p: T -> bool, key: T -> int, bound: int)
    requires KeysBelow(s, key, bound)
    ensures KeysBelow(Filter(s, p), key, bound)
  {
    var r := Filter(s, p);
    forall i | 0 <= i < |r| ensures 1 <= key(r[i]) < bound {
      var j :| 0 <= j < |s| && s[j] == r[i];
    }
  }

  lemma {:induction false} FilterKeepsDistinct<T>(s: seq<T>, p: T -> bool, key: T -> int)
    requires DistinctKeys(s, key)
    ensures DistinctKeys(Filter(s, p), key)
  {
    if s != [] {
      assert DistinctKeys(s[1..], key) by {
        forall i, j | 0 <= i < j < |s[1..]| ensures key(s[1..][i]) != key(s[1..][j]) {
          assert s[1..][i] == s[i + 1] && s[1..][j] == s[j + 1];
        }
      }
      FilterKeepsDistinct(s[1..], p, key);
      if p(s[0]) {
        var r := Filter(s, p);
        var rest := Filter(s[1..], p);
        forall j | 0 < j < |r| ensures key(r[0]) != key(r[j]) {
          assert r[j] == rest[j - 1];
          assert rest[j - 1] in s[1..];
          var m :| 0 <= m < |s[1..]| && s[1..][m] == rest[j - 1];
          assert s[m + 1] == rest[j - 1];
        }
      }
    }
  }

  lemma UpdateKeepsDistinct<T>(s: seq<T>, p: T -> bool, f: T -> T, key: T -> int)
    requires DistinctKeys(s, key)
    requires forall x :: key(f(x)) == key(x)
    ensures DistinctKeys(UpdateWhere(s, p, f), key)
  {
    var r := UpdateWhere(s, p, f);
    forall i, j | 0 <= i < j < |r| ensures key(r[i]) != key(r[j]) {
      assert key(r[i]) == key(s[i]) && key(r[j]) == key(s[j]);
    }
  }

  // ---------------------------------------------------------------------------
  // ORDER BY: a stable insertion sort under a total preorder
  // ---------------------------------------------------------------------------

  ghost predicate TotalPreorder<T(!new)>(le: (T, T) -> bool)
  {
    && (forall a, b :: le(a, b) || le(b, a))
    && (forall a, b, c :: le(a, b) && le(b, c) ==> le(a, c))
  }

  ghost predicate SortedBy<T>(s: seq<T>, le: (T, T) -> bool)
  {
    forall i, j :: 0 <= i < j < |s| ==> le(s[i], s[j])
  }

  lemma SortedTail<T>(s: seq<T>, le: (T, T) -> bool)
    requires s != [] && SortedBy(s, le)
    ensures SortedBy(s[1..], le)
    ensures forall j :: 0 <= j < |s[1..]| ==> le(s[0], s[1..][j])
  {
    forall i, j | 0 <= i < j < |s[1..]| ensures le(s[1..][i], s[1..][j]) {
      assert s[1..][i] == s[i + 1] && s[1..][j] == s[j + 1];
    }
    forall j | 0 <= j < |s[1..]| ensures le(s[0], s[1..][j]) {
      assert s[1..][j] == s[j + 1];
    }
  }

  /** A row no later than the first row of a sorted list is no later than
      any of its rows. */
  lemma BelowSorted<T(!new)>(x: T, s: seq<T>, le: (T, T) -> bool)
    requires TotalPreorder(le) && SortedBy(s, le) && s != [] && le(x, s[0])
    ensures forall j :: 0 <= j < |s| ==> le(x, s[j])
  {
    forall j | 0 <= j < |s| ensures le(x, s[j]) {
      if j > 0 {
        assert le(s[0], s[j]);
      }
    }
  }

  /** A row below every row of `t` and below `x` is below every row of a
      permutation of `t` and `x`. */
  lemma BelowAll<T>(h: T, t: seq<T>, x: T, rest: seq<T>, le: (T, T) -> bool)
    requires multiset(rest) == multiset(t) + multiset{x}
    requires forall j :: 0 <= j < |t| ==> le(h, t[j])
    requires le(h, x)
    ensures forall j :: 0 <= j < |rest| ==> le(h, rest[j])
  {
    forall j | 0 <= j < |rest| ensures le(h, rest[j]) {
      assert rest[j] in multiset(rest);
      if rest[j] != x {
        assert rest[j] in t;
      }
    }
  }

  lemma ConsSorted<T>(h: T, rest: seq<T>, le: (T, T) -> bool)
    requires SortedBy(rest, le)
    requires forall j :: 0 <= j < |rest| ==> le(h, rest[j])
    ensures SortedBy([h] + rest, le)
  {
    var r := [h] + rest;
    forall i, j | 0 <= i < j < |r| ensures le(r[i], r[j]) {
      assert r[j] == rest[j - 1];
      if i > 0 {
        assert r[i] == rest[i - 1];
      }
    }
  }

  function Insert<T(!new)>(x: T, s: seq<T>, le: (T, T) -> bool): (r: seq<T>)
    requires TotalPreorder(le) && SortedBy(s, le)
    ensures multiset(r) == multiset(s) + multiset{x}
    ensures SortedBy(r, le)
  {
    if s == [] then [x]
    else if le(x, s[0]) then
      BelowSorted(x, s, le);
      ConsSorted(x, s, le);
      [x] + s
    else
      SortedTail(s, le);
      var rest := Insert(x, s[1..], le);
      BelowAll(s[0], s[1..], x, rest, le);
      ConsSorted(s[0], rest, le);
      assert s == [s[0]] + s[1..];
      [s[0]] + rest
  }

  /** The rows of `s` in `le` order (the `ORDER BY` clause). */
  function SortBy<T(!new)>(s: seq<T>, le: (T, T) -> bool): (r: seq<T>)
    requires TotalPreorder(le)
    ensures multiset(r) == multiset(s)
    ensures SortedBy(r, le)
  {
    if s == [] then [] else
      assert s == [s[0]] + s[1..];
      Insert(s[0], SortBy(s[1..], le), le)
  }
  /** Sorting keeps exactly the rows it was given. */
  lemma SortByMembers<T(!new)>(s: seq<T>, le: (T, T) -> bool)
    requires TotalPreorder(le)
    ensures forall x :: x in SortBy(s, le) <==> x in s
  {
    var r := SortBy(s, le);
    forall x ensures x in r <==> x in s {
      assert x in r <==> x in multiset(r);
      assert x in s <==> x in multiset(s);
    }
  }


  // ---------------------------------------------------------------------------
  // LIMIT … OFFSET
  // ---------------------------------------------------------------------------

  /** `LIMIT k` on its own. */
  function Take<T>(s: seq<T>, k: nat): (r: seq<T>)
    ensures |r| <= k && r <= s
    ensures |r| == if |s| < k then |s| else k
  {
    if |s| <= k then s else s[..k]
  }

  /** `LIMIT limit OFFSET offset`; SQLite treats a negative offset as zero. */
  function Window<T>(s: seq<T>, limit: nat, offset: int): (r: seq<T>)
    ensures |r| <= limit
    ensures offset <= 0 ==> r == Take(s, limit)
    ensures 0 <= offset ==> |r| == if offset >= |s| then 0 else if |s| - offset < limit then |s| - offset else limit
    ensures 0 <= offset ==> forall i :: 0 <= i < |r| ==> r[i] == s[offset + i]
  {
    var start := if offset <= 0 then 0 else if offset >= |s| then |s| else offset;
    Take(s[start..], limit)
  }

  /** How many rows a window holds depends only on how many there are. */
  lemma WindowLength<A, B>(s: seq<A>, t: seq<B>, limit: nat, offset: int)
    requires |s| == |t|
    ensures |Window(s, limit, offset)| == |Window(t, limit, offset)|
  {
  }

  lemma TakeKeepsSorted<T>(s: seq<T>, k: nat, le: (T, T) -> bool)
    requires SortedBy(s, le)
    ensures SortedBy(Take(s, k), le)
  {
  }

  /** Splitting a sorted list after its first `m` rows: the rest is what the
      prefix leaves of the list, and no row of the prefix comes after a row
      of the rest. */
  lemma SortedPrefixRest<T>(s: seq<T>, m: nat, le: (T, T) -> bool)
    requires SortedBy(s, le) && m <= |s|
    ensures multiset(s[..m]) <= multiset(s)
    ensures multiset(s) - multiset(s[..m]) == multiset(s[m..])
    ensures forall x, i :: x in multiset(s[m..]) && 0 <= i < m ==> le(s[i], x)
  {
    assert s == s[..m] + s[m..];
    forall x, i | x in multiset(s[m..]) && 0 <= i < m ensures le(s[i], x) {
      assert x in s[m..];
      var j :| 0 <= j < |s[m..]| && s[m..][j] == x;
      assert s[m + j] == x;
    }
  }

  /** `t` is one of the orders `ORDER BY` may return `s` in: the same rows,
      sorted by `le` (rows that tie may come in any order). */
  ghost predicate SortedOrderOf<T>(t: seq<T>, s: seq<T>, le: (T, T) -> bool)
  {
    multiset(t) == multiset(s) && SortedBy(t, le)
  }

  /** `r` is what `ORDER BY … LIMIT k` may return for `s` (rows that tie
      in any order): as many rows of `s` as the limit allows, in `le` order,
      and every row left out comes no earlier than each row kept. */
  ghost predicate FirstRowsOf<T>(r: seq<T>, s: seq<T>, le: (T, T) -> bool, k: nat)
  {
    && |r| == (if |s| < k then |s| else k)
    && multiset(r) <= multiset(s)
    && SortedBy(r, le)
    && forall x, i :: x in multiset(s) - multiset(r) && 0 <= i < |r| ==> le(r[i], x)
  }

  /** `ORDER BY … LIMIT k`: the first `k` rows in `le` order. */
  function Top<T(!new)>(s: seq<T>, le: (T, T) -> bool, k: nat): (r: seq<T>)
    requires TotalPreorder(le)
    ensures FirstRowsOf(r, s, le, k)
    ensures forall i :: 0 <= i < |r| ==> r[i] in s
  {
    var sorted := SortBy(s, le);
    TakeSortedRest(s, sorted, k, le);
    Take(sorted, k)
  }

  /** The first `k` rows of a sorted order of `s` are `s`'s first rows. */
  lemma TakeSortedRest<T>(s: seq<T>, sorted: seq<T>, k: nat, le: (T, T) -> bool)
    requires SortedOrderOf(sorted, s, le)
    ensures FirstRowsOf(Take(sorted, k), s, le, k)
    ensures forall i :: 0 <= i < |Take(sorted, k)| ==> Take(sorted, k)[i] in s
  {
    assert |sorted| == |multiset(sorted)| == |s|;
    var r := Take(sorted, k);
    assert r == sorted[..|r|];
    SortedPrefixRest(sorted, |r|, le);
    forall i | 0 <= i < |r| ensures r[i] in s {
      assert r[i] == sorted[i] && sorted[i] in multiset(sorted);
    }
  }

  /** A window of a sorted order of `s` is as long as the same window of
      `s`, holds rows of `s` and is sorted. */
  lemma SortedOrderWindow<T>(s: seq<T>, t: seq<T>, limit: nat, offset: int, le: (T, T) -> bool)
    requires SortedOrderOf(t, s, le)
    ensures |Window(t, limit, offset)| == |Window(s, limit, offset)|
    ensures forall i :: 0 <= i < |Window(t, limit, offset)| ==> Window(t, limit, offset)[i] in s
    ensures SortedBy(Window(t, limit, offset), le)
  {
    assert |t| == |multiset(t)| == |s|;
    WindowKeepsSorted(t, limit, offset, le);
    WindowWithin(t, limit, offset);
    var w := Window(t, limit, offset);
    forall i | 0 <= i < |w| ensures w[i] in s {
      assert w[i] in multiset(w);
    }
  }

  lemma WindowKeepsSorted<T>(s: seq<T>, limit: nat, offset: int, le: (T, T) -> bool)
    requires SortedBy(s, le)
    ensures SortedBy(Window(s, limit, offset), le)
  {
    var start := if offset <= 0 then 0 else if offset >= |s| then |s| else offset;
    assert SortedBy(s[start..], le) by {
      forall i, j | 0 <= i < j < |s[start..]| ensures le(s[start..][i], s[start..][j]) {
        assert s[start..][i] == s[start + i] && s[start..][j] == s[start + j];
      }
    }
  }

  lemma WindowWithin<T>(s: seq<T>, limit: nat, offset: int)
    ensures multiset(Window(s, limit, offset)) <= multiset(s)
  {
    var start := if offset <= 0 then 0 else if offset >= |s| then |s| else offset;
    var w := Window(s, limit, offset);
    assert s == s[..start] + w + s[start + |w|..];
  }

  // ---------------------------------------------------------------------------
  // LEFT JOIN and JOIN
  // ---------------------------------------------------------------------------

  /** The right rows joined to the left row `a`. */
  function MatchOf<A, B>(on: (A, B) -> bool, a: A): B -> bool
  {
    b => on(a, b)
  }

  /** `a LEFT JOIN b ON on(a, b)`: every left row paired with each matching
      right row, or with nothing when none matches. */
  function LeftJoin<A, B>(left: seq<A>, right: seq<B>, on: (A, B) -> bool): seq<(A, Option<B>)>
  {
    if left == [] then []
    else
      var matches := Filter(right, MatchOf(on, left[0]));
      (if matches == [] then [(left[0], None)] else seq(|matches|, k requires 0 <= k < |matches| => (left[0], Some(matches[k]))))
      + LeftJoin(left[1..], right, on)
  }

  /** A filter that selects at most one row selects the first match. */
  lemma {:induction false} FilterAtMostOne<T>(s: seq<T>, p: T -> bool)
    requires CountWhere(s, p) <= 1
    ensures Filter(s, p) == match FindFirst(s, p) case None => [] case Some(x) => [x]
  {
    if s != [] {
      FilterAtMostOne(s[1..], p);
    }
  }

  /** Each row paired with a value computed from it. */
  function Pair<A, B>(s: seq<A>, g: A -> B): (r: seq<(A, B)>)
    ensures |r| == |s|
    ensures forall i :: 0 <= i < |s| ==> r[i] == (s[i], g(s[i]))
  {
    if s == [] then [] else [(s[0], g(s[0]))] + Pair(s[1..], g)
  }

  /** The left row's match on the right, NULL when it has none. */
  function Lookup<A, B>(right: seq<B>, on: (A, B) -> bool): A -> Option<B>
  {
    a => FindFirst(right, MatchOf(on, a))
  }

  /** When each left row matches at most one right row (the right side is
      joined on its primary key), the LEFT JOIN keeps the left rows one for
      one and in order, each with its match or NULL. */
  lemma {:induction false} LeftJoinIsLookup<A, B>(left: seq<A>, right: seq<B>, on: (A, B) -> bool)
    requires forall i :: 0 <= i < |left| ==> CountWhere(right, MatchOf(on, left[i])) <= 1
    ensures LeftJoin(left, right, on) == Pair(left, Lookup(right, on))
  {
    if left != [] {
      var tail := left[1..];
      assert forall i :: 0 <= i < |tail| ==> tail[i] == left[i + 1];
      LeftJoinIsLookup(tail, right, on);
      LeftJoinHead(left, right, on);
      assert Pair(left, Lookup(right, on)) == [(left[0], Lookup(right, on)(left[0]))] + Pair(tail, Lookup(right, on));
    }
  }

  /** A left row with at most one match contributes exactly one row. */
  lemma LeftJoinHead<A, B>(left: seq<A>, right: seq<B>, on: (A, B) -> bool)
    requires left != [] && CountWhere(right, MatchOf(on, left[0])) <= 1
    ensures LeftJoin(left, right, on) == [(left[0], Lookup(right, on)(left[0]))] + LeftJoin(left[1..], right, on)
  {
    var matches := Filter(right, MatchOf(on, left[0]));
    FilterAtMostOne(right, MatchOf(on, left[0]));
    var head := if matches == [] then [(left[0], None)] else seq(|matches|, k requires 0 <= k < |matches| => (left[0], Some(matches[k])));
    assert head == [(left[0], Lookup(right, on)(left[0]))];
  }

  /** A row filter over paired rows, read as a filter over the left rows. */
  function Through<A, B>(p: ((A, B)) -> bool, g: A -> B): A -> bool
  {
    a => p((a, g(a)))
  }

  /** Filtering paired rows is pairing the filtered rows. */
  lemma {:induction false} FilterPair<A, B>(s: seq<A>, g: A -> B, p: ((A, B)) -> bool)
    ensures Filter(Pair(s, g), p) == Pair(Filter(s, Through(p, g)), g)
  {
    if s != [] {
      assert Pair(s, g)[1..] == Pair(s[1..], g);
      FilterPair(s[1..], g, p);
    }
  }

  /** `a JOIN b ON on(a, b)`: the left rows that have a match, paired with it. */
  function InnerJoin<A, B>(left: seq<A>, right: seq<B>, on: (A, B) -> bool): (r: seq<(A, B)>)
    ensures forall k :: 0 <= k < |r| ==> r[k].0 in left && r[k].1 in right && on(r[k].0, r[k].1)
    ensures forall i, j :: 0 <= i < |left| && 0 <= j < |right| && on(left[i], right[j]) ==> (left[i], right[j]) in r
  {
    if left == [] then []
    else
      var matches := Filter(right, MatchOf(on, left[0]));
      var head := seq(|matches|, k requires 0 <= k < |matches| => (left[0], matches[k]));
      var tail := InnerJoin(left[1..], right, on);
      assert forall j :: 0 <= j < |right| && on(left[0], right[j]) ==> (left[0], right[j]) in head by {
        forall j | 0 <= j < |right| && on(left[0], right[j]) ensures (left[0], right[j]) in head {
          assert MatchOf(on, left[0])(right[j]);
          var k :| 0 <= k < |matches| && matches[k] == right[j];
          assert head[k] == (left[0], right[j]);
        }
      }
      assert forall i :: 0 < i < |left| ==> left[i] == left[1..][i - 1];
      head + tail
  }

  // ---------------------------------------------------------------------------
  // Sums
  // ---------------------------------------------------------------------------

  function Sum(s: seq<nat>): nat
  {
    if s == [] then 0 else s[0] + Sum(s[1..])
  }

  lemma {:induction false} SumAppend(s: seq<nat>, t: seq<nat>)
    ensures Sum(s + t) == Sum(s) + Sum(t)
  {
    if s == [] {
      assert s + t == t;
    } else {
      assert (s + t)[1..] == s[1..] + t;
      SumAppend(s[1..], t);
    }
  }
}
