/** `GROUP BY key` with `COUNT(*)`, and the plain JavaScript objects the
    route handlers fold the grouped rows into. A group list and an object
    are both sequences of (key, value) entries. */
module Grouping {
  import opened Query

  /** No key occurs in two entries. */
  predicate KeysDistinct<K(==)>(g: seq<(K, nat)>)
  {
    forall i, j :: 0 <= i < j < |g| ==> g[i].0 != g[j].0
  }

  predicate HasKey<K(==)>(g: seq<(K, nat)>, k: K)
  {
    exists i :: 0 <= i < |g| && g[i].0 == k
  }

  /** The value of the first entry with key `k`, 0 when there is none. */
  function CountOf<K(==)>(g: seq<(K, nat)>, k: K): (n: nat)
    ensures !HasKey(g, k) ==> n == 0
    ensures HasKey(g, k) ==> exists i :: 0 <= i < |g| && g[i] == (k, n)
  {
    if g == [] then 0
    else if g[0].0 == k then g[0].1
    else
      var n := CountOf(g[1..], k);
      assert HasKey(g[1..], k) ==> exists i :: 0 <= i < |g| && g[i] == (k, n) by {
        if HasKey(g[1..], k) {
          var i :| 0 <= i < |g[1..]| && g[1..][i] == (k, n);
          assert g[i + 1] == (k, n);
        }
      }
      assert HasKey(g, k) ==> HasKey(g[1..], k) by {
        if HasKey(g, k) {
          var i :| 0 <= i < |g| && g[i].0 == k;
          assert i > 0 && g[1..][i - 1].0 == k;
        }
      }
      n
  }

  /** A key with a non-zero count is one of the keys. */
  lemma CountedKeyListed<K>(g: seq<(K, nat)>, k: K)
    requires CountOf(g, k) > 0
    ensures k in Keys(g)
  {
    var i :| 0 <= i < |g| && g[i].0 == k;
    assert Keys(g)[i] == k;
  }

  /** The value of the last entry with key `k`, 0 when there is none. */
  function LastCountOf<K(==)>(g: seq<(K, nat)>, k: K): nat
  {
    if g == [] then 0
    else if g[|g| - 1].0 == k then g[|g| - 1].1
    else LastCountOf(g[..|g| - 1], k)
  }

  /** The values of the entries, in entry order (`Object.values`). */
  function Values<K>(g: seq<(K, nat)>): (vs: seq<nat>)
    ensures |vs| == |g|
    ensures forall i :: 0 <= i < |g| ==> vs[i] == g[i].1
  {
    if g == [] then [] else [g[0].1] + Values(g[1..])
  }

  /** The keys of the entries, in entry order (`Object.keys`). */
  function Keys<K>(g: seq<(K, nat)>): (ks: seq<K>)
    ensures |ks| == |g|
    ensures forall i :: 0 <= i < |g| ==> ks[i] == g[i].0
  {
    if g == [] then [] else [g[0].0] + Keys(g[1..])
  }

  /** The rows whose grouping key is `k`. */
  function KeyIs<T, K(==)>(key: T -> K, k: K): T -> bool
  {
    x => key(x) == k
  }

  // ---------------------------------------------------------------------------
  // GROUP BY key, COUNT(*)
  // ---------------------------------------------------------------------------

  /** The keys of an entry list are its first key and those of the rest. */
  lemma ConsKeys<K(!new)>(h: (K, nat), rest: seq<(K, nat)>)
    ensures forall x :: HasKey([h] + rest, x) <==> HasKey(rest, x) || x == h.0
    ensures KeysDistinct([h] + rest) <==> KeysDistinct(rest) && !HasKey(rest, h.0)
  {
    var g := [h] + rest;
    assert forall i :: 0 < i < |g| ==> g[i] == rest[i - 1];
    forall x ensures HasKey(g, x) <==> HasKey(rest, x) || x == h.0 {
      if HasKey(rest, x) {
        var i :| 0 <= i < |rest| && rest[i].0 == x;
        assert g[i + 1].0 == x;
      }
      assert g[0].0 == h.0;
    }
    if KeysDistinct(g) {
      forall i | 0 <= i < |rest| ensures rest[i].0 != h.0 {
        assert g[i + 1] == rest[i] && g[0] == h;
        assert g[0].0 != g[i + 1].0;
      }
      assert KeysDistinct(rest) by {
        forall i, j | 0 <= i < j < |rest| ensures rest[i].0 != rest[j].0 {
          assert g[i + 1] == rest[i] && g[j + 1] == rest[j];
        }
      }
    }
  }

  /** One more row with key `k`: its group grows by one, or a new group of
      one is added. */
  function AddRow<K(==,!new)>(g: seq<(K, nat)>, k: K): (r: seq<(K, nat)>)
    requires KeysDistinct(g)
    ensures KeysDistinct(r)
    ensures forall x :: HasKey(r, x) <==> HasKey(g, x) || x == k
    ensures forall x :: CountOf(r, x) == CountOf(g, x) + (if x == k then 1 else 0)
    ensures (forall i :: 0 <= i < |g| ==> g[i].1 >= 1) ==> forall i :: 0 <= i < |r| ==> r[i].1 >= 1
  {
    if g == [] then
      assert Values([(k, 1)]) == [1];
      ConsKeys((k, 1), []);
      [(k, 1)]
    else
      var r := if g[0].0 == k then [(k, g[0].1 + 1)] + g[1..] else [g[0]] + AddRow(g[1..], k);
      assert r[1..] == if g[0].0 == k then g[1..] else AddRow(g[1..], k);
      assert KeysDistinct(r) && forall x :: HasKey(r, x) <==> HasKey(g, x) || x == k by {
        assert g == [g[0]] + g[1..];
        ConsKeys(g[0], g[1..]);
        ConsKeys(r[0], r[1..]);
      }
      r
  }

  /** The counts of an entry list are its first count and those of the rest. */
  lemma SumValuesCons<K>(h: (K, nat), t: seq<(K, nat)>)
    ensures Sum(Values([h] + t)) == h.1 + Sum(Values(t))
  {
    assert ([h] + t)[1..] == t;
    assert Values([h] + t) == [h.1] + Values(t);
    assert ([h.1] + Values(t))[1..] == Values(t);
  }

  /** Adding a row adds one to the total of the counts. */
  lemma {:induction false} AddRowSum<K(!new)>(g: seq<(K, nat)>, k: K)
    requires KeysDistinct(g)
    ensures Sum(Values(AddRow(g, k))) == Sum(Values(g)) + 1
  {
    if g == [] {
      SumValuesCons((k, 1), []);
    } else {
      assert g == [g[0]] + g[1..];
      SumValuesCons(g[0], g[1..]);
      if g[0].0 == k {
        SumValuesCons((k, g[0].1 + 1), g[1..]);
      } else {
        AddRowSum(g[1..], k);
        SumValuesCons(g[0], AddRow(g[1..], k));
      }
    }
  }

  /** `SELECT key, COUNT(*) … GROUP BY key`: one entry per key that occurs,
      holding the number of rows with that key. The order of the groups is
      not fixed by SQL; this model puts first the group whose last occurrence
      is latest. */
  function GroupBy<T, K(==,!new)>(s: seq<T>, key: T -> K): (g: seq<(K, nat)>)
    ensures KeysDistinct(g)
    ensures forall i :: 0 <= i < |g| ==> g[i].1 >= 1
    ensures forall k :: CountOf(g, k) == CountWhere(s, KeyIs(key, k))
    ensures forall k :: HasKey(g, k) <==> CountWhere(s, KeyIs(key, k)) > 0
    ensures Sum(Values(g)) == |s|
  {
    if s == [] then []
    else
      var g := GroupBy(s[1..], key);
      AddRowSum(g, key(s[0]));
      AddRow(g, key(s[0]))
  }

  /** The entries whose key passes `q`. */
  function EntryPasses<K>(q: K -> bool): ((K, nat)) -> bool
  {
    (e: (K, nat)) => q(e.0)
  }

  /** The rows whose grouping key passes `q`. */
  function KeyPasses<T, K>(key: T -> K, q: K -> bool): T -> bool
  {
    x => q(key(x))
  }

  /** Keeping some entries keeps their keys distinct. */
  lemma {:induction false} FilterKeepsKeysDistinct<K(!new)>(g: seq<(K, nat)>, q: K -> bool)
    requires KeysDistinct(g)
    ensures KeysDistinct(Filter(g, EntryPasses(q)))
  {
    if g != [] {
      var p := EntryPasses(q);
      assert g == [g[0]] + g[1..];
      ConsKeys(g[0], g[1..]);
      FilterKeepsKeysDistinct(g[1..], q);
      var rest := Filter(g[1..], p);
      if p(g[0]) {
        assert !HasKey(rest, g[0].0) by {
          forall i | 0 <= i < |rest| ensures rest[i].0 != g[0].0 {
            var j :| 0 <= j < |g[1..]| && g[1..][j] == rest[i];
            assert g[1..][j].0 == rest[i].0;
          }
        }
        ConsKeys(g[0], rest);
      }
    }
  }

  /** Selecting from a non-empty list looks at its head, then the rest. */
  lemma FilterCons<T>(s: seq<T>, p: T -> bool)
    requires s != []
    ensures Filter(s, p) == (if p(s[0]) then [s[0]] else []) + Filter(s[1..], p)
  {
    if !p(s[0]) {
      assert [] + Filter(s[1..], p) == Filter(s[1..], p);
    }
  }

  /** Keeping the entries whose key passes `q` after one more row is
      counting that row among the kept entries, or ignoring it. */
  lemma {:induction false} FilterAddRow<K(!new)>(g: seq<(K, nat)>, k: K, q: K -> bool)
    requires KeysDistinct(g)
    ensures KeysDistinct(Filter(g, EntryPasses(q)))
    ensures Filter(AddRow(g, k), EntryPasses(q))
         == if q(k) then AddRow(Filter(g, EntryPasses(q)), k) else Filter(g, EntryPasses(q))
  {
    FilterKeepsKeysDistinct(g, q);
    var p := EntryPasses(q);
    if g == [] {
      assert AddRow(g, k) == [(k, 1)];
      FilterCons([(k, 1)], p);
      assert [(k, 1)][1..] == g;
    } else if g[0].0 == k {
      if q(k) {
        FilterAddRowAtKeptHead(g, k, q);
      } else {
        FilterAddRowAtDroppedHead(g, k, q);
      }
    } else {
      assert g == [g[0]] + g[1..];
      ConsKeys(g[0], g[1..]);
      FilterAddRow(g[1..], k, q);
      FilterAddRowPastHead(g, k, q);
    }
  }

  /** A row of the first group's key adds one to that group. */
  lemma AddRowAtHead<K(!new)>(g: seq<(K, nat)>, k: K)
    requires KeysDistinct(g) && g != [] && g[0].0 == k
    ensures AddRow(g, k) == [(k, g[0].1 + 1)] + g[1..]
  {
  }

  /** A row of the first group's key, written as head and rest. */
  lemma AddRowOntoHead<K(!new)>(h: (K, nat), rest: seq<(K, nat)>, k: K)
    requires KeysDistinct([h] + rest) && h.0 == k
    ensures AddRow([h] + rest, k) == [(k, h.1 + 1)] + rest
  {
    AddRowAtHead([h] + rest, k);
    assert ([h] + rest)[1..] == rest;
  }

  /** Selecting from a list whose head is kept. */
  lemma FilterKeptHead<T>(h: T, rest: seq<T>, p: T -> bool)
    requires p(h)
    ensures Filter([h] + rest, p) == [h] + Filter(rest, p)
  {
    FilterCons([h] + rest, p);
    assert ([h] + rest)[1..] == rest;
  }

  /** `FilterAddRow` when the head entry is the row's group and is kept. */
  lemma FilterAddRowAtKeptHead<K(!new)>(g: seq<(K, nat)>, k: K, q: K -> bool)
    requires KeysDistinct(g) && KeysDistinct(Filter(g, EntryPasses(q)))
    requires g != [] && g[0].0 == k && q(k)
    ensures Filter(AddRow(g, k), EntryPasses(q)) == AddRow(Filter(g, EntryPasses(q)), k)
  {
    var p := EntryPasses(q);
    var h, rest := g[0], g[1..];
    assert g == [h] + rest;
    assert p(h) && p((k, h.1 + 1));
    AddRowOntoHead(h, rest, k);
    FilterKeptHead((k, h.1 + 1), rest, p);
    FilterKeptHead(h, rest, p);
    AddRowOntoHead(h, Filter(rest, p), k);
  }

  /** `FilterAddRow` when the head entry is the row's group and is dropped. */
  lemma FilterAddRowAtDroppedHead<K(!new)>(g: seq<(K, nat)>, k: K, q: K -> bool)
    requires KeysDistinct(g)
    requires g != [] && g[0].0 == k && !q(k)
    ensures Filter(AddRow(g, k), EntryPasses(q)) == Filter(g, EntryPasses(q))
  {
    var p := EntryPasses(q);
    var r := [(k, g[0].1 + 1)] + g[1..];
    AddRowAtHead(g, k);
    assert r[0] == (k, g[0].1 + 1) && r[1..] == g[1..];
    assert !p(r[0]) && !p(g[0]);
    FilterCons(r, p);
    FilterCons(g, p);
  }

  /** `FilterAddRow` when the row's group lies past the head entry. */
  lemma FilterAddRowPastHead<K(!new)>(g: seq<(K, nat)>, k: K, q: K -> bool)
    requires g != [] && g[0].0 != k
    requires KeysDistinct(g) && KeysDistinct(g[1..]) && KeysDistinct(Filter(g, EntryPasses(q)))
    requires KeysDistinct(Filter(g[1..], EntryPasses(q)))
    requires Filter(AddRow(g[1..], k), EntryPasses(q))
          == if q(k) then AddRow(Filter(g[1..], EntryPasses(q)), k) else Filter(g[1..], EntryPasses(q))
    ensures Filter(AddRow(g, k), EntryPasses(q))
         == if q(k) then AddRow(Filter(g, EntryPasses(q)), k) else Filter(g, EntryPasses(q))
  {
    var p := EntryPasses(q);
    var r := [g[0]] + AddRow(g[1..], k);
    assert AddRow(g, k) == r;
    assert r[0] == g[0] && r[1..] == AddRow(g[1..], k);
    FilterCons(r, p);
    FilterCons(g, p);
    if p(g[0]) {
      var fg := Filter(g, p);
      assert fg == [g[0]] + Filter(g[1..], p);
      assert fg[0].0 != k && fg[1..] == Filter(g[1..], p);
    } else {
      assert [] + Filter(g[1..], p) == Filter(g[1..], p);
      assert [] + Filter(AddRow(g[1..], k), p) == Filter(AddRow(g[1..], k), p);
    }
  }

  /** Dropping the groups whose key fails `q` is grouping only the rows
      whose key passes it. */
  lemma {:induction false} GroupByFilterKeys<T, K(!new)>(s: seq<T>, key: T -> K, q: K -> bool)
    ensures Filter(GroupBy(s, key), EntryPasses(q)) == GroupBy(Filter(s, KeyPasses(key, q)), key)
  {
    if s != [] {
      var kp := KeyPasses(key, q);
      GroupByFilterKeys(s[1..], key, q);
      FilterAddRow(GroupBy(s[1..], key), key(s[0]), q);
      assert kp(s[0]) == q(key(s[0]));
      if q(key(s[0])) {
        var f := Filter(s, kp);
        assert f == [s[0]] + Filter(s[1..], kp);
        assert f[1..] == Filter(s[1..], kp);
      }
    }
  }

  // ---------------------------------------------------------------------------
  // Folding rows into a JavaScript object: `acc[k] = v`
  // ---------------------------------------------------------------------------

  /** `obj[k] = v` for a key that becomes an own property of the object
      (for text keys, any key but `__proto__`: see `SetProperty`): an
      existing property keeps its place and takes the new value; a new
      property is added last. */
  function Assign<K(==,!new)>(obj: seq<(K, nat)>, k: K, v: nat): (r: seq<(K, nat)>)
    requires KeysDistinct(obj)
    ensures KeysDistinct(r)
    ensures forall x :: CountOf(r, x) == if x == k then v else CountOf(obj, x)
    ensures forall x :: HasKey(r, x) <==> HasKey(obj, x) || x == k
    ensures !HasKey(obj, k) ==> r == obj + [(k, v)]
  {
    if obj == [] then
      ConsKeys((k, v), []);
      [(k, v)]
    else
      ConsKeys(obj[0], obj[1..]);
      assert obj == [obj[0]] + obj[1..];
      if obj[0].0 == k then
        var r := [(k, v)] + obj[1..];
        ConsKeys((k, v), obj[1..]);
        assert r[1..] == obj[1..];
        r
      else
        var rest := Assign(obj[1..], k, v);
        var r := [obj[0]] + rest;
        ConsKeys(obj[0], rest);
        assert r[1..] == rest;
        assert !HasKey(obj, k) ==> r == obj + [(k, v)] by {
          if !HasKey(obj, k) {
            assert r == [obj[0]] + (obj[1..] + [(k, v)]);
          }
        }
        r
  }

  /** `rows.reduce((acc, row) => { acc[row.key] = row.value; return acc; }, {})`
      over keys that are all own properties once assigned, such as the
      trend's `YYYY-MM-DD` days; text keys in general go through
      `TextObjectOf`. */
  function ObjectOf<K(==,!new)>(rows: seq<(K, nat)>): (obj: seq<(K, nat)>)
    ensures KeysDistinct(obj)
  {
    if rows == [] then []
    else Assign(ObjectOf(rows[..|rows| - 1]), rows[|rows| - 1].0, rows[|rows| - 1].1)
  }

  /** Reading a property of the folded object gives the last value the rows
      held for that key, and `|| 0` turns a missing property into 0. */
  lemma {:induction false} ObjectHoldsLastValue<K(!new)>(rows: seq<(K, nat)>, k: K)
    ensures CountOf(ObjectOf(rows), k) == LastCountOf(rows, k)
  {
    if rows != [] {
      ObjectHoldsLastValue(rows[..|rows| - 1], k);
    }
  }

  /** Folding rows whose keys are distinct rebuilds the rows, in order. */
  lemma {:induction false} ObjectOfDistinctRows<K(!new)>(rows: seq<(K, nat)>)
    requires KeysDistinct(rows)
    ensures ObjectOf(rows) == rows
  {
    if rows != [] {
      var init := rows[..|rows| - 1];
      var last := rows[|rows| - 1];
      assert KeysDistinct(init);
      ObjectOfDistinctRows(init);
      assert !HasKey(init, last.0);
      assert init + [last] == rows;
    }
  }

  /** With distinct keys the first and the last entry for a key are one. */
  lemma {:induction false} LastIsFirstWhenDistinct<K(!new)>(rows: seq<(K, nat)>, k: K)
    requires KeysDistinct(rows)
    ensures LastCountOf(rows, k) == CountOf(rows, k)
  {
    ObjectOfDistinctRows(rows);
    ObjectHoldsLastValue(rows, k);
  }

  /** With distinct keys every entry is the one found for its key. */
  lemma {:induction false} CountOfDistinct<K(!new)>(g: seq<(K, nat)>, i: int)
    requires KeysDistinct(g)
    requires 0 <= i < |g|
    ensures CountOf(g, g[i].0) == g[i].1
  {
    if i > 0 {
      ConsKeys(g[0], g[1..]);
      assert g == [g[0]] + g[1..];
      assert g[1..][i - 1] == g[i];
      CountOfDistinct(g[1..], i - 1);
    }
  }

  // ---------------------------------------------------------------------------
  // Objects keyed by arbitrary text: the `__proto__` key
  // ---------------------------------------------------------------------------

  /** The one text that `obj[k] = v` on a plain object does not turn into a
      property: it names the accessor inherited from `Object.prototype`,
      whose setter ignores a value that is not an object. */
  const ProtoKey: string := "__proto__"

  function NotProto(k: string): bool { k != ProtoKey }

  /** `obj[k] = count` on a plain object with text keys: the `__proto__`
      key changes nothing, any other key is assigned as by `Assign`. */
  function SetProperty(obj: seq<(string, nat)>, k: string, v: nat): (r: seq<(string, nat)>)
    requires KeysDistinct(obj)
    ensures KeysDistinct(r)
    ensures forall x :: CountOf(r, x) == if x == k && k != ProtoKey then v else CountOf(obj, x)
    ensures forall x :: HasKey(r, x) <==> HasKey(obj, x) || (x == k && k != ProtoKey)
  {
    if k == ProtoKey then obj else Assign(obj, k, v)
  }

  /** `rows.reduce((acc, row) => { acc[row.key] = row.count; return acc; }, {})`
      with text keys. */
  function TextObjectOf(rows: seq<(string, nat)>): (obj: seq<(string, nat)>)
    ensures KeysDistinct(obj)
    ensures !HasKey(obj, ProtoKey)
  {
    if rows == [] then []
    else SetProperty(TextObjectOf(rows[..|rows| - 1]), rows[|rows| - 1].0, rows[|rows| - 1].1)
  }

  /** Folding rows with distinct text keys gives the rows, in order, less
      any `__proto__` row. */
  lemma {:induction false} TextObjectOfDistinctRows(rows: seq<(string, nat)>)
    requires KeysDistinct(rows)
    ensures TextObjectOf(rows) == Filter(rows, EntryPasses(NotProto))
  {
    if rows != [] {
      LastRowNew(rows);
      TextObjectOfDistinctRows(rows[..|rows| - 1]);
      TextObjectOfLastRow(rows);
    }
  }

  /** In rows with distinct keys, the last row's key is not among the
      others, whose keys are distinct too. */
  lemma LastRowNew<K>(rows: seq<(K, nat)>)
    requires KeysDistinct(rows) && rows != []
    ensures KeysDistinct(rows[..|rows| - 1]) && !HasKey(rows[..|rows| - 1], rows[|rows| - 1].0)
  {
    var init := rows[..|rows| - 1];
    forall i | 0 <= i < |init| ensures init[i] == rows[i] {
    }
  }

  /** Selecting from a list with one more row at the end. */
  lemma FilterSnoc<T>(init: seq<T>, last: T, p: T -> bool)
    ensures Filter(init + [last], p) == if p(last) then Filter(init, p) + [last] else Filter(init, p)
  {
    FilterAppend(init, [last], p);
    FilterCons([last], p);
    assert [last][1..] == init[..0];
    if !p(last) {
      assert Filter(init, p) + [] == Filter(init, p);
    }
  }

  /** Selecting entries cannot bring in a key the list does not have. */
  lemma FilterLacksKey<K>(g: seq<(K, nat)>, p: ((K, nat)) -> bool, k: K)
    requires !HasKey(g, k)
    ensures !HasKey(Filter(g, p), k)
  {
    var f := Filter(g, p);
    forall i | 0 <= i < |f| ensures f[i].0 != k {
      var j :| 0 <= j < |g| && g[j] == f[i];
    }
  }

  /** A non-empty list is its front followed by its last element. */
  lemma SplitLast<T>(s: seq<T>)
    requires s != []
    ensures s == s[..|s| - 1] + [s[|s| - 1]]
  {
  }

  /** Setting a key the object lacks appends it, unless it is `__proto__`. */
  lemma SetNewProperty(obj: seq<(string, nat)>, k: string, v: nat)
    requires KeysDistinct(obj) && !HasKey(obj, k)
    ensures SetProperty(obj, k, v) == if NotProto(k) then obj + [(k, v)] else obj
  {
  }

  /** One step of `TextObjectOfDistinctRows`: a last row with a new key. */
  lemma TextObjectOfLastRow(rows: seq<(string, nat)>)
    requires rows != []
    requires KeysDistinct(rows[..|rows| - 1]) && !HasKey(rows[..|rows| - 1], rows[|rows| - 1].0)
    requires TextObjectOf(rows[..|rows| - 1]) == Filter(rows[..|rows| - 1], EntryPasses(NotProto))
    ensures TextObjectOf(rows) == Filter(rows, EntryPasses(NotProto))
  {
    var p := EntryPasses(NotProto);
    var init, last := rows[..|rows| - 1], rows[|rows| - 1];
    var f := Filter(init, p);
    SplitLast(rows);
    FilterSnoc(init, last, p);
    FilterLacksKey(init, p, last.0);
    SetNewProperty(f, last.0, last.1);
    assert p(last) == NotProto(last.0);
    assert (last.0, last.1) == last;
  }
}
