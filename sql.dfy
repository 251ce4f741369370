/** The dynamically built WHERE clauses of the two list handlers, read as a
    list of conditions whose `?` placeholders are bound, left to right, to a
    parameter array, as sqlite3 binds `db.all(sql, params)`. */
module Sql {
  import opened Common
  import opened Text

  /** A bound parameter: a JavaScript number or string. */
  datatype Param = IntParam(n: int) | TextParam(s: string)

  /** One condition appended to `whereClauses` by a list handler. */
  datatype Condition =
    | UserIs     // `user_id = ?`
    | NameLike   // `(first_name LIKE ? OR last_name LIKE ?)`
    | StatusIs   // `status = ?`

  /** The number of `?` placeholders in a condition. */
  function Arity(c: Condition): nat
  {
    match c
    case NameLike => 2
    case _ => 1
  }

  function TotalArity(cs: seq<Condition>): nat
  {
    if cs == [] then 0 else TotalArity(cs[..|cs| - 1]) + Arity(cs[|cs| - 1])
  }

  /** A condition's SQL text; the appointment list qualifies its columns
      with the table aliases `a.` and `p.` of its join. */
  function ConditionText(c: Condition, qualified: bool): string
  {
    var a := if qualified then "a." else "";
    var p := if qualified then "p." else "";
    match c
    case UserIs => a + "user_id = " + "?"
    case NameLike => "(" + p + "first_name LIKE " + "?" + (" OR " + p + "last_name LIKE ") + "?" + ")"
    case StatusIs => a + "status = " + "?"
  }

  /** Each condition's text carries one `?` per value it binds. */
  lemma ConditionTextArity(c: Condition, qualified: bool)
    ensures Occurrences(ConditionText(c, qualified), '?') == Arity(c)
  {
    var a := if qualified then "a." else "";
    var p := if qualified then "p." else "";
    assert '?' !in a && '?' !in p;
    match c
    case UserIs => OnePlaceholder(a, "user_id = ");
    case StatusIs => OnePlaceholder(a, "status = ");
    case NameLike => NameLikeArity(p);
  }

  lemma NameLikeArity(p: string)
    requires '?' !in p
    ensures Occurrences("(" + p + "first_name LIKE " + "?" + (" OR " + p + "last_name LIKE ") + "?" + ")", '?') == 2
  {
    assert '?' !in "first_name LIKE " && '?' !in "last_name LIKE " && '?' !in " OR ";
    TwoPlaceholders("(" + p + "first_name LIKE ", " OR " + p + "last_name LIKE ", ")");
  }

  lemma TwoPlaceholders(x: string, y: string, z: string)
    requires '?' !in x && '?' !in y && '?' !in z
    ensures Occurrences(x + "?" + y + "?" + z, '?') == 2
  {
    OccurrencesAppend(x, "?", '?');
    OccurrencesAppend(x + "?", y, '?');
    OccurrencesAppend(x + "?" + y, "?", '?');
    OccurrencesAppend(x + "?" + y + "?", z, '?');
  }

  lemma OnePlaceholder(prefix: string, column: string)
    requires '?' !in prefix && '?' !in column
    ensures Occurrences(prefix + column + "?", '?') == 1
  {
    OccurrencesAppend(prefix, column, '?');
    OccurrencesAppend(prefix + column, "?", '?');
  }

  /** The clause text: `WHERE c1 AND c2 AND …`, given each condition's text. */
  function WhereText(cs: seq<Condition>, qualified: bool): string
    requires |cs| >= 1
  {
    if |cs| == 1 then "WHERE " + ConditionText(cs[0], qualified)
    else WhereText(cs[..|cs| - 1], qualified) + " AND " + ConditionText(cs[|cs| - 1], qualified)
  }

  /** The clause carries exactly as many `?` as its conditions bind. */
  lemma {:induction false} WhereTextPlaceholders(cs: seq<Condition>, qualified: bool)
    requires |cs| >= 1
    ensures Occurrences(WhereText(cs, qualified), '?') == TotalArity(cs)
  {
    var last := cs[|cs| - 1];
    ConditionTextArity(last, qualified);
    if |cs| == 1 {
      OccurrencesAppend("WHERE ", ConditionText(last, qualified), '?');
      assert Occurrences("WHERE ", '?') == 0;
      assert cs[..0] == [];
    } else {
      WhereTextPlaceholders(cs[..|cs| - 1], qualified);
      OccurrencesAppend(WhereText(cs[..|cs| - 1], qualified), " AND ", '?');
      OccurrencesAppend(WhereText(cs[..|cs| - 1], qualified) + " AND ", ConditionText(last, qualified), '?');
      assert Occurrences(" AND ", '?') == 0;
    }
  }

  /** `LIKE '%term%'`, the pattern the handlers build from a search term. */
  function LikePattern(term: string): string
  {
    "%" + term + "%"
  }

  /** `value LIKE pattern` for a pattern of the form `%term%`: the term
      occurs in the value. NULL never matches. */
  predicate Like(value: Option<string>, pattern: Param)
  {
    && value.Some?
    && pattern.TextParam?
    && |pattern.s| >= 2 && pattern.s[0] == '%' && pattern.s[|pattern.s| - 1] == '%'
    && Contains(value.value, pattern.s[1..|pattern.s| - 1])
  }

  lemma LikePatternMatches(value: Option<string>, term: string)
    ensures Like(value, TextParam(LikePattern(term))) <==> value.Some? && Contains(value.value, term)
  {
    var s := LikePattern(term);
    assert s[1..|s| - 1] == term;
  }

  /** The columns of a (possibly joined) row that the conditions read;
      `None` is SQL NULL (a LEFT JOIN without a match). */
  datatype RowView = RowView(userId: int, firstName: Option<string>, lastName: Option<string>, status: Option<string>)

  /** Whether a row satisfies one condition with its parameters bound. */
  predicate ConditionHolds(c: Condition, params: seq<Param>, row: RowView)
    requires |params| >= Arity(c)
  {
    match c
    case UserIs => params[0] == IntParam(row.userId)
    case NameLike => Like(row.firstName, params[0]) || Like(row.lastName, params[1])
    case StatusIs => row.status.Some? && params[0] == TextParam(row.status.value)
  }

  /** Whether a row satisfies the conditions with `params` bound left to
      right; a comparison with NULL, or with a missing parameter, is false. */
  function Holds(cs: seq<Condition>, params: seq<Param>, row: RowView): bool
  {
    if cs == [] then true
    else if |params| < Arity(cs[0]) then false
    else ConditionHolds(cs[0], params, row) && Holds(cs[1..], params[Arity(cs[0])..], row)
  }

  lemma TotalArityAppend(cs: seq<Condition>, c: Condition)
    ensures TotalArity(cs + [c]) == TotalArity(cs) + Arity(c)
  {
    assert (cs + [c])[..|cs|] == cs;
  }

  lemma WhereTextAppend(cs: seq<Condition>, c: Condition, qualified: bool)
    requires |cs| >= 1
    ensures WhereText(cs + [c], qualified) == WhereText(cs, qualified) + " AND " + ConditionText(c, qualified)
  {
    assert (cs + [c])[..|cs|] == cs;
  }

  /** Conditions joined by AND, with their parameters concatenated in the
      same order, hold exactly when both parts hold. */
  lemma {:induction false} HoldsAppend(cs1: seq<Condition>, p1: seq<Param>, cs2: seq<Condition>, p2: seq<Param>, row: RowView)
    requires |p1| == TotalArity(cs1)
    ensures Holds(cs1 + cs2, p1 + p2, row) == (Holds(cs1, p1, row) && Holds(cs2, p2, row))
  {
    if cs1 == [] {
      assert cs1 + cs2 == cs2 && p1 + p2 == p2;
    } else {
      TotalArityCons(cs1);
      var k := Arity(cs1[0]);
      assert (cs1 + cs2)[0] == cs1[0] && (cs1 + cs2)[1..] == cs1[1..] + cs2;
      assert (p1 + p2)[k..] == p1[k..] + p2;
      assert ConditionHolds(cs1[0], p1 + p2, row) == ConditionHolds(cs1[0], p1, row) by {
        assert forall i :: 0 <= i < k ==> (p1 + p2)[i] == p1[i];
      }
      HoldsAppend(cs1[1..], p1[k..], cs2, p2, row);
    }
  }

  /** A single condition with exactly its parameters. */
  lemma HoldsSingle(c: Condition, params: seq<Param>, row: RowView)
    requires |params| == Arity(c)
    ensures Holds([c], params, row) == ConditionHolds(c, params, row)
  {
    assert [c][1..] == [];
  }

  lemma {:induction false} TotalArityCons(cs: seq<Condition>)
    requires cs != []
    ensures TotalArity(cs) == Arity(cs[0]) + TotalArity(cs[1..])
  {
    if |cs| > 1 {
      assert cs[1..][..|cs[1..]| - 1] == cs[..|cs| - 1][1..];
      TotalArityCons(cs[..|cs| - 1]);
    }
  }

  /** Parameters past the ones the conditions bind (the data query's LIMIT
      and OFFSET) do not change which rows the WHERE clause selects. */
  lemma {:induction false} HoldsIgnoresTrailing(cs: seq<Condition>, params: seq<Param>, extra: seq<Param>, row: RowView)
    requires |params| >= TotalArity(cs)
    ensures Holds(cs, params + extra, row) == Holds(cs, params, row)
  {
    if cs != [] {
      TotalArityCons(cs);
      var k := Arity(cs[0]);
      assert (params + extra)[k..] == params[k..] + extra;
      assert ConditionHolds(cs[0], params + extra, row) == ConditionHolds(cs[0], params, row) by {
        assert forall i :: 0 <= i < k ==> (params + extra)[i] == params[i];
      }
      HoldsIgnoresTrailing(cs[1..], params[k..], extra, row);
    }
  }

  /** A list query as the handlers build it: the WHERE conditions with their
      text, the count query's parameters and the data query's parameters. */
  datatype ListQuery = ListQuery(
    conditions: seq<Condition>,
    whereClauses: string,
    countParams: seq<Param>,
    dataParams: seq<Param>)
  {
    /** `LIMIT ?` and `OFFSET ?` are bound to the two parameters after the
        ones the WHERE clause uses. */
    function Limit(): Option<int>
    {
      var k := TotalArity(conditions);
      if k < |dataParams| && dataParams[k].IntParam? then Some(dataParams[k].n) else None
    }

    function OffsetParam(): Option<int>
    {
      var k := TotalArity(conditions) + 1;
      if k < |dataParams| && dataParams[k].IntParam? then Some(dataParams[k].n) else None
    }
  }

  /** Pushing `limit, offset` after the parameters the WHERE clause binds
      makes them the values of `LIMIT ?` and `OFFSET ?`. */
  lemma LimitOffsetFollowWhere(q: ListQuery, limit: int, offset: int)
    requires |q.countParams| == TotalArity(q.conditions)
    requires q.dataParams == q.countParams + [IntParam(limit), IntParam(offset)]
    ensures q.Limit() == Some(limit) && q.OffsetParam() == Some(offset)
  {
    var k := |q.countParams|;
    assert q.dataParams[k] == IntParam(limit) && q.dataParams[k + 1] == IntParam(offset);
  }
}
