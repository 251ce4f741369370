/** The pagination arithmetic shared by the patient and appointment lists:
    `parseInt(req.query.page) || 1`, `(page - 1) * limit` and
    `Math.ceil(totalItems / limit)` with `limit = 15`. */
module Paging {
  import opened Common
  import opened Text

  /** The fixed page size (`const limit = 15`). */
  const PageSize: nat := 15

  /** The ASCII white space JavaScript's `parseInt` skips before the number. */
  predicate IsSpace(c: char)
  {
    c == ' ' || c == '\t' || c == '\n' || c == '\r' || c == '\U{000B}' || c == '\U{000C}'
  }

  function TrimStart(s: string): (r: string)
    ensures |r| <= |s| && r == s[|s| - |r|..]
    ensures r == [] || !IsSpace(r[0])
  {
    if s != [] && IsSpace(s[0]) then TrimStart(s[1..]) else s
  }

  /** `parseInt(s)` for decimal text: leading white space, an optional sign,
      then the longest run of digits; `None` stands for `NaN` (no digit). */
  function ParseInt(s: string): Option<int>
  {
    var t := TrimStart(s);
    var signed := |t| > 0 && (t[0] == '-' || t[0] == '+');
    var body := if signed then t[1..] else t;
    var digits := DigitPrefix(body);
    var magnitude: int := if digits == [] then 0 else DigitsValue(digits);
    if digits == [] then None
    else if signed && t[0] == '-' then Some(-magnitude)
    else Some(magnitude)
  }

  /** `parseInt(req.query.page) || 1`: NaN and 0 are falsy, so both give 1. */
  function PageNumber(query: Option<string>): (page: int)
    ensures page != 0
    ensures query.None? ==> page == 1
  {
    var parsed := if query.Some? then ParseInt(query.value) else None;
    if parsed.Some? && parsed.value != 0 then parsed.value else 1
  }

  /** `(page - 1) * limit`. */
  function Offset(page: int): (offset: int)
    ensures page >= 1 ==> offset >= 0 && offset % PageSize == 0
  {
    (page - 1) * PageSize
  }

  /** `Math.ceil(totalItems / limit)`: the fewest pages of 15 that hold every item. */
  function TotalPages(total: nat): (pages: nat)
    ensures pages * PageSize >= total
    ensures pages > 0 ==> (pages - 1) * PageSize < total
    ensures pages == 0 <==> total == 0
  {
    (total + PageSize - 1) / PageSize
  }

  /** A page number written in decimal is read back as itself, except 0,
      which is falsy and becomes page 1. */
  lemma PageNumberOfDecimal(n: nat)
    ensures PageNumber(Some(NatToString(n))) == if n == 0 then 1 else n
  {
    var s := NatToString(n);
    assert TrimStart(s) == s;
    DigitPrefixOfDigits(s);
    NatToStringRoundTrip(n);
  }

  lemma {:induction false} DigitPrefixOfDigits(s: string)
    requires AllDigits(s)
    ensures DigitPrefix(s) == s
  {
    if s != [] {
      DigitPrefixOfDigits(s[1..]);
      assert [s[0]] + s[1..] == s;
    }
  }

  /** A page parameter that does not start with a number (after white space
      and a sign) parses to NaN and gives page 1. */
  lemma PageNumberOfNonNumeric(s: string)
    requires |s| > 0 && !IsSpace(s[0]) && !IsDigit(s[0]) && s[0] != '-' && s[0] != '+'
    ensures PageNumber(Some(s)) == 1
  {
    assert TrimStart(s) == s;
  }

  /** A negative page number passes `|| 1` unchanged and yields a negative
      offset, which SQLite treats as offset 0. */
  lemma NegativePage(n: nat)
    requires n > 0
    ensures PageNumber(Some("-" + NatToString(n))) == -(n as int)
    ensures Offset(-(n as int)) < 0
  {
    var s := "-" + NatToString(n);
    assert TrimStart(s) == s;
    assert s[1..] == NatToString(n);
    DigitPrefixOfDigits(NatToString(n));
    NatToStringRoundTrip(n);
  }
}
