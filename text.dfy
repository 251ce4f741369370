/** Text operations that the application's SQL and JavaScript rely on:
    SQLite's BINARY string ordering, JavaScript's `split`, decimal digits
    (for `parseInt` and for numbers inserted into messages) and substring
    search (the model of `LIKE '%term%'`). */
module Text {

  // ---------------------------------------------------------------------------
  // Lexicographic order (SQLite BINARY collation on code points)
  // ---------------------------------------------------------------------------

  /** `a <= b` as SQLite compares two TEXT values: character by character,
      a proper prefix coming first. */
  predicate LexLe(a: string, b: string)
  {
    |a| == 0 || (|b| > 0 && (a[0] < b[0] || (a[0] == b[0] && LexLe(a[1..], b[1..]))))
  }

  /** `a < b` in the same order. */
  predicate LexLess(a: string, b: string)
  {
    |b| > 0 && (|a| == 0 || a[0] < b[0] || (a[0] == b[0] && LexLess(a[1..], b[1..])))
  }

  lemma {:induction false} LexLessIsNotLe(a: string, b: string)
    ensures LexLess(a, b) <==> !LexLe(b, a)
  {
    if |a| > 0 && |b| > 0 && a[0] == b[0] {
      LexLessIsNotLe(a[1..], b[1..]);
    }
  }

  lemma {:induction false} LexLeTotal(a: string, b: string)
    ensures LexLe(a, b) || LexLe(b, a)
  {
    if |a| > 0 && |b| > 0 && a[0] == b[0] {
      LexLeTotal(a[1..], b[1..]);
    }
  }

  lemma {:induction false} LexLeTransitive(a: string, b: string, c: string)
    requires LexLe(a, b) && LexLe(b, c)
    ensures LexLe(a, c)
  {
    if |a| > 0 && |b| > 0 && |c| > 0 && a[0] == b[0] && b[0] == c[0] {
      LexLeTransitive(a[1..], b[1..], c[1..]);
    }
  }

  lemma {:induction false} LexLeAntisymmetric(a: string, b: string)
    requires LexLe(a, b) && LexLe(b, a)
    ensures a == b
  {
    if |a| > 0 && |b| > 0 {
      LexLeAntisymmetric(a[1..], b[1..]);
      assert a == [a[0]] + a[1..] && b == [b[0]] + b[1..];
    }
  }

  /** Comparing two texts whose first parts have the same length compares
      the first parts, then the rest. */
  lemma {:induction false} LexLessConcat(p: string, s: string, q: string, t: string)
    requires |p| == |q|
    ensures LexLess(p + s, q + t) <==> LexLess(p, q) || (p == q && LexLess(s, t))
  {
    if |p| > 0 {
      assert (p + s)[1..] == p[1..] + s && (q + t)[1..] == q[1..] + t;
      LexLessConcat(p[1..], s, q[1..], t);
      if p[0] == q[0] && p[1..] == q[1..] {
        assert p == [p[0]] + p[1..] && q == [q[0]] + q[1..];
      }
    } else {
      assert p + s == s && q + t == t;
    }
  }

  // ---------------------------------------------------------------------------
  // Decimal digits
  // ---------------------------------------------------------------------------

  function Digit(k: nat): (c: char)
    requires k < 10
    ensures '0' <= c <= '9'
  {
    ['0', '1', '2', '3', '4', '5', '6', '7', '8', '9'][k]
  }

  predicate IsDigit(c: char) { '0' <= c <= '9' }

  function DigitValue(c: char): (k: nat)
    requires IsDigit(c)
    ensures k < 10 && Digit(k) == c
  {
    (c as int - '0' as int)
  }

  predicate AllDigits(s: string) { forall i :: 0 <= i < |s| ==> IsDigit(s[i]) }

  /** The number a string of decimal digits denotes (most significant first). */
  function DigitsValue(s: string): nat
    requires AllDigits(s)
  {
    if s == [] then 0 else DigitsValue(s[..|s| - 1]) * 10 + DigitValue(s[|s| - 1])
  }

  /** JavaScript's `String(n)` (and template interpolation) for a non-negative integer. */
  function NatToString(n: nat): (s: string)
    ensures |s| > 0 && AllDigits(s)
  {
    if n < 10 then [Digit(n)] else NatToString(n / 10) + [Digit(n % 10)]
  }

  lemma {:induction false} NatToStringRoundTrip(n: nat)
    ensures DigitsValue(NatToString(n)) == n
  {
    var s := NatToString(n);
    if n >= 10 {
      NatToStringRoundTrip(n / 10);
      assert s[..|s| - 1] == NatToString(n / 10);
    }
  }

  /** The longest prefix of `s` made of decimal digits. */
  function DigitPrefix(s: string): (d: string)
    ensures AllDigits(d) && d <= s
    ensures |d| < |s| ==> !IsDigit(s[|d|])
  {
    if s != [] && IsDigit(s[0]) then [s[0]] + DigitPrefix(s[1..]) else []
  }

  /** Two-digit, zero-padded rendering used by strftime's `%m` and `%d`. */
  function Pad2(n: nat): (s: string)
    requires n < 100
    ensures |s| == 2
  {
    [Digit(n / 10), Digit(n % 10)]
  }

  lemma Pad2Order(m: nat, n: nat)
    requires m < 100 && n < 100
    ensures LexLess(Pad2(m), Pad2(n)) <==> m < n
  {
    var a, b := Pad2(m), Pad2(n);
    assert a[1..] == [Digit(m % 10)] && b[1..] == [Digit(n % 10)];
    assert LexLess(a[1..], b[1..]) <==> Digit(m % 10) < Digit(n % 10);
    assert Digit(m / 10) < Digit(n / 10) <==> m / 10 < n / 10;
    assert Digit(m / 10) == Digit(n / 10) <==> m / 10 == n / 10;
    assert Digit(m % 10) < Digit(n % 10) <==> m % 10 < n % 10;
  }

  /** strftime('%m-%d', …) of a date with month `m` and day `d`. */
  function MonthDayText(m: nat, d: nat): (s: string)
    requires m < 100 && d < 100
    ensures |s| == 5 && s[2] == '-'
  {
    Pad2(m) + "-" + Pad2(d)
  }

  /** Comparing the zero-padded `MM-DD` texts is the same as comparing
      (month, day) pairs. */
  lemma MonthDayTextOrder(m: nat, d: nat, m': nat, d': nat)
    requires m < 100 && d < 100 && m' < 100 && d' < 100
    ensures LexLess(MonthDayText(m, d), MonthDayText(m', d')) <==> m < m' || (m == m' && d < d')
  {
    Pad2Order(m, m');
    Pad2Order(d, d');
    LexLessConcat("-", Pad2(d), "-", Pad2(d'));
    assert !LexLess("-", "-");
    LexLessConcat(Pad2(m), "-" + Pad2(d), Pad2(m'), "-" + Pad2(d'));
    assert MonthDayText(m, d) == Pad2(m) + ("-" + Pad2(d));
    assert MonthDayText(m', d') == Pad2(m') + ("-" + Pad2(d'));
    if Pad2(m) == Pad2(m') {
      assert m == m' by { Pad2Order(m, m'); Pad2Order(m', m); }
    }
  }

  // ---------------------------------------------------------------------------
  // JavaScript String.prototype.split with a one-character separator
  // ---------------------------------------------------------------------------

  /** `s.split(c)`: the pieces between occurrences of `c`; never empty. */
  function Split(s: string, c: char): (parts: seq<string>)
    ensures |parts| >= 1
    ensures forall k :: 0 <= k < |parts| ==> c !in parts[k]
  {
    if s == [] then [[]]
    else
      var rest := Split(s[1..], c);
      if s[0] == c then [[]] + rest else [[s[0]] + rest[0]] + rest[1..]
  }

  /** `parts.join(c)`, the inverse of Split. */
  function Join(parts: seq<string>, c: char): string
    requires |parts| >= 1
  {
    if |parts| == 1 then parts[0] else parts[0] + [c] + Join(parts[1..], c)
  }

  lemma {:induction false} SplitJoin(s: string, c: char)
    ensures Join(Split(s, c), c) == s
  {
    if s != [] {
      var rest := Split(s[1..], c);
      SplitJoin(s[1..], c);
      if s[0] == c {
        assert Split(s, c)[1..] == rest;
      } else {
        var parts := Split(s, c);
        if |rest| == 1 {
          assert parts == [[s[0]] + rest[0]];
        } else {
          assert parts[1..] == rest[1..];
          assert Join(rest, c) == rest[0] + [c] + Join(rest[1..], c);
        }
      }
    }
  }

  /** The text of `s` before its first `c` (all of `s` when there is none). */
  function UpTo(s: string, c: char): (r: string)
    ensures r <= s && c !in r
  {
    if s == [] || s[0] == c then [] else [s[0]] + UpTo(s[1..], c)
  }

  lemma {:induction false} UpToIsSlice(s: string, c: char, j: nat)
    requires j <= |s| && c !in s[..j] && (j == |s| || s[j] == c)
    ensures UpTo(s, c) == s[..j]
  {
    if j > 0 {
      assert s[1..][..j - 1] == s[1..j];
      UpToIsSlice(s[1..], c, j - 1);
    }
  }

  lemma {:induction false} SplitFirst(s: string, c: char)
    ensures Split(s, c)[0] == UpTo(s, c)
  {
    if s != [] && s[0] != c {
      SplitFirst(s[1..], c);
    }
  }

  /** When `s` contains `c` (first at `i`), `s.split(c)[1]` is the text
      after that first `c` up to the next `c` or the end. */
  lemma {:induction false} SplitSecond(s: string, c: char, i: nat)
    requires i < |s| && s[i] == c && c !in s[..i]
    ensures |Split(s, c)| >= 2 && Split(s, c)[1] == UpTo(s[i + 1..], c)
  {
    if i == 0 {
      SplitFirst(s[1..], c);
    } else {
      assert s[0] == s[..i][0];
      assert s[1..][..i - 1] == s[1..i];
      SplitSecond(s[1..], c, i - 1);
      assert s[1..][i..] == s[i + 1..];
    }
  }

  /** A text without `c` splits into itself alone. */
  lemma {:induction false} SplitWithout(s: string, c: char)
    requires c !in s
    ensures Split(s, c) == [s]
  {
    if s != [] {
      assert s[0] in s;
      assert forall x :: x in s[1..] ==> x in s;
      SplitWithout(s[1..], c);
      assert [s[0]] + s[1..] == s;
    }
  }

  // ---------------------------------------------------------------------------
  // Counting characters and substring search
  // ---------------------------------------------------------------------------

  /** The number of occurrences of `c` in `s` (used for `?` placeholders). */
  function Occurrences(s: string, c: char): (n: nat)
    ensures n <= |s|
    ensures n == 0 <==> c !in s
  {
    if s == [] then 0 else (if s[0] == c then 1 else 0) + Occurrences(s[1..], c)
  }

  lemma {:induction false} OccurrencesAppend(s: string, t: string, c: char)
    ensures Occurrences(s + t, c) == Occurrences(s, c) + Occurrences(t, c)
  {
    if s != [] {
      assert (s + t)[1..] == s[1..] + t;
      OccurrencesAppend(s[1..], t, c);
    } else {
      assert s + t == t;
    }
  }

  /** `term` occurs in `s` as a contiguous piece: the model of `s LIKE '%term%'`. */
  predicate Contains(s: string, term: string)
  {
    exists i | 0 <= i <= |s| - |term| :: OccursAt(s, term, i)
  }

  predicate OccursAt(s: string, term: string, i: int)
  {
    0 <= i <= |s| - |term| && s[i..i + |term|] == term
  }

  // ---------------------------------------------------------------------------
  // JavaScript's `length`: UTF-16 code units
  // ---------------------------------------------------------------------------

  /** A character outside the Basic Multilingual Plane takes a surrogate pair. */
  predicate Astral(c: char) { c as int > 0xFFFF }

  /** `s.length` in JavaScript: one code unit per character, two for a
      character above U+FFFF. */
  function Utf16Length(s: string): (n: nat)
    ensures |s| <= n <= 2 * |s|
  {
    if s == [] then 0 else (if Astral(s[0]) then 2 else 1) + Utf16Length(s[1..])
  }

  /** Each astral character adds one unit to the character count; so the two
      lengths agree exactly when the text has no astral character. */
  lemma {:induction false} Utf16LengthCountsAstral(s: string)
    ensures Utf16Length(s) == |s| + CountAstral(s)
    ensures Utf16Length(s) == |s| <==> forall i :: 0 <= i < |s| ==> !Astral(s[i])
  {
    if s != [] {
      Utf16LengthCountsAstral(s[1..]);
      assert forall i :: 0 < i < |s| ==> s[i] == s[1..][i - 1];
    }
  }

  function CountAstral(s: string): (n: nat)
    ensures n <= |s|
    ensures n == 0 <==> forall i :: 0 <= i < |s| ==> !Astral(s[i])
  {
    if s == [] then 0 else (if Astral(s[0]) then 1 else 0) + CountAstral(s[1..])
  }
}
