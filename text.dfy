/**
 * The few Python string operations the ledger relies on: `str.strip()`,
 * `str.lower()`, `str.split(sep)` and rendering a natural number in decimal.
 */
module Text {
  import opened Seqs

  /**
   * The ASCII characters `str.strip()` removes: space, tab, line feed,
   * vertical tab, form feed, carriage return and the separators U+001C-U+001F.
   */
  predicate IsSpace(c: char) {
    c == ' ' || '\t' <= c <= '\r' || '\U{1C}' <= c <= '\U{1F}'
  }

  /** Neither end of `s` is whitespace. */
  predicate IsTrimmed(s: string) {
    s == [] || (!IsSpace(s[0]) && !IsSpace(s[|s| - 1]))
  }

  /**
   * Python's `s.strip()`, one whitespace character at a time from either end:
   * the result consists of characters of `s`, has no whitespace at either
   * end, and is empty exactly when `s` is blank.
   */
  function Trim(s: string): (r: string)
    ensures IsTrimmed(r)
    ensures forall c :: c in r ==> c in s
    ensures r == [] <==> forall k :: 0 <= k < |s| ==> IsSpace(s[k])
  {
    if s != [] && IsSpace(s[0]) then Trim(s[1..])
    else if s != [] && IsSpace(s[|s| - 1]) then Trim(s[..|s| - 1])
    else s
  }

  /** Stripping is idempotent, and an already-stripped string is its own strip. */
  lemma TrimFixesTrimmed(s: string)
    ensures IsTrimmed(s) <==> Trim(s) == s
  {
  }

  /** Stripping ignores one extra leading whitespace character. */
  lemma TrimSkipsLeadingSpace(c: char, s: string)
    requires IsSpace(c)
    ensures Trim([c] + s) == Trim(s)
  {
    assert ([c] + s)[1..] == s;
  }

  /** Stripping ignores one extra trailing whitespace character. */
  lemma {:induction false} TrimSkipsTrailingSpace(s: string, c: char)
    requires IsSpace(c)
    ensures Trim(s + [c]) == Trim(s)
    decreases |s|
  {
    var t := s + [c];
    assert t[..|t| - 1] == s;
    if s != [] && IsSpace(s[0]) {
      assert t[1..] == s[1..] + [c];
      TrimSkipsTrailingSpace(s[1..], c);
    }
  }

  /** Everything in `s` before `i` and from `j` on is whitespace. */
  predicate OnlySpaceOutside(s: string, i: int, j: int)
    requires 0 <= i <= j <= |s|
  {
    (forall k :: 0 <= k < i ==> IsSpace(s[k])) && (forall k :: j <= k < |s| ==> IsSpace(s[k]))
  }

  /** A slice of `s[1..]` with only whitespace outside it, seen in `s` when `s[0]` is whitespace. */
  lemma InfixOfTail(s: string, i: int, j: int)
    requires s != [] && IsSpace(s[0])
    requires 0 <= i <= j <= |s| - 1 && OnlySpaceOutside(s[1..], i, j)
    ensures OnlySpaceOutside(s, i + 1, j + 1) && s[1..][i..j] == s[i + 1..j + 1]
  {
    assert forall k :: 0 < k < |s| ==> s[k] == s[1..][k - 1];
  }

  /** A slice of `s[..|s| - 1]` with only whitespace outside it, seen in `s` when `s`'s last character is whitespace. */
  lemma InfixOfInit(s: string, i: int, j: int)
    requires s != [] && IsSpace(s[|s| - 1])
    requires 0 <= i <= j <= |s| - 1 && OnlySpaceOutside(s[..|s| - 1], i, j)
    ensures OnlySpaceOutside(s, i, j) && s[..|s| - 1][i..j] == s[i..j]
  {
    assert forall k :: 0 <= k < |s| - 1 ==> s[k] == s[..|s| - 1][k];
  }

  /**
   * Stripping removes exactly the leading and the trailing whitespace: the
   * result is a slice `s[i..j]` with only whitespace outside it.
   */
  lemma {:induction false} TrimIsInfix(s: string)
    ensures exists i, j :: 0 <= i <= j <= |s| && OnlySpaceOutside(s, i, j) && Trim(s) == s[i..j]
    decreases |s|
  {
    if s != [] && IsSpace(s[0]) {
      TrimIsInfix(s[1..]);
      var i, j :| 0 <= i <= j <= |s| - 1 && OnlySpaceOutside(s[1..], i, j) && Trim(s[1..]) == s[1..][i..j];
      InfixOfTail(s, i, j);
    } else if s != [] && IsSpace(s[|s| - 1]) {
      TrimIsInfix(s[..|s| - 1]);
      var i, j :| 0 <= i <= j <= |s| - 1 && OnlySpaceOutside(s[..|s| - 1], i, j) && Trim(s[..|s| - 1]) == s[..|s| - 1][i..j];
      InfixOfInit(s, i, j);
    } else {
      assert Trim(s) == s[0..|s|];
      assert OnlySpaceOutside(s, 0, |s|);
    }
  }

  /** ASCII lower-casing of one character. */
  function LowerChar(c: char): (r: char)
  {
    if 'A' <= c <= 'Z' then (c as int - 'A' as int + 'a' as int) as char else c
  }

  /** Python's `s.lower()`, restricted to ASCII letters: the same length, character by character. */
  function Lower(s: string): (r: string)
    ensures |r| == |s|
    ensures forall k :: 0 <= k < |s| ==> r[k] == LowerChar(s[k])
  {
    if s == [] then [] else [LowerChar(s[0])] + Lower(s[1..])
  }

  /** Lower-casing twice is lower-casing once. */
  lemma LowerIdempotent(s: string)
    ensures Lower(Lower(s)) == Lower(s)
  {
  }

  /** Lower-casing and stripping commute: lower-casing neither makes nor unmakes whitespace. */
  lemma {:induction false} TrimLowerCommute(s: string)
    ensures Trim(Lower(s)) == Lower(Trim(s))
    decreases |s|
  {
    var l := Lower(s);
    if s != [] && IsSpace(s[0]) {
      assert l[1..] == Lower(s[1..]);
      TrimLowerCommute(s[1..]);
    } else if s != [] && IsSpace(s[|s| - 1]) {
      assert l[..|s| - 1] == Lower(s[..|s| - 1]);
      TrimLowerCommute(s[..|s| - 1]);
    }
  }

  /** Python's `s.split(sep)`: the pieces between consecutive separators; never empty. */
  function Split(s: string, sep: char): (r: seq<string>)
    ensures |r| >= 1
    ensures forall k :: 0 <= k < |r| ==> sep !in r[k]
    decreases |s|
  {
    match IndexOf(s, sep)
    case None => [s]
    case Some(i) => [s[..i]] + Split(s[i + 1..], sep)
  }

  /** Python's `sep.join(parts)`. */
  function Join(parts: seq<string>, sep: char): string
  {
    if parts == [] then []
    else if |parts| == 1 then parts[0]
    else parts[0] + [sep] + Join(parts[1..], sep)
  }

  /** Splitting loses nothing: joining the pieces with the separator gives back the string. */
  lemma {:induction false} JoinSplit(s: string, sep: char)
    ensures Join(Split(s, sep), sep) == s
    decreases |s|
  {
    match IndexOf(s, sep)
    case None =>
    case Some(i) =>
      var head, tail := s[..i], s[i + 1..];
      var rest := Split(tail, sep);
      assert Split(s, sep) == [head] + rest;
      JoinSplit(tail, sep);
      calc {
        Join([head] + rest, sep);
        { assert ([head] + rest)[1..] == rest; }
        head + [sep] + Join(rest, sep);
        head + [sep] + tail;
        { assert s[i] == sep; }
        s;
      }
  }

  /** The character for a decimal digit. */
  function DigitChar(d: nat): (c: char)
    requires d < 10
  {
    ('0' as int + d) as char
  }

  /** The number a string of decimal digits denotes, most significant digit first. */
  function DigitsValue(r: string): int
  {
    if r == [] then 0 else 10 * DigitsValue(r[..|r| - 1]) + (r[|r| - 1] as int - '0' as int)
  }

  /**
   * Python's `f'{n}'` for a natural number: decimal digits without a leading
   * zero that denote `n`.
   */
  function Decimal(n: nat): (r: string)
    ensures |r| >= 1
    ensures forall k :: 0 <= k < |r| ==> '0' <= r[k] <= '9'
    ensures |r| > 1 ==> r[0] != '0'
    ensures (n < 10) == (|r| == 1)
    ensures DigitsValue(r) == n
  {
    if n < 10 then
      assert [DigitChar(n)][..0] == [];
      [DigitChar(n)]
    else
      var r := Decimal(n / 10) + [DigitChar(n % 10)];
      assert r[..|r| - 1] == Decimal(n / 10);
      r
  }

  /** Different numbers render differently. */
  lemma DecimalInjective(a: nat, b: nat)
    requires Decimal(a) == Decimal(b)
    ensures a == b
  {
  }
}
