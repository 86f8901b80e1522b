/** Generic sequence helpers shared by the parsing, import and migration models. */
module Seqs {

  datatype Option<+T> = None | Some(value: T)

  /** No element occurs twice. */
  predicate Distinct<T(==)>(s: seq<T>) {
    forall i, j :: 0 <= i < j < |s| ==> s[i] != s[j]
  }

  /** Position of the first occurrence of `x` in `s` (Python's `x in s` together with `s.index(x)`). */
  function IndexOf<T(==)>(s: seq<T>, x: T): (r: Option<nat>)
    ensures r.None? <==> x !in s
    ensures r.Some? ==> r.value < |s| && s[r.value] == x && x !in s[..r.value]
  {
    if s == [] then None
    else if s[0] == x then Some(0)
    else match IndexOf(s[1..], x)
      case None => None
      case Some(i) =>
        assert s[..i + 1] == [s[0]] + s[1..][..i];
        Some(i + 1)
  }

  /** Any position holding the first occurrence of `x` is the one IndexOf reports. */
  lemma IndexOfIsFirst<T>(s: seq<T>, x: T, k: nat)
    requires k < |s| && s[k] == x && x !in s[..k]
    ensures IndexOf(s, x) == Some(k)
  {
  }

  /** Appending an element does not move the first occurrence of one already present. */
  lemma IndexOfInPrefix<T>(s: seq<T>, y: T, x: T)
    requires x in s
    ensures IndexOf(s + [y], x) == IndexOf(s, x)
  {
    var k := IndexOf(s, x).value;
    assert (s + [y])[..k] == s[..k];
    IndexOfIsFirst(s + [y], x, k);
  }

  /**
   * The distinct elements of `s`, each kept at its first occurrence and in
   * the order of first occurrence (pandas `unique()` and
   * `drop_duplicates(keep='first')`).
   */
  function Dedup<T(==,!new)>(s: seq<T>): (r: seq<T>)
    ensures forall x :: x in r <==> x in s
    ensures Distinct(r)
    ensures |r| <= |s|
    decreases |s|
  {
    if s == [] then []
    else
      var init, last := s[..|s| - 1], s[|s| - 1];
      assert s == init + [last];
      if last in init then Dedup(init) else Dedup(init) + [last]
  }

  /** Dedup lists the elements in the order in which they first occur in the input. */
  lemma {:induction false} DedupFirstOccurrenceOrder<T(!new)>(s: seq<T>, i: nat, j: nat)
    requires i < j < |Dedup(s)|
    ensures Dedup(s)[i] in s && Dedup(s)[j] in s
    ensures IndexOf(s, Dedup(s)[i]).value < IndexOf(s, Dedup(s)[j]).value
    decreases |s|
  {
    var init, last := s[..|s| - 1], s[|s| - 1];
    assert s == init + [last];
    var d := Dedup(init);
    var x, y := Dedup(s)[i], Dedup(s)[j];
    if last in init || j < |d| {
      assert x == d[i] && y == d[j];
      DedupFirstOccurrenceOrder(init, i, j);
      IndexOfInPrefix(init, last, x);
      IndexOfInPrefix(init, last, y);
    } else {
      assert y == last && x == d[i] && x in init;
      IndexOfInPrefix(init, last, x);
      assert s[..|s| - 1] == init;
      IndexOfIsFirst(s, last, |s| - 1);
    }
  }

  /** The values of the present entries of `s`, in order (pandas `dropna()` on a column). */
  function Present<T(==,!new)>(s: seq<Option<T>>): (r: seq<T>)
    ensures forall x :: x in r <==> Some(x) in s
    decreases |s|
  {
    if s == [] then []
    else
      var init, last := s[..|s| - 1], s[|s| - 1];
      assert s == init + [last];
      if last.Some? then Present(init) + [last.value] else Present(init)
  }

  /**
   * Present keeps the order of the input: of two present values, the one
   * that comes first in the result also first occurs first in the input.
   */
  lemma {:induction false} PresentFirstOccurrenceOrder<T(!new)>(s: seq<Option<T>>, x: T, y: T)
    requires x in Present(s) && y in Present(s)
    requires IndexOf(Present(s), x).value < IndexOf(Present(s), y).value
    ensures Some(x) in s && Some(y) in s
    ensures IndexOf(s, Some(x)).value < IndexOf(s, Some(y)).value
    decreases |s|
  {
    var init, last := s[..|s| - 1], s[|s| - 1];
    assert s == init + [last];
    var p := Present(init);
    if Some(x) in init && Some(y) in init {
      if last.Some? {
        IndexOfInPrefix(p, last.value, x);
        IndexOfInPrefix(p, last.value, y);
      }
      PresentFirstOccurrenceOrder(init, x, y);
      IndexOfInPrefix(init, last, Some(x));
      IndexOfInPrefix(init, last, Some(y));
    } else if Some(y) !in init {
      assert last == Some(y) && Some(x) in init;
      IndexOfInPrefix(init, last, Some(x));
      IndexOfIsFirst(s, last, |s| - 1);
    }
  }
}
