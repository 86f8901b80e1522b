/**
 * A project's name encodes its owning student and its title as
 * "<student>: <title>". This module parses and normalises such names as
 * migrate_from_csv does (database.py:95-103).
 */
module ProjectNames {
  import opened Seqs
  import opened Text

  datatype ParsedName = ParsedName(student: string, title: string)

  /**
   * Split at the first colon and strip both parts; without a colon the whole
   * stripped name is the student and the title is empty. The student part
   * lies before the first colon, so it never contains one.
   */
  function Parse(name: string): (p: ParsedName)
    ensures IsTrimmed(p.student) && IsTrimmed(p.title)
    ensures ':' !in p.student
    ensures ':' !in name ==> p == ParsedName(Trim(name), "")
  {
    match IndexOf(name, ':')
    case Some(i) => ParsedName(Trim(name[..i]), Trim(name[i + 1..]))
    case None => ParsedName(Trim(name), "")
  }

  /**
   * With a colon at position `i` and none before it, the student is the
   * stripped text before position `i` and the title the stripped text after
   * it, later colons included (`split(':', 1)`).
   */
  lemma ParseSplitsAtFirstColon(name: string, i: nat)
    requires i < |name| && name[i] == ':' && ':' !in name[..i]
    ensures Parse(name) == ParsedName(Trim(name[..i]), Trim(name[i + 1..]))
  {
    IndexOfIsFirst(name, ':', i);
  }

  /** The name re-joined in canonical form, `f'{student_name}: {project_title}'`. */
  function Normalize(name: string): string
  {
    var p := Parse(name);
    p.student + ": " + p.title
  }

  /** In `before + ":" + after` with a colon-free `before`, the first colon ends `before`. */
  lemma FirstColonAfter(before: string, after: string)
    requires ':' !in before
    ensures IndexOf(before + ":" + after, ':') == Some(|before|)
  {
    var n := before + ":" + after;
    assert n[..|before|] == before;
    IndexOfIsFirst(n, ':', |before|);
  }

  /** Parsing a canonical "<student>: <title>" string recovers exactly its two parts. */
  lemma {:induction false} ParseCanonical(student: string, title: string)
    requires IsTrimmed(student) && IsTrimmed(title) && ':' !in student
    ensures Parse(student + ": " + title) == ParsedName(student, title)
  {
    var n := student + ": " + title;
    var k := |student|;
    assert n == student + ":" + ([' '] + title);
    FirstColonAfter(student, [' '] + title);
    assert n[..k] == student;
    assert n[k + 1..] == [' '] + title;
    TrimFixesTrimmed(student);
    TrimFixesTrimmed(title);
    TrimSkipsLeadingSpace(' ', title);
  }

  /** Normalising keeps the parse: the round trip Parse(Normalize(n)) == Parse(n). */
  lemma {:induction false} ParseNormalize(name: string)
    ensures Parse(Normalize(name)) == Parse(name)
  {
    ParseCanonical(Parse(name).student, Parse(name).title);
  }

  /** Normalising an already-normalised name returns it unchanged. */
  lemma {:induction false} NormalizeIdempotent(name: string)
    ensures Normalize(Normalize(name)) == Normalize(name)
  {
    ParseNormalize(name);
  }
}
