/**
 * The string matching behind the repositories' search queries, which keep
 * a row when `LOWER(column) LIKE LOWER(CONCAT('%', :term, '%'))`: the
 * lower-cased term occurs somewhere in the lower-cased column.
 */
module Text {

  /** SQL `LOWER` on one character; only ASCII letters are folded. */
  function LowerChar(c: char): char
  {
    if 'A' <= c <= 'Z' then (c as int + 32) as char else c
  }

  function Lower(s: string): (r: string)
    ensures |r| == |s|
    ensures forall i :: 0 <= i < |s| ==> r[i] == LowerChar(s[i])
  {
    if s == [] then [] else [LowerChar(s[0])] + Lower(s[1..])
  }

  /** `part` occurs in `s` starting at index `i`. */
  predicate OccursAt(s: string, part: string, i: int)
  {
    0 <= i && i + |part| <= |s| && s[i..i + |part|] == part
  }

  /** `s LIKE CONCAT('%', part, '%')` for a `part` without wildcards. */
  predicate Contains(s: string, part: string)
  {
    exists i :: 0 <= i <= |s| && OccursAt(s, part, i)
  }

  /** The condition of every `getByNameIgnoringCase` query. */
  predicate ContainsIgnoringCase(s: string, term: string)
  {
    Contains(Lower(s), Lower(term))
  }

  lemma LowerIdempotent(s: string)
    ensures Lower(Lower(s)) == Lower(s)
  {
    assert forall i :: 0 <= i < |s| ==> Lower(Lower(s))[i] == Lower(s)[i];
  }

  /** The case in which the term is written does not matter. */
  lemma TermCaseIrrelevant(s: string, term: string)
    ensures ContainsIgnoringCase(s, term) == ContainsIgnoringCase(s, Lower(term))
  {
    LowerIdempotent(term);
  }

  /** An empty term (`LIKE '%%'`) keeps every row. */
  lemma EmptyTermMatches(s: string)
    ensures ContainsIgnoringCase(s, "")
  {
    assert OccursAt(Lower(s), Lower(""), 0);
  }

  /** A row is found by its own value, and by any piece of it. */
  lemma PieceMatches(s: string, i: nat, j: nat)
    requires i <= j <= |s|
    ensures ContainsIgnoringCase(s, s[i..j])
  {
    var piece := Lower(s[i..j]);
    assert Lower(s)[i..j] == piece;
    assert OccursAt(Lower(s), piece, i);
  }
}
