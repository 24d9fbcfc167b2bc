/** The sole entity of the system (internal/core/domain/character.go) and the
    case folding that the store's name lookup is defined by. */
module Domain {

  /** An abstract clock reading; the database's NOW() is passed in as one. */
  type Timestamp = int

  /** Go's zero `time.Time`, carried by a record that was built in memory and
      never read back from the database. */
  const ZeroTime: Timestamp := 0

  datatype Character = Character(
    id: string,
    name: string,
    ki: string,
    race: string,
    createdAt: Timestamp,
    updatedAt: Timestamp)

  /** ASCII lower-casing of one character. */
  function Lower(ch: char): char
  {
    if 'A' <= ch <= 'Z' then (ch as int + ('a' as int - 'A' as int)) as char else ch
  }

  /** Lower-cases every character of `s`. */
  function FoldCase(s: string): string
  {
    if s == [] then [] else [Lower(s[0])] + FoldCase(s[1..])
  }

  /** Equality up to (ASCII) case. */
  predicate EqualFold(a: string, b: string)
  {
    FoldCase(a) == FoldCase(b)
  }

  /** Folding keeps the length and folds each character on its own. */
  lemma {:induction false} FoldCaseAt(s: string)
    ensures |FoldCase(s)| == |s|
    ensures forall i :: 0 <= i < |s| ==> FoldCase(s)[i] == Lower(s[i])
  {
    if s != [] {
      FoldCaseAt(s[1..]);
      assert forall i :: 1 <= i < |s| ==> FoldCase(s)[i] == FoldCase(s[1..])[i - 1];
    }
  }

  /** Two names are equal up to case exactly when they have the same length
      and agree character by character once lower-cased. */
  lemma EqualFoldPointwise(a: string, b: string)
    ensures EqualFold(a, b) <==>
      |a| == |b| && forall i :: 0 <= i < |a| ==> Lower(a[i]) == Lower(b[i])
  {
    FoldCaseAt(a);
    FoldCaseAt(b);
    if |a| == |b| && forall i :: 0 <= i < |a| ==> Lower(a[i]) == Lower(b[i]) {
      assert forall i :: 0 <= i < |a| ==> FoldCase(a)[i] == FoldCase(b)[i];
    }
  }
}
