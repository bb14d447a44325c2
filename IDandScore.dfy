/**
 * A document id paired with its score, ordered so that higher scores sort first.
 * Both fields are set once, by the constructor, which the datatype constructor
 * `IDandScore(id, score)` models: it stores both arguments unchanged.
 */
module IDandScores {

  datatype IDandScore = IDandScore(id: string, score: real)

  /** Float.compareTo on two (non-NaN) scores: -1, 0 or 1. */
  function CompareScores(a: real, b: real): (c: int)
    ensures c == -1 || c == 0 || c == 1
    ensures c < 0 <==> a < b
    ensures c == 0 <==> a == b
    ensures c > 0 <==> a > b
  {
    if a < b then -1 else if a > b then 1 else 0
  }

  /** IDandScore.compareTo: the reversed score comparison ("sorts in reverse order"). */
  function CompareTo(x: IDandScore, other: IDandScore): (c: int)
    ensures c == -1 || c == 0 || c == 1
    ensures c < 0 <==> x.score > other.score
    ensures c == 0 <==> x.score == other.score
    ensures c > 0 <==> x.score < other.score
  {
    (-1) * CompareScores(x.score, other.score)
  }

  /** Swapping the arguments flips the sign. */
  lemma CompareToAntisymmetric(a: IDandScore, b: IDandScore)
    ensures CompareTo(a, b) == -CompareTo(b, a)
  {
  }

  /** The order looks only at the scores, never at the ids. */
  lemma CompareToIgnoresId(a: IDandScore, b: IDandScore, idA: string, idB: string)
    ensures CompareTo(a, b) == CompareTo(a.(id := idA), b.(id := idB))
  {
  }

  /** "Sorts no later than" is transitive, so a comparator sort is well defined. */
  lemma CompareToTransitive(a: IDandScore, b: IDandScore, c: IDandScore)
    requires CompareTo(a, b) <= 0 && CompareTo(b, c) <= 0
    ensures CompareTo(a, c) <= 0
  {
  }

  /** A ranking in the order the comparator sorts into: scores never increase. */
  ghost predicate SortedDescending(s: seq<IDandScore>) {
    forall i, j :: 0 <= i < j < |s| ==> s[i].score >= s[j].score
  }

  /** Sorted means that no entry compares as greater than the one after it. */
  lemma SortedByCompareTo(s: seq<IDandScore>)
    ensures SortedDescending(s) <==> forall i, j :: 0 <= i < j < |s| ==> CompareTo(s[i], s[j]) <= 0
  {
  }
}
