/**
 * The values the Lucene searcher hands back, which the core only reads: a hit
 * (internal document number and score) and a collector's outcome.
 */
module Hits {

  /** ScoreDoc: Lucene's internal document number and the hit's score. */
  datatype ScoreDoc = ScoreDoc(doc: nat, score: real)

  /** A TopScoreDocCollector after a search: getTotalHits() and topDocs().scoreDocs. */
  datatype Collected = Collected(totalHits: nat, scoreDocs: seq<ScoreDoc>)

  /** NUM_HITS: the collector size used for every search. */
  const NumHits: nat := 1000

  /** A collector keeps the best min(totalHits, NUM_HITS) hits. */
  predicate Consistent(c: Collected) {
    |c.scoreDocs| == if c.totalHits < NumHits then c.totalHits else NumHits
  }
}
