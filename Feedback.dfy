/**
 * evaluateQueryWithRelevanceFeedback: Rocchio-style query expansion. The query
 * terms are seeded into a term-to-weight table; for each of the first
 * min(20, n) hits, the term frequencies of hit i are added (scaled by the
 * relevant coefficient) and those of hit n-1-i subtracted (scaled by the
 * irrelevant coefficient); each weight is cast to an int repetition count; the
 * terms, repeated, form a new query string, which is searched again.
 *
 * The index, its term vectors and the searcher are not modelled: the term
 * vector lookup is the function `tf` (`None` for an IOException) and the
 * re-search is the function `search` (`None` for a ParseException).
 */
module RelevanceFeedback {
  import opened Wrappers
  import opened JavaStrings
  import opened Hits

  /** originalQueryCoefficient, relevantQueryCoefficient and irrelevantQueryCoefficient. */
  datatype Coefficients = Coefficients(original: real, relevant: real, irrelevant: real)

  /** The coefficients the source sets: 1.00, 5.50 and 0.00. */
  const DefaultCoefficients: Coefficients := Coefficients(1.0, 5.5, 0.0)

  /** RELEVANT_DOCUMENTS_CONSIDERED: the bound on the iterations and the divisor of every update. */
  const RelevantDocumentsConsidered: nat := 20

  /** queryTermMap: term text to weight. */
  type Weights = map<string, real>

  /** A term vector as getTermFrequencies returns it: term text to frequency. */
  type Frequencies = map<string, nat>

  /** After a ParseException `newCollector` stays null and getTotalHits throws. */
  datatype FeedbackError = NullCollector

  // ---------------------------------------------------------------------------
  // The weight table

  /** The table after the seeding loop: each query term at originalQueryCoefficient. */
  function Seed(queryTerms: set<string>, c: Coefficients): (w: Weights)
    ensures w.Keys == queryTerms
    ensures forall t :: t in w ==> w[t] == c.original
  {
    map t | t in queryTerms :: c.original * 1.0
  }

  /** One update: coefficient × freq / RELEVANT_DOCUMENTS_CONSIDERED. */
  function Update(coefficient: real, freq: nat): real {
    coefficient * (freq as real / RelevantDocumentsConsidered as real)
  }

  /**
   * The table after one pass over a term vector: every term of `freqs` moves
   * by Update(scale, freq), a term not yet in the table starting from 0.0.
   */
  function Shifted(weights: Weights, freqs: Frequencies, scale: real): (r: Weights)
    ensures forall k :: k in weights && k !in freqs ==> k in r && r[k] == weights[k]
  {
    map k | k in weights.Keys + freqs.Keys ::
      (if k in weights then weights[k] else 0.0) + (if k in freqs then Update(scale, freqs[k]) else 0.0)
  }

  /** The part of `freqs` whose keys are no longer pending. */
  function Visited(freqs: Frequencies, pending: set<string>): Frequencies {
    map k | k in freqs && k !in pending :: freqs[k]
  }

  /**
   * One of the two inner loops: for each key of the term vector (in HashMap
   * order), put 0.0 if the key is missing, then add (relevant) or subtract
   * (non-relevant) coefficient × freq / 20.
   */
  method AddFrequencies(weights: Weights, freqs: Frequencies, coefficient: real, relevant: bool)
    returns (updated: Weights)
    ensures updated == Shifted(weights, freqs, if relevant then coefficient else -coefficient)
  {
    var scale := if relevant then coefficient else -coefficient;
    updated := weights;
    var pending := freqs.Keys;
    assert Visited(freqs, pending) == map[];
    assert Shifted(weights, map[], scale) == weights;
    while pending != {}
      invariant pending <= freqs.Keys
      invariant updated == Shifted(weights, Visited(freqs, pending), scale)
      decreases pending
    {
      var key :| key in pending;
      ghost var before := updated;
      if key !in updated {
        updated := updated[key := 0.0];
      }
      var change := coefficient * (freqs[key] as real / RelevantDocumentsConsidered as real);
      if relevant {
        updated := updated[key := updated[key] + change];
      } else {
        updated := updated[key := updated[key] - change];
      }
      assert change == Update(coefficient, freqs[key]);
      assert (if relevant then change else -change) == Update(scale, freqs[key]);
      assert updated == before[key := (if key in before then before[key] else 0.0) + Update(scale, freqs[key])];
      VisitOne(weights, freqs, pending, key, scale);
      pending := pending - {key};
    }
    assert Visited(freqs, {}) == freqs;
  }

  /** Visiting one more key changes the shifted table at that key only. */
  lemma VisitOne(weights: Weights, freqs: Frequencies, pending: set<string>, key: string, scale: real)
    requires key in pending && pending <= freqs.Keys
    ensures var before := Shifted(weights, Visited(freqs, pending), scale);
      Shifted(weights, Visited(freqs, pending - {key}), scale) ==
        before[key := (if key in before then before[key] else 0.0) + Update(scale, freqs[key])]
  {
    var before := Shifted(weights, Visited(freqs, pending), scale);
    var after := Shifted(weights, Visited(freqs, pending - {key}), scale);
    assert Visited(freqs, pending - {key}) == Visited(freqs, pending)[key := freqs[key]];
    assert key in before ==> before[key] == (if key in weights then weights[key] else 0.0);
  }

  /** Terms already in the table are kept; the terms of the vector are inserted. */
  lemma ShiftedKeys(weights: Weights, freqs: Frequencies, scale: real)
    ensures Shifted(weights, freqs, scale).Keys == weights.Keys + freqs.Keys
  {
  }

  /** A non-negative scale never lowers a weight, and a new term starts at 0.0 before its update. */
  lemma ShiftedGrows(weights: Weights, freqs: Frequencies, scale: real)
    requires scale >= 0.0
    ensures var s := Shifted(weights, freqs, scale);
      (forall k :: k in weights ==> s[k] >= weights[k]) &&
      (forall k :: k in s && k !in weights ==> s[k] >= 0.0)
  {
  }

  /**
   * With an irrelevant coefficient of 0.00, as the source sets it, a
   * non-relevant term vector only inserts its new terms, at 0.0.
   */
  lemma ZeroIrrelevantOnlyInserts(weights: Weights, freqs: Frequencies, c: Coefficients)
    requires c.irrelevant == 0.0
    ensures var s := Shifted(weights, freqs, -c.irrelevant);
      (forall k :: k in weights ==> s[k] == weights[k]) &&
      (forall k :: k in s && k !in weights ==> s[k] == 0.0)
  {
  }

  // ---------------------------------------------------------------------------
  // The feedback loop

  /**
   * Iteration i: hit i is taken as relevant and hit n-1-i as non-relevant (the
   * same hit when they meet). Both term vectors are read before any update, so
   * an IOException from either skips the whole iteration.
   */
  function Round(weights: Weights, hits: seq<ScoreDoc>, i: nat, tf: nat -> Option<Frequencies>, c: Coefficients)
    : Weights
    requires i < |hits|
  {
    var goodHit := hits[i];
    var badHit := hits[|hits| - i - 1];
    match tf(goodHit.doc)
    case None => weights
    case Some(relevantVector) =>
      match tf(badHit.doc)
      case None => weights
      case Some(notRelevantVector) =>
        Shifted(Shifted(weights, relevantVector, c.relevant), notRelevantVector, -c.irrelevant)
  }

  /** An IOException on either term vector leaves the table exactly as it was. */
  lemma RoundSkipsOnIOException(weights: Weights, hits: seq<ScoreDoc>, i: nat, tf: nat -> Option<Frequencies>,
                                c: Coefficients)
    requires i < |hits|
    requires tf(hits[i].doc).None? || tf(hits[|hits| - i - 1].doc).None?
    ensures Round(weights, hits, i, tf, c) == weights
  {
  }

  /** The number of iterations: min(RELEVANT_DOCUMENTS_CONSIDERED, number of hits). */
  function FeedbackLimit(hits: seq<ScoreDoc>): (n: nat)
    ensures n <= |hits| && n <= RelevantDocumentsConsidered
    ensures n == |hits| || n == RelevantDocumentsConsidered
  {
    if RelevantDocumentsConsidered < |hits| then RelevantDocumentsConsidered else |hits|
  }

  /** The table after the first n iterations. */
  function Accumulate(seed: Weights, hits: seq<ScoreDoc>, n: nat, tf: nat -> Option<Frequencies>, c: Coefficients)
    : Weights
    requires n <= |hits|
  {
    if n == 0 then seed else Round(Accumulate(seed, hits, n - 1, tf, c), hits, n - 1, tf, c)
  }

  /** The table the query string is rebuilt from. */
  function FinalWeights(queryTerms: set<string>, hits: seq<ScoreDoc>, tf: nat -> Option<Frequencies>, c: Coefficients)
    : (w: Weights)
    ensures queryTerms <= w.Keys
  {
    AccumulateKeepsSeed(Seed(queryTerms, c), hits, FeedbackLimit(hits), tf, c);
    Accumulate(Seed(queryTerms, c), hits, FeedbackLimit(hits), tf, c)
  }

  /** Iteration i reads both term vectors successfully and `k` is a term of one of them. */
  predicate Contributes(hits: seq<ScoreDoc>, i: nat, tf: nat -> Option<Frequencies>, k: string)
    requires i < |hits|
  {
    tf(hits[i].doc).Some? && tf(hits[|hits| - i - 1].doc).Some? &&
    (k in tf(hits[i].doc).value || k in tf(hits[|hits| - i - 1].doc).value)
  }

  /**
   * Terms are never removed: the table holds exactly the seeded terms and the
   * terms of the vectors read in the completed iterations.
   */
  lemma {:induction false} AccumulateKeys(seed: Weights, hits: seq<ScoreDoc>, n: nat,
                                          tf: nat -> Option<Frequencies>, c: Coefficients, k: string)
    requires n <= |hits|
    ensures k in Accumulate(seed, hits, n, tf, c) <==>
      k in seed || exists i :: 0 <= i < n && Contributes(hits, i, tf, k)
  {
    if n > 0 {
      AccumulateKeys(seed, hits, n - 1, tf, c, k);
      var w := Accumulate(seed, hits, n - 1, tf, c);
      var good, bad := tf(hits[n - 1].doc), tf(hits[|hits| - n].doc);
      if good.Some? && bad.Some? {
        ShiftedKeys(w, good.value, c.relevant);
        ShiftedKeys(Shifted(w, good.value, c.relevant), bad.value, -c.irrelevant);
      }
      if Contributes(hits, n - 1, tf, k) {
        assert k in Accumulate(seed, hits, n, tf, c);
      }
    }
  }

  /** No iteration removes a term, so every seeded term is still in the table. */
  lemma AccumulateKeepsSeed(seed: Weights, hits: seq<ScoreDoc>, n: nat, tf: nat -> Option<Frequencies>, c: Coefficients)
    requires n <= |hits|
    ensures seed.Keys <= Accumulate(seed, hits, n, tf, c).Keys
  {
    forall k | k in seed
      ensures k in Accumulate(seed, hits, n, tf, c)
    {
      AccumulateKeys(seed, hits, n, tf, c, k);
    }
  }

  /**
   * With a non-negative relevant and a non-positive irrelevant coefficient no
   * weight ever falls below its seeded value: terms already present are never
   * reset.
   */
  lemma {:induction false} AccumulateGrows(seed: Weights, hits: seq<ScoreDoc>, n: nat,
                                           tf: nat -> Option<Frequencies>, c: Coefficients)
    requires n <= |hits|
    requires c.relevant >= 0.0 && c.irrelevant <= 0.0
    ensures var w := Accumulate(seed, hits, n, tf, c);
      forall k :: k in seed ==> k in w && w[k] >= seed[k]
  {
    if n > 0 {
      AccumulateGrows(seed, hits, n - 1, tf, c);
      var w := Accumulate(seed, hits, n - 1, tf, c);
      assert Accumulate(seed, hits, n, tf, c) == Round(w, hits, n - 1, tf, c);
      RoundGrows(w, hits, n - 1, tf, c);
    }
  }

  /** One iteration with those coefficient signs keeps every term and never lowers its weight. */
  lemma RoundGrows(w: Weights, hits: seq<ScoreDoc>, i: nat, tf: nat -> Option<Frequencies>, c: Coefficients)
    requires i < |hits|
    requires c.relevant >= 0.0 && c.irrelevant <= 0.0
    ensures var r := Round(w, hits, i, tf, c);
      forall k :: k in w ==> k in r && r[k] >= w[k]
  {
    var good, bad := tf(hits[i].doc), tf(hits[|hits| - i - 1].doc);
    if good.Some? && bad.Some? {
      var once := Shifted(w, good.value, c.relevant);
      ShiftedGrows(w, good.value, c.relevant);
      ShiftedGrows(once, bad.value, -c.irrelevant);
      assert Round(w, hits, i, tf, c) == Shifted(once, bad.value, -c.irrelevant);
    }
  }

  // ---------------------------------------------------------------------------
  // Truncation and the rebuilt query

  /** Java's (int) cast of a double: toward zero, saturating at the int range (NaN aside). */
  function DoubleToInt(x: real): (n: int)
    ensures IsInt32(n)
    ensures 0.0 <= x < IntMax as real + 1.0 ==> 0 <= n && n as real <= x < n as real + 1.0
    ensures x >= IntMax as real ==> n == IntMax
    ensures IntMin as real < x < 0.0 ==> n <= 0 && n as real - 1.0 < x <= n as real
    ensures x <= IntMin as real ==> n == IntMin
  {
    if x >= IntMax as real then IntMax
    else if x <= IntMin as real then IntMin
    else if x >= 0.0 then x.Floor
    else -((-x).Floor)
  }

  /** (int) Double.max(0, w): how many times a term with weight w is repeated. */
  function Repetitions(w: real): (n: nat)
    ensures n == 0 <==> w < 1.0
    ensures w >= 1.0 ==> n as real <= w
    ensures w < IntMax as real ==> w < n as real + 1.0
  {
    DoubleToInt(if 0.0 >= w then 0.0 else w)
  }

  /** `s` written n times. */
  function Repeat(s: string, n: nat): (r: string)
    ensures |r| == n * |s|
  {
    if n == 0 then "" else Repeat(s, n - 1) + s
  }

  /** `order` lists the keys of the table, each exactly once: one HashMap iteration order. */
  predicate IsOrdering(order: seq<string>, keys: set<string>) {
    (forall i, j :: 0 <= i < j < |order| ==> order[i] != order[j]) &&
    (forall i :: 0 <= i < |order| ==> order[i] in keys) &&
    (forall k :: k in keys ==> k in order)
  }

  /** The rebuilt query string when the keys are visited in `order`. */
  function QueryText(order: seq<string>, weights: Weights): (text: string)
    requires forall i :: 0 <= i < |order| ==> order[i] in weights
    ensures text == "" <==> forall i :: 0 <= i < |order| ==> Repetitions(weights[order[i]]) == 0
  {
    if order == [] then ""
    else
      var key := order[|order| - 1];
      QueryText(order[..|order| - 1], weights) + Repeat(key + " ", Repetitions(weights[key]))
  }

  /**
   * The rebuilding loops: for each key (in HashMap order) the key and a space,
   * (int) max(0, weight) times over.
   */
  method RebuildQuery(queryTermMap: Weights) returns (queryString: string)
    ensures exists order :: IsOrdering(order, queryTermMap.Keys) && queryString == QueryText(order, queryTermMap)
  {
    queryString := "";
    ghost var order := [];
    var remaining := queryTermMap.Keys;
    while remaining != {}
      invariant remaining <= queryTermMap.Keys
      invariant forall i, j :: 0 <= i < j < |order| ==> order[i] != order[j]
      invariant forall i :: 0 <= i < |order| ==> order[i] in queryTermMap && order[i] !in remaining
      invariant forall k :: k in queryTermMap && k !in remaining ==> k in order
      invariant queryString == QueryText(order, queryTermMap)
      decreases remaining
    {
      var key :| key in remaining;
      var frequency := DoubleToInt(if 0.0 >= queryTermMap[key] then 0.0 else queryTermMap[key]);
      ghost var before := queryString;
      var i := 0;
      while i < frequency
        invariant 0 <= i <= frequency
        invariant queryString == before + Repeat(key + " ", i)
      {
        queryString := queryString + key + " ";
        i := i + 1;
      }
      order := order + [key];
      remaining := remaining - {key};
    }
    assert IsOrdering(order, queryTermMap.Keys);
  }

  /** `s` as a list of n words. */
  function Copies(s: string, n: nat): seq<string> {
    if n == 0 then [] else Copies(s, n - 1) + [s]
  }

  /** The words of the rebuilt query, in order. */
  function Words(order: seq<string>, weights: Weights): seq<string>
    requires forall i :: 0 <= i < |order| ==> order[i] in weights
  {
    if order == [] then []
    else
      var key := order[|order| - 1];
      Words(order[..|order| - 1], weights) + Copies(key, Repetitions(weights[key]))
  }

  /** Each word followed by one space. */
  function Spaced(words: seq<string>): string {
    if words == [] then "" else words[0] + " " + Spaced(words[1..])
  }

  lemma {:induction false} SpacedAppend(a: seq<string>, b: seq<string>)
    ensures Spaced(a + b) == Spaced(a) + Spaced(b)
    decreases |a|
  {
    if a != [] {
      SpacedAppend(a[1..], b);
      assert (a + b)[1..] == a[1..] + b;
    } else {
      assert a + b == b;
    }
  }

  lemma {:induction false} SpacedCopies(s: string, n: nat)
    ensures Spaced(Copies(s, n)) == Repeat(s + " ", n)
  {
    if n > 0 {
      SpacedCopies(s, n - 1);
      SpacedAppend(Copies(s, n - 1), [s]);
      assert Spaced([s]) == s + " " + "";
    }
  }

  lemma {:induction false} QueryTextSpaced(order: seq<string>, weights: Weights)
    requires forall i :: 0 <= i < |order| ==> order[i] in weights
    ensures QueryText(order, weights) == Spaced(Words(order, weights))
  {
    if order != [] {
      var key := order[|order| - 1];
      var init := order[..|order| - 1];
      QueryTextSpaced(init, weights);
      SpacedAppend(Words(init, weights), Copies(key, Repetitions(weights[key])));
      SpacedCopies(key, Repetitions(weights[key]));
    }
  }

  /** Splitting spaced words on spaces gives the words back, then the empty piece after the last space. */
  lemma {:induction false} SplitSpaced(words: seq<string>)
    requires forall i :: 0 <= i < |words| ==> ' ' !in words[i]
    ensures SplitAll(Spaced(words), ' ') == words + [""]
    decreases |words|
  {
    if words != [] {
      var rest := Spaced(words[1..]);
      SplitSpaced(words[1..]);
      assert Spaced(words) == words[0] + [' '] + rest;
      SplitAllPiece(words[0], rest, ' ');
      assert words == [words[0]] + words[1..];
    }
  }

  lemma {:induction false} CopiesCount(s: string, n: nat, k: string)
    ensures multiset(Copies(s, n))[k] == if k == s then n else 0
    ensures forall i :: 0 <= i < |Copies(s, n)| ==> Copies(s, n)[i] == s
  {
    if n > 0 {
      CopiesCount(s, n - 1, k);
    }
  }

  lemma {:induction false} WordsCount(order: seq<string>, weights: Weights, k: string)
    requires forall i :: 0 <= i < |order| ==> order[i] in weights
    requires forall i, j :: 0 <= i < j < |order| ==> order[i] != order[j]
    ensures multiset(Words(order, weights))[k] == if k in order then Repetitions(weights[k]) else 0
    ensures forall i :: 0 <= i < |Words(order, weights)| ==> Words(order, weights)[i] in order
  {
    if order != [] {
      var key := order[|order| - 1];
      var init := order[..|order| - 1];
      WordsCount(init, weights, k);
      CopiesCount(key, Repetitions(weights[key]), k);
      assert k in order <==> k in init || k == key;
      assert key !in init;
      var w := Words(order, weights);
      forall i | 0 <= i < |w|
        ensures w[i] in order
      {
        if i < |Words(init, weights)| {
          assert w[i] == Words(init, weights)[i];
        } else {
          assert w[i] == Copies(key, Repetitions(weights[key]))[i - |Words(init, weights)|];
        }
      }
    }
  }

  /**
   * Split on spaces, the rebuilt query string is its words followed by one
   * empty piece; each term of the table occurs among the words exactly
   * (int) max(0, weight) times, and nothing else does.
   */
  lemma RebuiltQueryWords(order: seq<string>, weights: Weights)
    requires IsOrdering(order, weights.Keys)
    requires forall k :: k in weights ==> ' ' !in k
    ensures SplitAll(QueryText(order, weights), ' ') == Words(order, weights) + [""]
    ensures forall k :: k in weights ==> multiset(Words(order, weights))[k] == Repetitions(weights[k])
    ensures forall i :: 0 <= i < |Words(order, weights)| ==> Words(order, weights)[i] in weights
  {
    QueryTextSpaced(order, weights);
    forall k | k in weights
      ensures multiset(Words(order, weights))[k] == Repetitions(weights[k])
    {
      WordsCount(order, weights, k);
    }
    WordsCount(order, weights, "");
    SplitSpaced(Words(order, weights));
  }

  /**
   * With the coefficients the source sets, every query term keeps a weight of
   * at least 1.0 and so appears at least once in the rebuilt query.
   */
  lemma DefaultKeepsQueryTerms(queryTerms: set<string>, hits: seq<ScoreDoc>, tf: nat -> Option<Frequencies>)
    ensures var w := FinalWeights(queryTerms, hits, tf, DefaultCoefficients);
      forall t :: t in queryTerms ==> t in w && Repetitions(w[t]) >= 1
  {
    var seed := Seed(queryTerms, DefaultCoefficients);
    AccumulateGrows(seed, hits, FeedbackLimit(hits), tf, DefaultCoefficients);
    var w := FinalWeights(queryTerms, hits, tf, DefaultCoefficients);
    assert w == Accumulate(seed, hits, FeedbackLimit(hits), tf, DefaultCoefficients);
    forall t | t in queryTerms
      ensures t in w && Repetitions(w[t]) >= 1
    {
      assert seed[t] == 1.0;
    }
  }

  // ---------------------------------------------------------------------------
  // The re-query

  /**
   * What the method returns: the new hits when the new collector reports more
   * than 0 hits, otherwise the second topDocs() of the original collector.
   */
  function Fallback(newCollector: Option<Collected>, secondTopDocs: seq<ScoreDoc>)
    : (r: Result<seq<ScoreDoc>, FeedbackError>)
    ensures r.Failure? ==> r.error == NullCollector
    ensures r.Success? ==> newCollector.Some? && (r.value == secondTopDocs || r.value == newCollector.value.scoreDocs)
  {
    match newCollector
    case None => Failure(NullCollector)
    case Some(collected) =>
      if collected.totalHits > 0 then Success(collected.scoreDocs) else Success(secondTopDocs)
  }

  /**
   * A search that parsed never fails; for a consistent collector the result
   * is empty only if the re-query found nothing and the fallback is empty,
   * and it never exceeds NUM_HITS entries unless it is the fallback.
   */
  lemma FallbackResult(newCollector: Option<Collected>, secondTopDocs: seq<ScoreDoc>)
    ensures Fallback(newCollector, secondTopDocs).Failure? <==> newCollector.None?
    ensures newCollector.Some? && Consistent(newCollector.value) ==>
      var r := Fallback(newCollector, secondTopDocs).value;
      (|r| == 0 <==> newCollector.value.totalHits == 0 && |secondTopDocs| == 0) &&
      (newCollector.value.totalHits > 0 ==> r == newCollector.value.scoreDocs && |r| <= NumHits) &&
      (newCollector.value.totalHits == 0 ==> r == secondTopDocs)
  {
  }

  /**
   * evaluateQueryWithRelevanceFeedback. `firstResults` are the original hits,
   * `secondTopDocs` what the original collector's second topDocs() returns.
   */
  method EvaluateWithRelevanceFeedback(queryTerms: set<string>, firstResults: seq<ScoreDoc>,
                                       secondTopDocs: seq<ScoreDoc>, tf: nat -> Option<Frequencies>,
                                       search: string -> Option<Collected>, c: Coefficients)
    returns (r: Result<seq<ScoreDoc>, FeedbackError>)
    ensures exists order ::
              IsOrdering(order, FinalWeights(queryTerms, firstResults, tf, c).Keys) &&
              r == Fallback(search(QueryText(order, FinalWeights(queryTerms, firstResults, tf, c))), secondTopDocs)
  {
    var queryTermMap: Weights := map[];
    var remaining := queryTerms;
    assert Seed(queryTerms - remaining, c) == map[];
    while remaining != {}
      invariant remaining <= queryTerms
      invariant queryTermMap == Seed(queryTerms - remaining, c)
      decreases remaining
    {
      var t :| t in remaining;
      queryTermMap := queryTermMap[t := c.original * 1.0];
      assert queryTerms - (remaining - {t}) == (queryTerms - remaining) + {t};
      remaining := remaining - {t};
    }
    assert queryTerms - remaining == queryTerms;
    ghost var seed := queryTermMap;

    var limit := if RelevantDocumentsConsidered < |firstResults| then RelevantDocumentsConsidered else |firstResults|;
    for i := 0 to limit
      invariant queryTermMap == Accumulate(seed, firstResults, i, tf, c)
    {
      var goodHit := firstResults[i];
      var badHit := firstResults[|firstResults| - i - 1];
      var relevantVector := tf(goodHit.doc);
      var notRelevantVector := tf(badHit.doc);
      if relevantVector.Some? && notRelevantVector.Some? {
        queryTermMap := AddFrequencies(queryTermMap, relevantVector.value, c.relevant, true);
        queryTermMap := AddFrequencies(queryTermMap, notRelevantVector.value, c.irrelevant, false);
      }
    }

    var queryString := RebuildQuery(queryTermMap);
    ghost var order :| IsOrdering(order, queryTermMap.Keys) && queryString == QueryText(order, queryTermMap);
    var newCollector := search(queryString);
    if newCollector.None? {
      r := Failure(NullCollector);
    } else if newCollector.value.totalHits > 0 {
      r := Success(newCollector.value.scoreDocs);
    } else {
      r := Success(secondTopDocs);
    }
    assert IsOrdering(order, FinalWeights(queryTerms, firstResults, tf, c).Keys) &&
      r == Fallback(search(QueryText(order, FinalWeights(queryTerms, firstResults, tf, c))), secondTopDocs);
  }
}
