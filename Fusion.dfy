/**
 * The per-query block of getResults: the rank is reset, the hits optionally
 * re-ranked by relevance feedback, and then either fused with the hashtag
 * hits (an id-to-score map, listed, sorted by descending score and cut to
 * 1000) or passed through in order, each entry written by the OutputBuilder.
 *
 * Looking up a hit's stored "id" field is not modelled: `idOf` and
 * `hashtagIdOf` give the id of a document of the primary and the hashtag
 * index.
 */
module Fusion {
  import opened Wrappers
  import opened JavaStrings
  import opened Hits
  import opened IDandScores
  import opened Output
  import opened RelevanceFeedback

  /** At most this many fused entries are written per query. */
  const OutputLimit: nat := 1000

  /** scoreMapping: document id to fused score. */
  type Scores = map<string, real>

  // ---------------------------------------------------------------------------
  // The score mapping

  /** The first loop: each hit's id put with its score, so a later hit with the same id wins. */
  function PrimaryScores(hits: seq<ScoreDoc>, idOf: nat -> string): (m: Scores)
    ensures |m| <= |hits|
  {
    if hits == [] then map[]
    else
      var hit := hits[|hits| - 1];
      PrimaryScores(hits[..|hits| - 1], idOf)[idOf(hit.doc) := hit.score]
  }

  /** The second loop: a hashtag hit's score is added to its id's score, or inserted. */
  function AddHashtagScores(m: Scores, hashtagHits: seq<ScoreDoc>, hashtagIdOf: nat -> string): (r: Scores)
    ensures m.Keys <= r.Keys
    ensures |r| <= |m| + |hashtagHits|
  {
    if hashtagHits == [] then m
    else
      var acc := AddHashtagScores(m, hashtagHits[..|hashtagHits| - 1], hashtagIdOf);
      var hashtagHit := hashtagHits[|hashtagHits| - 1];
      var id := hashtagIdOf(hashtagHit.doc);
      if id in acc then acc[id := acc[id] + hashtagHit.score] else acc[id := hashtagHit.score]
  }

  function FusedScores(hits: seq<ScoreDoc>, hashtagHits: seq<ScoreDoc>, idOf: nat -> string,
                       hashtagIdOf: nat -> string): Scores
  {
    AddHashtagScores(PrimaryScores(hits, idOf), hashtagHits, hashtagIdOf)
  }

  /** The two loops that fill scoreMapping. */
  method ScoreMapping(hits: seq<ScoreDoc>, hashtagHits: seq<ScoreDoc>, idOf: nat -> string,
                      hashtagIdOf: nat -> string)
    returns (scoreMapping: Scores)
    ensures scoreMapping == FusedScores(hits, hashtagHits, idOf, hashtagIdOf)
  {
    scoreMapping := map[];
    for n := 0 to |hits|
      invariant scoreMapping == PrimaryScores(hits[..n], idOf)
    {
      assert hits[..n + 1][..n] == hits[..n];
      var hit := hits[n];
      var id := idOf(hit.doc);
      scoreMapping := scoreMapping[id := hit.score];
    }
    assert hits[..|hits|] == hits;
    ghost var primary := scoreMapping;
    for n := 0 to |hashtagHits|
      invariant scoreMapping == AddHashtagScores(primary, hashtagHits[..n], hashtagIdOf)
    {
      assert hashtagHits[..n + 1][..n] == hashtagHits[..n];
      var hashtagHit := hashtagHits[n];
      var id := hashtagIdOf(hashtagHit.doc);
      if id in scoreMapping {
        var hitScore := scoreMapping[id];
        scoreMapping := scoreMapping[id := hitScore + hashtagHit.score];
      } else {
        scoreMapping := scoreMapping[id := hashtagHit.score];
      }
    }
    assert hashtagHits[..|hashtagHits|] == hashtagHits;
  }

  /** Some hit of `hits` carries `id`. */
  predicate HasId(hits: seq<ScoreDoc>, idOf: nat -> string, id: string) {
    exists i :: 0 <= i < |hits| && idOf(hits[i].doc) == id
  }

  /** The hit at `i` is the last one carrying `id`. */
  predicate LastWithId(hits: seq<ScoreDoc>, idOf: nat -> string, id: string, i: int) {
    0 <= i < |hits| && idOf(hits[i].doc) == id &&
    forall j :: i < j < |hits| ==> idOf(hits[j].doc) != id
  }

  /** The sum of the scores of the hits carrying `id`. */
  function ScoreSum(hits: seq<ScoreDoc>, idOf: nat -> string, id: string): real {
    if hits == [] then 0.0
    else
      var hit := hits[|hits| - 1];
      ScoreSum(hits[..|hits| - 1], idOf, id) + (if idOf(hit.doc) == id then hit.score else 0.0)
  }

  /** The primary map holds exactly the ids of the hits. */
  lemma {:induction false} PrimaryScoresKeys(hits: seq<ScoreDoc>, idOf: nat -> string, id: string)
    ensures id in PrimaryScores(hits, idOf) <==> HasId(hits, idOf, id)
  {
    if hits != [] {
      var init := hits[..|hits| - 1];
      PrimaryScoresKeys(init, idOf, id);
      if HasId(init, idOf, id) {
        var i :| 0 <= i < |init| && idOf(init[i].doc) == id;
        assert idOf(hits[i].doc) == id;
      }
      if HasId(hits, idOf, id) && idOf(hits[|hits| - 1].doc) != id {
        var i :| 0 <= i < |hits| && idOf(hits[i].doc) == id;
        assert idOf(init[i].doc) == id;
      }
    }
  }

  /** An id of the primary map carries the score of its last hit. */
  lemma {:induction false} PrimaryScoresLast(hits: seq<ScoreDoc>, idOf: nat -> string, id: string, i: nat)
    requires LastWithId(hits, idOf, id, i)
    ensures id in PrimaryScores(hits, idOf) && PrimaryScores(hits, idOf)[id] == hits[i].score
  {
    var init := hits[..|hits| - 1];
    if i < |hits| - 1 {
      assert LastWithId(init, idOf, id, i);
      PrimaryScoresLast(init, idOf, id, i);
    }
  }

  /**
   * Adding the hashtag hits keeps every id and inserts the new ones; an id's
   * score becomes its earlier score (0.0 when absent) plus the sum of its
   * hashtag scores.
   */
  lemma {:induction false} AddHashtagScoresSpec(m: Scores, hashtagHits: seq<ScoreDoc>,
                                                hashtagIdOf: nat -> string, id: string)
    ensures id in AddHashtagScores(m, hashtagHits, hashtagIdOf) <==> id in m || HasId(hashtagHits, hashtagIdOf, id)
    ensures id in AddHashtagScores(m, hashtagHits, hashtagIdOf) ==>
      AddHashtagScores(m, hashtagHits, hashtagIdOf)[id] ==
        (if id in m then m[id] else 0.0) + ScoreSum(hashtagHits, hashtagIdOf, id)
  {
    if hashtagHits != [] {
      var init := hashtagHits[..|hashtagHits| - 1];
      AddHashtagScoresSpec(m, init, hashtagIdOf, id);
      if HasId(init, hashtagIdOf, id) {
        var i :| 0 <= i < |init| && hashtagIdOf(init[i].doc) == id;
        assert hashtagIdOf(hashtagHits[i].doc) == id;
      }
      if HasId(hashtagHits, hashtagIdOf, id) && hashtagIdOf(hashtagHits[|hashtagHits| - 1].doc) != id {
        var i :| 0 <= i < |hashtagHits| && hashtagIdOf(hashtagHits[i].doc) == id;
        assert hashtagIdOf(init[i].doc) == id;
      }
      if id !in AddHashtagScores(m, init, hashtagIdOf) {
        ScoreSumAbsent(init, hashtagIdOf, id);
      }
    }
  }

  lemma {:induction false} ScoreSumAbsent(hits: seq<ScoreDoc>, idOf: nat -> string, id: string)
    requires !HasId(hits, idOf, id)
    ensures ScoreSum(hits, idOf, id) == 0.0
  {
    if hits != [] {
      var init := hits[..|hits| - 1];
      assert !HasId(init, idOf, id) by {
        forall i | 0 <= i < |init|
          ensures idOf(init[i].doc) != id
        {
          assert init[i] == hits[i];
        }
      }
      ScoreSumAbsent(init, idOf, id);
    }
  }

  /** In a list whose ids are distinct, the sum for the id of hit j is that hit's score. */
  lemma {:induction false} ScoreSumSingle(hits: seq<ScoreDoc>, idOf: nat -> string, j: nat)
    requires j < |hits|
    requires forall a, b :: 0 <= a < b < |hits| ==> idOf(hits[a].doc) != idOf(hits[b].doc)
    ensures ScoreSum(hits, idOf, idOf(hits[j].doc)) == hits[j].score
  {
    var init := hits[..|hits| - 1];
    var id := idOf(hits[j].doc);
    if j == |hits| - 1 {
      assert !HasId(init, idOf, id) by {
        forall i | 0 <= i < |init|
          ensures idOf(init[i].doc) != id
        {
          assert init[i] == hits[i];
        }
      }
      ScoreSumAbsent(init, idOf, id);
    } else {
      assert init[j] == hits[j];
      ScoreSumSingle(init, idOf, j);
    }
  }

  /** Ids are distinct within a list of hits. */
  predicate DistinctIds(hits: seq<ScoreDoc>, idOf: nat -> string) {
    forall a, b :: 0 <= a < b < |hits| ==> idOf(hits[a].doc) != idOf(hits[b].doc)
  }

  /**
   * When each list names an id at most once, the fused score of an id in both
   * lists is the primary plus the hashtag score, and an id in only one list
   * keeps that list's score.
   */
  lemma FusedScore(hits: seq<ScoreDoc>, hashtagHits: seq<ScoreDoc>, idOf: nat -> string,
                   hashtagIdOf: nat -> string, id: string)
    requires DistinctIds(hits, idOf) && DistinctIds(hashtagHits, hashtagIdOf)
    ensures var fused := FusedScores(hits, hashtagHits, idOf, hashtagIdOf);
      (id in fused <==> HasId(hits, idOf, id) || HasId(hashtagHits, hashtagIdOf, id)) &&
      (forall i, j ::
         (0 <= i < |hits| && 0 <= j < |hashtagHits| &&
          idOf(hits[i].doc) == id && hashtagIdOf(hashtagHits[j].doc) == id) ==>
         fused[id] == hits[i].score + hashtagHits[j].score) &&
      (forall i :: 0 <= i < |hits| && idOf(hits[i].doc) == id && !HasId(hashtagHits, hashtagIdOf, id) ==>
         fused[id] == hits[i].score) &&
      (forall j :: 0 <= j < |hashtagHits| && hashtagIdOf(hashtagHits[j].doc) == id && !HasId(hits, idOf, id) ==>
         fused[id] == hashtagHits[j].score)
  {
    var primary := PrimaryScores(hits, idOf);
    PrimaryScoresKeys(hits, idOf, id);
    AddHashtagScoresSpec(primary, hashtagHits, hashtagIdOf, id);
    forall i | 0 <= i < |hits| && idOf(hits[i].doc) == id
      ensures primary[id] == hits[i].score
    {
      assert LastWithId(hits, idOf, id, i);
      PrimaryScoresLast(hits, idOf, id, i);
    }
    forall j | 0 <= j < |hashtagHits| && hashtagIdOf(hashtagHits[j].doc) == id
      ensures ScoreSum(hashtagHits, hashtagIdOf, id) == hashtagHits[j].score
    {
      ScoreSumSingle(hashtagHits, hashtagIdOf, j);
    }
    if !HasId(hashtagHits, hashtagIdOf, id) {
      ScoreSumAbsent(hashtagHits, hashtagIdOf, id);
    }
  }

  // ---------------------------------------------------------------------------
  // The ranking

  /** `r` lists every entry of `m` exactly once, and nothing else. */
  ghost predicate ListsEntries(r: seq<IDandScore>, m: Scores) {
    (forall x :: x in multiset(r) ==> multiset(r)[x] == 1 && x.id in m && x.score == m[x.id]) &&
    (forall k :: k in m ==> IDandScore(k, m[k]) in multiset(r))
  }

  /** `r` lists, once each, the entries of `m` whose keys are not in `remaining`, and nothing else. */
  ghost predicate ListsEntriesExcept(r: seq<IDandScore>, m: Scores, remaining: set<string>) {
    (forall x :: x in multiset(r) ==> multiset(r)[x] == 1 && x.id in m && x.id !in remaining && x.score == m[x.id]) &&
    (forall k :: k in m && k !in remaining ==> IDandScore(k, m[k]) in multiset(r))
  }

  lemma ListOneMore(r: seq<IDandScore>, m: Scores, remaining: set<string>, key: string)
    requires ListsEntriesExcept(r, m, remaining) && key in remaining && key in m
    ensures ListsEntriesExcept(r + [IDandScore(key, m[key])], m, remaining - {key})
  {
    var entry := IDandScore(key, m[key]);
    assert entry !in multiset(r);
    assert multiset(r + [entry]) == multiset(r) + multiset{entry};
  }

  /** The loop that adds an IDandScore for each entry of scoreMapping (in HashMap order) to the ranking list. */
  method BuildRanking(scoreMapping: Scores) returns (ranking: seq<IDandScore>)
    ensures ListsEntries(ranking, scoreMapping)
  {
    ranking := [];
    var remaining := scoreMapping.Keys;
    while remaining != {}
      invariant remaining <= scoreMapping.Keys
      invariant ListsEntriesExcept(ranking, scoreMapping, remaining)
      decreases remaining
    {
      var key :| key in remaining;
      ListOneMore(ranking, scoreMapping, remaining, key);
      ranking := ranking + [IDandScore(key, scoreMapping[key])];
      remaining := remaining - {key};
    }
  }

  /** ranking.sort with the reversed score comparator, in place (an insertion sort). */
  method SortRanking(ranking: array<IDandScore>)
    modifies ranking
    ensures SortedDescending(ranking[..])
    ensures multiset(ranking[..]) == multiset(old(ranking[..]))
  {
    if ranking.Length < 2 {
      return;
    }
    for i := 1 to ranking.Length
      invariant forall k, l :: 0 <= k < l < i ==> ranking[k].score >= ranking[l].score
      invariant multiset(ranking[..]) == multiset(old(ranking[..]))
    {
      SinkInto(ranking, i);
    }
  }

  /** Moves ranking[i] down past the lower-scored entries before it, so that ranking[..i+1] is sorted. */
  method SinkInto(ranking: array<IDandScore>, i: nat)
    requires i < ranking.Length
    requires forall k, l :: 0 <= k < l < i ==> ranking[k].score >= ranking[l].score
    modifies ranking
    ensures forall k, l :: 0 <= k < l <= i ==> ranking[k].score >= ranking[l].score
    ensures multiset(ranking[..]) == multiset(old(ranking[..]))
  {
    var j := i;
    while j > 0 && CompareTo(ranking[j - 1], ranking[j]) > 0
      invariant 0 <= j <= i
      invariant forall k, l :: 0 <= k < l <= i && l != j ==> ranking[k].score >= ranking[l].score
      invariant forall l :: j < l <= i ==> ranking[j].score >= ranking[l].score
      invariant multiset(ranking[..]) == multiset(old(ranking[..]))
    {
      Swap(ranking, j - 1, j);
      j := j - 1;
    }
  }

  /** Exchanges two positions of the array; the multiset of entries stays the same. */
  method Swap(a: array<IDandScore>, i: nat, j: nat)
    requires i < a.Length && j < a.Length
    modifies a
    ensures a[i] == old(a[j]) && a[j] == old(a[i])
    ensures forall k :: 0 <= k < a.Length && k != i && k != j ==> a[k] == old(a[k])
    ensures multiset(a[..]) == multiset(old(a[..]))
  {
    ghost var before := a[..];
    a[i], a[j] := a[j], a[i];
    assert a[..] == before[i := before[j]][j := before[i]];
  }

  /** Listing every entry is a property of the multiset alone, so sorting keeps it. */
  lemma PermutationListsEntries(r: seq<IDandScore>, s: seq<IDandScore>, m: Scores)
    requires ListsEntries(r, m) && multiset(s) == multiset(r)
    ensures ListsEntries(s, m)
  {
  }

  /** Two positions holding the same entry count it twice. */
  lemma TwoPositions(r: seq<IDandScore>, i: nat, j: nat)
    requires i < j < |r| && r[i] == r[j]
    ensures multiset(r)[r[i]] >= 2
  {
    assert r == r[..j] + [r[j]] + r[j + 1..];
    assert r[i] in multiset(r[..j]);
  }

  /** A listing of the entries names every id once. */
  lemma ListedIdsDistinct(r: seq<IDandScore>, m: Scores)
    requires ListsEntries(r, m)
    ensures forall i, j :: 0 <= i < j < |r| ==> r[i].id != r[j].id
  {
    forall i, j | 0 <= i < j < |r|
      ensures r[i].id != r[j].id
    {
      if r[i].id == r[j].id {
        assert r[i] in multiset(r) && r[j] in multiset(r);
        assert r[i] == r[j];
        TwoPositions(r, i, j);
      }
    }
  }

  /** min(ranking.size(), 1000) */
  function EmitCount(rankingSize: nat): (n: nat)
    ensures n <= rankingSize && n <= OutputLimit
    ensures n == rankingSize || n == OutputLimit
  {
    if rankingSize < OutputLimit then rankingSize else OutputLimit
  }

  /** Every position of a listing holds an entry of the map. */
  lemma ListedEntries(r: seq<IDandScore>, m: Scores)
    requires ListsEntries(r, m)
    ensures forall i :: 0 <= i < |r| ==> r[i].id in m && r[i].score == m[r[i].id]
  {
    forall i | 0 <= i < |r|
      ensures r[i].id in m && r[i].score == m[r[i].id]
    {
      assert r[i] in multiset(r);
    }
  }

  /** In a sorted listing, an entry beyond the cut scores no higher than any entry before it. */
  lemma NothingBetterLeftOut(ranked: seq<IDandScore>, m: Scores, n: nat, k: string)
    requires ListsEntries(ranked, m) && SortedDescending(ranked) && n <= |ranked|
    requires k in m && forall i :: 0 <= i < n ==> ranked[i].id != k
    ensures forall i :: 0 <= i < n ==> ranked[i].score >= m[k]
  {
    var entry := IDandScore(k, m[k]);
    assert entry in multiset(ranked);
    var j :| 0 <= j < |ranked| && ranked[j] == entry;
    assert ranked[j].id == k;
    assert j >= n;
  }

  /** The emitted part of a sorted listing is sorted and holds distinct entries of the map. */
  lemma TopListed(ranked: seq<IDandScore>, m: Scores)
    requires ListsEntries(ranked, m) && SortedDescending(ranked)
    ensures var top := ranked[..EmitCount(|ranked|)];
      SortedDescending(top) &&
      (forall i :: 0 <= i < |top| ==> top[i].id in m && top[i].score == m[top[i].id]) &&
      (forall i, j :: 0 <= i < j < |top| ==> top[i].id != top[j].id)
  {
    var top := ranked[..EmitCount(|ranked|)];
    assert forall i :: 0 <= i < |top| ==> top[i] == ranked[i];
    ListedIdsDistinct(ranked, m);
    ListedEntries(ranked, m);
  }

  /** No entry left out of the emitted part scores higher than one written. */
  lemma TopNothingBetter(ranked: seq<IDandScore>, m: Scores)
    requires ListsEntries(ranked, m) && SortedDescending(ranked)
    ensures var top := ranked[..EmitCount(|ranked|)];
      forall k :: k in m && (forall i :: 0 <= i < |top| ==> top[i].id != k) ==>
        forall i :: 0 <= i < |top| ==> top[i].score >= m[k]
  {
    var n := EmitCount(|ranked|);
    var top := ranked[..n];
    forall k | k in m && (forall i :: 0 <= i < |top| ==> top[i].id != k)
      ensures forall i :: 0 <= i < |top| ==> top[i].score >= m[k]
    {
      assert forall i :: 0 <= i < n ==> ranked[i].id != k by {
        forall i | 0 <= i < n
          ensures ranked[i].id != k
        {
          assert top[i] == ranked[i];
        }
      }
      NothingBetterLeftOut(ranked, m, n, k);
    }
  }

  /**
   * The emitted part of a sorted listing of the fused scores: at most 1000
   * distinct entries of the map, in descending score order, every entry when
   * there are no more than 1000, and none left out that scores higher than
   * one written.
   */
  lemma TopEntries(ranked: seq<IDandScore>, m: Scores)
    requires ListsEntries(ranked, m) && SortedDescending(ranked)
    ensures var top := ranked[..EmitCount(|ranked|)];
      SortedDescending(top) &&
      (forall i :: 0 <= i < |top| ==> top[i].id in m && top[i].score == m[top[i].id]) &&
      (forall i, j :: 0 <= i < j < |top| ==> top[i].id != top[j].id) &&
      (|ranked| <= OutputLimit ==> top == ranked) &&
      (forall k :: k in m && (forall i :: 0 <= i < |top| ==> top[i].id != k) ==>
         forall i :: 0 <= i < |top| ==> top[i].score >= m[k])
  {
    TopListed(ranked, m);
    TopNothingBetter(ranked, m);
  }

  // ---------------------------------------------------------------------------
  // Writing the results

  /** The lines written for `entries`, the first carrying rank `firstRank`. */
  function Lines(q: string, entries: seq<IDandScore>, firstRank: int, renderScore: real -> string)
    : (lines: seq<string>)
    ensures |lines| == |entries|
  {
    if entries == [] then []
    else
      var e := entries[|entries| - 1];
      Lines(q, entries[..|entries| - 1], firstRank, renderScore) +
        [LineText(q, e.id, firstRank + |entries| - 1, renderScore(e.score))]
  }

  /** Line i carries entry i and rank firstRank + i: consecutive ranks, no gaps. */
  lemma {:induction false} LinesAt(q: string, entries: seq<IDandScore>, firstRank: int, renderScore: real -> string)
    ensures |Lines(q, entries, firstRank, renderScore)| == |entries|
    ensures forall i :: 0 <= i < |entries| ==>
      Lines(q, entries, firstRank, renderScore)[i] ==
        LineText(q, entries[i].id, firstRank + i, renderScore(entries[i].score))
  {
    if entries != [] {
      var init := entries[..|entries| - 1];
      var earlier := Lines(q, init, firstRank, renderScore);
      LinesAt(q, init, firstRank, renderScore);
      var lines := Lines(q, entries, firstRank, renderScore);
      forall i | 0 <= i < |init|
        ensures lines[i] == LineText(q, entries[i].id, firstRank + i, renderScore(entries[i].score))
      {
        assert lines[i] == earlier[i];
        assert entries[i] == init[i];
      }
    }
  }

  /** The lines for one more entry are those for the entries before it, then its own line. */
  lemma LinesSnoc(q: string, entries: seq<IDandScore>, i: nat, firstRank: int, renderScore: real -> string)
    requires i < |entries|
    ensures Lines(q, entries[..i + 1], firstRank, renderScore) ==
      Lines(q, entries[..i], firstRank, renderScore) +
        [LineText(q, entries[i].id, firstRank + i, renderScore(entries[i].score))]
  {
    assert entries[..i + 1][..i] == entries[..i];
  }

  /**
   * The emission loops: add for each entry in turn. An exception from
   * stripPrefix escapes at the first add, before anything is written.
   */
  method Emit(out: OutputBuilder, qId: string, entries: seq<IDandScore>) returns (outcome: Result<(), OutputError>)
    modifies out
    ensures entries == [] ==> outcome == Success(()) && out.rank == old(out.rank) && out.written == old(out.written)
    ensures entries != [] && StripPrefix(qId).Failure? ==>
      outcome == Failure(StripPrefix(qId).error) && out.rank == old(out.rank) && out.written == old(out.written)
    ensures StripPrefix(qId).Success? ==>
      outcome == Success(()) && out.rank == old(out.rank) + |entries| &&
      out.written == old(out.written) + Lines(StripPrefix(qId).value, entries, old(out.rank), out.renderScore)
  {
    if entries == [] {
      return Success(());
    }
    if StripPrefix(qId).Failure? {
      // the first add throws, which ends the loop
      outcome := out.Add(qId, entries[0].id, entries[0].score, false);
      return;
    }
    EmitAll(out, qId, entries);
    outcome := Success(());
  }

  /** The emission loop for a well-formed query id: every add writes its line. */
  method EmitAll(out: OutputBuilder, qId: string, entries: seq<IDandScore>)
    requires StripPrefix(qId).Success?
    modifies out
    ensures out.rank == old(out.rank) + |entries|
    ensures out.written == old(out.written) + Lines(StripPrefix(qId).value, entries, old(out.rank), out.renderScore)
  {
    ghost var q := StripPrefix(qId).value;
    ghost var rank0, written0 := out.rank, out.written;
    for i := 0 to |entries|
      invariant out.rank == rank0 + i
      invariant out.written == written0 + Lines(q, entries[..i], rank0, out.renderScore)
    {
      ghost var before := out.written;
      var _ := out.Add(qId, entries[i].id, entries[i].score, false);
      LinesSnoc(q, entries, i, rank0, out.renderScore);
      assert out.written == before + [LineText(q, entries[i].id, rank0 + i, out.renderScore(entries[i].score))];
    }
    assert entries[..|entries|] == entries;
  }

  /** The hits as (id, score) entries, in their order: what the no-hashtag branch writes. */
  function HitEntries(hits: seq<ScoreDoc>, idOf: nat -> string): (entries: seq<IDandScore>)
    ensures |entries| == |hits|
    ensures forall i :: 0 <= i < |hits| ==> entries[i] == IDandScore(idOf(hits[i].doc), hits[i].score)
  {
    if hits == [] then []
    else HitEntries(hits[..|hits| - 1], idOf) + [IDandScore(idOf(hits[|hits| - 1].doc), hits[|hits| - 1].score)]
  }

  /**
   * Without hashtag scoring, line i of a query is hit i: its id, rank i + 1
   * and its score, in the order of the hits.
   */
  lemma PassThroughLines(queryNum: string, hits: seq<ScoreDoc>, idOf: nat -> string,
                         renderScore: real -> string, i: nat)
    requires StripPrefix(queryNum).Success? && i < |hits|
    requires '\t' !in idOf(hits[i].doc) && '\t' !in renderScore(hits[i].score)
    ensures var q := StripPrefix(queryNum).value;
      var lines := Lines(q, HitEntries(hits, idOf), 1, renderScore);
      |lines| == |hits| &&
      SplitAll(lines[i], '\t') ==
        [q, "Q0", idOf(hits[i].doc), IntToString(i + 1), renderScore(hits[i].score), "testRun\n"]
  {
    var q := StripPrefix(queryNum).value;
    LinesAt(q, HitEntries(hits, idOf), 1, renderScore);
    LineTextFields(queryNum, idOf(hits[i].doc), i + 1, renderScore(hits[i].score));
  }

  // ---------------------------------------------------------------------------
  // One query

  /** useHashtagScoring, useRelevanceFeedback and the feedback coefficients. */
  datatype Settings = Settings(useHashtagScoring: bool, useRelevanceFeedback: bool, coefficients: Coefficients)

  /** The settings the source fixes: both enabled, coefficients 1.00, 5.50 and 0.00. */
  const DefaultSettings: Settings := Settings(true, true, DefaultCoefficients)

  /**
   * What the Lucene side supplies for one query: the hits of both indexes, the
   * original collector's second topDocs(), the id of each document, the term
   * vectors, the re-search and the text of the extracted query terms.
   */
  datatype Searches = Searches(hits: seq<ScoreDoc>, hashtagHits: seq<ScoreDoc>, secondTopDocs: seq<ScoreDoc>,
                               idOf: nat -> string, hashtagIdOf: nat -> string,
                               tf: nat -> Option<Frequencies>, search: string -> Option<Collected>,
                               queryTerms: set<string>)

  datatype QueryError = FeedbackFailed(feedback: FeedbackError) | OutputFailed(output: OutputError)

  /** The hits fusion starts from, the key order of the rebuilt query being `order`. */
  function HitsAfterFeedback(s: Searches, settings: Settings, order: seq<string>): Result<seq<ScoreDoc>, FeedbackError>
    requires settings.useRelevanceFeedback ==>
      IsOrdering(order, FinalWeights(s.queryTerms, s.hits, s.tf, settings.coefficients).Keys)
  {
    if settings.useRelevanceFeedback then
      var w := FinalWeights(s.queryTerms, s.hits, s.tf, settings.coefficients);
      Fallback(s.search(QueryText(order, w)), s.secondTopDocs)
    else Success(s.hits)
  }

  /**
   * getResults for one query id: resetRank, feedback, then fusion or pass-through.
   * `ranked` is the sorted ranking (its tie order depends on HashMap order) and
   * `order` the key order of the rebuilt feedback query.
   */
  method ResultsForQuery(out: OutputBuilder, qId: string, s: Searches, settings: Settings)
    returns (outcome: Result<(), QueryError>, ghost order: seq<string>, ghost ranked: seq<IDandScore>)
    modifies out
    ensures settings.useRelevanceFeedback ==>
      IsOrdering(order, FinalWeights(s.queryTerms, s.hits, s.tf, settings.coefficients).Keys)
    ensures HitsAfterFeedback(s, settings, order).Failure? ==>
      outcome == Failure(FeedbackFailed(HitsAfterFeedback(s, settings, order).error)) &&
      out.rank == 1 && out.written == old(out.written)
    ensures HitsAfterFeedback(s, settings, order).Success? ==>
      var hits := HitsAfterFeedback(s, settings, order).value;
      var entries := if settings.useHashtagScoring then ranked[..EmitCount(|ranked|)] else HitEntries(hits, s.idOf);
      (settings.useHashtagScoring ==>
        ListsEntries(ranked, FusedScores(hits, s.hashtagHits, s.idOf, s.hashtagIdOf)) && SortedDescending(ranked)) &&
      (StripPrefix(qId).Success? ==>
        outcome == Success(()) && out.rank == 1 + |entries| &&
        out.written == old(out.written) + Lines(StripPrefix(qId).value, entries, 1, out.renderScore)) &&
      (StripPrefix(qId).Failure? ==>
        out.rank == 1 && out.written == old(out.written) &&
        outcome == if entries == [] then Success(()) else Failure(OutputFailed(StripPrefix(qId).error)))
  {
    out.ResetRank();
    var hits := s.hits;
    order := [];
    ranked := [];
    if settings.useRelevanceFeedback {
      var fed := EvaluateWithRelevanceFeedback(s.queryTerms, s.hits, s.secondTopDocs, s.tf, s.search,
                                               settings.coefficients);
      ghost var w := FinalWeights(s.queryTerms, s.hits, s.tf, settings.coefficients);
      order :| IsOrdering(order, w.Keys) && fed == Fallback(s.search(QueryText(order, w)), s.secondTopDocs);
      if fed.Failure? {
        return Failure(FeedbackFailed(fed.error)), order, ranked;
      }
      hits := fed.value;
    }
    assert hits == HitsAfterFeedback(s, settings, order).value;
    var entries: seq<IDandScore>;
    if settings.useHashtagScoring {
      var scoreMapping := ScoreMapping(hits, s.hashtagHits, s.idOf, s.hashtagIdOf);
      var listed := BuildRanking(scoreMapping);
      var ranking := new IDandScore[|listed|](i requires 0 <= i < |listed| => listed[i]);
      assert ranking[..] == listed;
      SortRanking(ranking);
      ranked := ranking[..];
      PermutationListsEntries(listed, ranked, scoreMapping);
      var limit := EmitCount(ranking.Length);
      entries := ranking[..limit];
    } else {
      entries := HitEntries(hits, s.idOf);
    }
    var written := Emit(out, qId, entries);
    if written.Failure? {
      outcome := Failure(OutputFailed(written.error));
    } else {
      outcome := Success(());
    }
  }
}
