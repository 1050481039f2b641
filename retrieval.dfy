/**
 * Nearest-document retrieval (rag/rag.go, findMostSimilar): a linear scan
 * over a map from document id to embedding that keeps the id with the
 * highest cosine score against the query. The scan starts from the score -1
 * and the empty id, and replaces the best only on a strictly greater score.
 *
 * Go visits a map in an unspecified order; the model takes that order as a
 * parameter, a sequence that lists every key exactly once, and its
 * properties hold for every such order.
 */
module Retrieval {
  import opened Similarity

  /** The scan's running state: the best id so far and its score. */
  datatype Best = Best(id: string, score: real)

  /** The state before any document has been visited. */
  const Start: Best := Best("", -1.0)

  /**
   * cosineSimilarity(queryEmb, docEmb) reads docEmb at every index of the
   * query, so every document must be at least as long as the query.
   */
  ghost predicate Comparable(docs: map<string, seq<real>>, query: seq<real>) {
    forall id :: id in docs ==> |query| <= |docs[id]|
  }

  /** `order` lists every key of `docs` exactly once: a possible map iteration order. */
  ghost predicate IsVisitOrder(docs: map<string, seq<real>>, order: seq<string>) {
    && (forall id :: id in docs <==> id in order)
    && (forall i, j :: 0 <= i < j < |order| ==> order[i] != order[j])
  }

  /** Every id of `ids` is a key of `docs`. */
  ghost predicate AllKeys(docs: map<string, seq<real>>, ids: seq<string>) {
    forall k :: 0 <= k < |ids| ==> ids[k] in docs
  }

  /** The score of document `id`: the query is the first argument. */
  function Score(docs: map<string, seq<real>>, query: seq<real>, sqrt: real -> real, id: string): real
    requires id in docs && Comparable(docs, query) && IsSqrt(sqrt)
  {
    Cosine(query, docs[id], sqrt)
  }

  /** The scan's state after visiting `ids` in order, starting from Start. */
  function Scan(docs: map<string, seq<real>>, query: seq<real>, sqrt: real -> real, ids: seq<string>): Best
    requires Comparable(docs, query) && IsSqrt(sqrt) && AllKeys(docs, ids)
    decreases |ids|
  {
    if ids == [] then Start
    else
      var best := Scan(docs, query, sqrt, ids[..|ids| - 1]);
      var id := ids[|ids| - 1];
      var score := Score(docs, query, sqrt, id);
      if score > best.score then Best(id, score) else best
  }

  /**
   * findMostSimilar, visiting the keys in `order`. The result is a key whose
   * score is above -1 and at least every document's score, or "" when no
   * document scores above -1 (in particular when `docs` is empty).
   */
  method FindMostSimilar(docs: map<string, seq<real>>, queryEmb: seq<real>, sqrt: real -> real,
                         order: seq<string>) returns (bestDocID: string)
    requires Comparable(docs, queryEmb) && IsSqrt(sqrt) && IsVisitOrder(docs, order)
    ensures bestDocID == Scan(docs, queryEmb, sqrt, order).id
    ensures (exists id :: id in docs && Score(docs, queryEmb, sqrt, id) > -1.0) ==>
              && bestDocID in docs
              && Score(docs, queryEmb, sqrt, bestDocID) > -1.0
              && forall id :: id in docs ==>
                   Score(docs, queryEmb, sqrt, id) <= Score(docs, queryEmb, sqrt, bestDocID)
    ensures (forall id :: id in docs ==> Score(docs, queryEmb, sqrt, id) <= -1.0) ==> bestDocID == ""
  {
    var maxScore := -1.0;
    bestDocID := "";
    for i := 0 to |order|
      invariant Best(bestDocID, maxScore) == Scan(docs, queryEmb, sqrt, order[..i])
    {
      var docID := order[i];
      var score := CosineSimilarity(queryEmb, docs[docID], sqrt);
      assert order[..i + 1][..i] == order[..i];
      if score > maxScore {
        maxScore := score;
        bestDocID := docID;
      }
    }
    assert order[..|order|] == order;
    ScanIsMaximal(docs, queryEmb, sqrt, order);
    var _ := ScanFirstMaximum(docs, queryEmb, sqrt, order);
    ScanStaysAtStart(docs, queryEmb, sqrt, order);
  }

  /** No visited document scores above the scan's best, and the best never drops below -1. */
  lemma {:induction false} ScanIsMaximal(docs: map<string, seq<real>>, query: seq<real>, sqrt: real -> real, ids: seq<string>)
    requires Comparable(docs, query) && IsSqrt(sqrt) && AllKeys(docs, ids)
    ensures Scan(docs, query, sqrt, ids).score >= -1.0
    ensures forall k :: 0 <= k < |ids| ==> Score(docs, query, sqrt, ids[k]) <= Scan(docs, query, sqrt, ids).score
  {
    if ids != [] {
      var init := ids[..|ids| - 1];
      ScanIsMaximal(docs, query, sqrt, init);
      forall k | 0 <= k < |ids| - 1
        ensures ids[k] == init[k]
      {
      }
    }
  }

  /**
   * When some visited document scores above -1, the result is the FIRST
   * visited document with the maximal score: the strict comparison keeps
   * the earliest of tied documents.
   */
  lemma {:induction false} ScanFirstMaximum(docs: map<string, seq<real>>, query: seq<real>, sqrt: real -> real, ids: seq<string>)
    returns (k: nat)
    requires Comparable(docs, query) && IsSqrt(sqrt) && AllKeys(docs, ids)
    ensures Scan(docs, query, sqrt, ids) == Start || (
      && k < |ids|
      && ids[k] == Scan(docs, query, sqrt, ids).id
      && Score(docs, query, sqrt, ids[k]) == Scan(docs, query, sqrt, ids).score > -1.0
      && forall j :: 0 <= j < k ==> Score(docs, query, sqrt, ids[j]) < Scan(docs, query, sqrt, ids).score)
  {
    k := 0;
    if ids != [] {
      var init := ids[..|ids| - 1];
      var best := Scan(docs, query, sqrt, init);
      var score := Score(docs, query, sqrt, ids[|ids| - 1]);
      ScanIsMaximal(docs, query, sqrt, init);
      if score > best.score {
        k := |ids| - 1;
        forall j | 0 <= j < k
          ensures Score(docs, query, sqrt, ids[j]) < score
        {
          assert ids[j] == init[j];
        }
      } else {
        k := ScanFirstMaximum(docs, query, sqrt, init);
        if best != Start {
          assert ids[k] == init[k];
          forall j | 0 <= j < k
            ensures Score(docs, query, sqrt, ids[j]) < best.score
          {
            assert ids[j] == init[j];
          }
        }
      }
    }
  }

  /** The scan ends where it started exactly when no visited document scores above -1. */
  lemma {:induction false} ScanStaysAtStart(docs: map<string, seq<real>>, query: seq<real>, sqrt: real -> real, ids: seq<string>)
    requires Comparable(docs, query) && IsSqrt(sqrt) && AllKeys(docs, ids)
    ensures Scan(docs, query, sqrt, ids) == Start <==>
            forall k :: 0 <= k < |ids| ==> Score(docs, query, sqrt, ids[k]) <= -1.0
  {
    if ids != [] {
      var init := ids[..|ids| - 1];
      ScanStaysAtStart(docs, query, sqrt, init);
      ScanIsMaximal(docs, query, sqrt, init);
      forall k | 0 <= k < |ids| - 1
        ensures ids[k] == init[k]
      {
      }
    }
  }

  /**
   * A document that scores above -1 and strictly above every other document
   * is the result for every visiting order: only ties make the result
   * depend on Go's map order.
   */
  lemma UniqueMaximumIsOrderIndependent(docs: map<string, seq<real>>, query: seq<real>, sqrt: real -> real,
                                        order1: seq<string>, order2: seq<string>, winner: string)
    requires Comparable(docs, query) && IsSqrt(sqrt)
    requires IsVisitOrder(docs, order1) && IsVisitOrder(docs, order2)
    requires winner in docs && Score(docs, query, sqrt, winner) > -1.0
    requires forall id :: id in docs && id != winner ==> Score(docs, query, sqrt, id) < Score(docs, query, sqrt, winner)
    ensures Scan(docs, query, sqrt, order1).id == winner
    ensures Scan(docs, query, sqrt, order2).id == winner
  {
    UniqueMaximumWins(docs, query, sqrt, order1, winner);
    UniqueMaximumWins(docs, query, sqrt, order2, winner);
  }

  /** A strict maximum above -1 among the visited documents is the scan's result. */
  lemma UniqueMaximumWins(docs: map<string, seq<real>>, query: seq<real>, sqrt: real -> real,
                          ids: seq<string>, winner: string)
    requires Comparable(docs, query) && IsSqrt(sqrt) && AllKeys(docs, ids)
    requires winner in ids && Score(docs, query, sqrt, winner) > -1.0
    requires forall k :: 0 <= k < |ids| && ids[k] != winner ==>
               Score(docs, query, sqrt, ids[k]) < Score(docs, query, sqrt, winner)
    ensures Scan(docs, query, sqrt, ids).id == winner
  {
    ScanIsMaximal(docs, query, sqrt, ids);
    var _ := ScanFirstMaximum(docs, query, sqrt, ids);
    ScanStaysAtStart(docs, query, sqrt, ids);
  }

  /**
   * With an empty query embedding every score is 0 (the zero-norm guard),
   * so the scan returns the first visited document, whatever the documents.
   */
  lemma EmptyQueryPicksFirstVisited(docs: map<string, seq<real>>, sqrt: real -> real, ids: seq<string>)
    requires IsSqrt(sqrt) && AllKeys(docs, ids) && |ids| > 0
    ensures Comparable(docs, [])
    ensures Scan(docs, [], sqrt, ids).id == ids[0]
  {
    assert Comparable(docs, []);
    forall k | 0 <= k < |ids|
      ensures Score(docs, [], sqrt, ids[k]) == 0.0
    {
    }
    var _ := ScanFirstMaximum(docs, [], sqrt, ids);
    ScanStaysAtStart(docs, [], sqrt, ids);
  }

  /**
   * Two unit documents along the axes and a query leaning towards the
   * first: the first is returned whichever order the map is visited in.
   */
  lemma NearerDirectionWins(sqrt: real -> real, order: seq<string>)
    requires IsSqrt(sqrt)
    requires IsVisitOrder(map["d1" := [1.0, 0.0], "d2" := [0.0, 1.0]], order)
    ensures Comparable(map["d1" := [1.0, 0.0], "d2" := [0.0, 1.0]], [0.9, 0.1])
    ensures Scan(map["d1" := [1.0, 0.0], "d2" := [0.0, 1.0]], [0.9, 0.1], sqrt, order).id == "d1"
  {
    var docs, query := map["d1" := [1.0, 0.0], "d2" := [0.0, 1.0]], [0.9, 0.1];
    assert Comparable(docs, query);
    var nq := Dot(query, query, 2);
    assert nq == 0.82;
    assert Dot(docs["d1"], docs["d1"], 2) == 1.0 && Dot(docs["d2"], docs["d2"], 2) == 1.0;
    assert Dot(query, docs["d1"], 2) == 0.9 && Dot(query, docs["d2"], 2) == 0.1;
    SqrtPositive(sqrt, nq);
    SqrtPositive(sqrt, 1.0);
    var p := sqrt(nq) * sqrt(1.0);
    ProductPositive(sqrt(nq), sqrt(1.0));
    assert Score(docs, query, sqrt, "d1") == 0.9 / p;
    assert Score(docs, query, sqrt, "d2") == 0.1 / p;
    assert 0.1 / p < 0.9 / p;
    CosineRange(query, docs["d1"], sqrt);
    assert Score(docs, query, sqrt, "d1") > -1.0;
    forall id | id in docs && id != "d1"
      ensures Score(docs, query, sqrt, id) < Score(docs, query, sqrt, "d1")
    {
      assert id == "d2";
    }
    UniqueMaximumIsOrderIndependent(docs, query, sqrt, order, order, "d1");
  }
}
