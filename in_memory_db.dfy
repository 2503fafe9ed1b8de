/**
 * The in-memory vector store: a dictionary from chunk id to record. Storing upserts by chunk
 * id, searching scores every record against the query and keeps the best topK, deleting
 * removes every record of a document. A length mismatch between the query and a record
 * makes the score throw, so the whole search fails.
 */
module InMemoryVectorDb {
  import opened Wrappers
  import opened Models
  import opened Similarity
  import opened Ranking
  import opened VectorDocuments

  const MismatchMessage: string := "Vectors must have the same length"

  type Documents = map<string, VectorDocument>

  /** CosineSimilarity: a length mismatch throws, otherwise the sums are taken in one loop. */
  method CosineSimilarity(v1: seq<real>, v2: seq<real>, quotient: (real, real, real) -> real) returns (r: Result<real>)
    ensures |v1| != |v2| ==> r == Failure(MismatchMessage)
    ensures |v1| == |v2| ==> r == Success(CosineOf(v1, v2, quotient))
  {
    if |v1| != |v2| {
      return Failure(MismatchMessage);
    }
    var dotProduct, mag1, mag2 := Sums(v1, v2);
    if mag1 == 0.0 || mag2 == 0.0 {
      return Success(0.0);
    }
    return Success(quotient(dotProduct, mag1, mag2));
  }

  /** The record stored for a chunk: its content is the metadata's "content" entry, or "". */
  function NewDocument(documentId: string, chunkId: string, embedding: seq<real>, metadata: Metadata): VectorDocument
  {
    VectorDocument(id := chunkId, documentId := documentId, content := ContentOf(metadata),
      embedding := embedding, metadata := metadata)
  }

  /** Every record is stored under its own id. */
  ghost predicate Keyed(docs: Documents)
  {
    forall k :: k in docs ==> docs[k].id == k
  }

  /** The documents with every record of documentId removed. */
  function WithoutDocument(docs: Documents, documentId: string): (r: Documents)
    ensures forall k :: k in r <==> k in docs && docs[k].documentId != documentId
    ensures forall k :: k in r ==> r[k] == docs[k]
  {
    map k | k in docs && docs[k].documentId != documentId :: docs[k]
  }

  /** Some record's embedding differs in length from the query: scoring it throws. */
  ghost predicate Mismatch(docs: Documents, query: seq<real>)
  {
    exists k :: k in docs && |docs[k].embedding| != |query|
  }

  /** order lists every key of docs exactly once: an enumeration of the dictionary. */
  ghost predicate Enumerates(order: seq<string>, docs: Documents)
  {
    && (forall i :: 0 <= i < |order| ==> order[i] in docs)
    && (forall i, j :: 0 <= i < j < |order| ==> order[i] != order[j])
    && (forall k :: k in docs ==> k in order)
  }

  /** The records in the order the keys list them. */
  function Values(docs: Documents, order: seq<string>): (ds: seq<VectorDocument>)
    requires forall i :: 0 <= i < |order| ==> order[i] in docs
    ensures |ds| == |order|
    ensures forall i :: 0 <= i < |order| ==> ds[i] == docs[order[i]]
    decreases |order|
  {
    if |order| == 0 then [] else Values(docs, order[..|order| - 1]) + [docs[order[|order| - 1]]]
  }

  /** Every record paired with its score against the query, in order. */
  function Scores(ds: seq<VectorDocument>, query: seq<real>, quotient: (real, real, real) -> real): (r: seq<Scored<VectorDocument>>)
    requires forall i :: 0 <= i < |ds| ==> |ds[i].embedding| == |query|
    ensures |r| == |ds|
    ensures forall i :: 0 <= i < |ds| ==> r[i] == Scored(ds[i], CosineOf(query, ds[i].embedding, quotient))
    decreases |ds|
  {
    if |ds| == 0 then []
    else
      var last := ds[|ds| - 1];
      Scores(ds[..|ds| - 1], query, quotient) + [Scored(last, CosineOf(query, last.embedding, quotient))]
  }

  /** Each scored record turned into a search result carrying its score, in order. */
  function Project(xs: seq<Scored<VectorDocument>>): (r: seq<SimilarityResult>)
    ensures |r| == |xs|
    ensures forall i :: 0 <= i < |xs| ==> r[i] == ToSimilarityResult(xs[i].item, xs[i].score)
    decreases |xs|
  {
    if |xs| == 0 then [] else Project(xs[..|xs| - 1]) + [ToSimilarityResult(xs[|xs| - 1].item, xs[|xs| - 1].score)]
  }

  /**
   * The state of the scoring loop: the keys not yet visited, and the keys visited in order,
   * each once and each with an embedding as long as the query.
   */
  ghost predicate Scanned(docs: Documents, query: seq<real>, remaining: set<string>, order: seq<string>)
  {
    && remaining <= docs.Keys
    && (forall i :: 0 <= i < |order| ==> order[i] in docs && order[i] !in remaining)
    && (forall i :: 0 <= i < |order| ==> |docs[order[i]].embedding| == |query|)
    && (forall i, j :: 0 <= i < j < |order| ==> order[i] != order[j])
    && (forall k :: k in docs ==> k in remaining || k in order)
  }

  /** Visiting a remaining key whose embedding fits the query keeps the loop state. */
  lemma ScannedStep(docs: Documents, query: seq<real>, remaining: set<string>, order: seq<string>, key: string)
    requires Scanned(docs, query, remaining, order)
    requires key in remaining && |docs[key].embedding| == |query|
    ensures Scanned(docs, query, remaining - {key}, order + [key])
  {
    var order' := order + [key];
    assert forall i :: 0 <= i < |order| ==> order'[i] == order[i];
    assert forall i :: 0 <= i < |order| ==> order[i] != key;
  }

  /** A finished scan enumerates the dictionary. */
  lemma ScannedAll(docs: Documents, query: seq<real>, order: seq<string>)
    requires Scanned(docs, query, {}, order)
    ensures Enumerates(order, docs) && !Mismatch(docs, query)
  {
    forall k | k in docs
      ensures |docs[k].embedding| == |query|
    {
      var i :| 0 <= i < |order| && order[i] == k;
    }
  }

  /** Listing one more key extends the scores by that record's score. */
  lemma ScoresSnoc(docs: Documents, order: seq<string>, key: string, query: seq<real>, quotient: (real, real, real) -> real)
    requires forall i :: 0 <= i < |order| ==> order[i] in docs && |docs[order[i]].embedding| == |query|
    requires key in docs && |docs[key].embedding| == |query|
    ensures Scores(Values(docs, order + [key]), query, quotient)
      == Scores(Values(docs, order), query, quotient) + [Scored(docs[key], CosineOf(query, docs[key].embedding, quotient))]
  {
    var ds := Values(docs, order);
    assert Values(docs, order + [key]) == ds + [docs[key]] by {
      assert (order + [key])[..|order|] == order;
    }
    assert (ds + [docs[key]])[..|ds|] == ds;
  }

  /** The search over records listed in ds: score, sort by non-increasing score, take topK, project. */
  function Search(ds: seq<VectorDocument>, query: seq<real>, topK: int, quotient: (real, real, real) -> real): seq<SimilarityResult>
    requires forall i :: 0 <= i < |ds| ==> |ds[i].embedding| == |query|
  {
    Project(TopK(Scores(ds, query, quotient), topK))
  }

  /** The result a record yields against the query: the record with its own score. */
  function Hit(d: VectorDocument, query: seq<real>, quotient: (real, real, real) -> real): SimilarityResult
    requires |d.embedding| == |query|
  {
    ToSimilarityResult(d, CosineOf(query, d.embedding, quotient))
  }

  /** The search returns min(topK, |ds|) results (none for topK <= 0), sorted by non-increasing score. */
  lemma SearchSorted(ds: seq<VectorDocument>, query: seq<real>, topK: int, quotient: (real, real, real) -> real)
    requires forall i :: 0 <= i < |ds| ==> |ds[i].embedding| == |query|
    ensures var r := Search(ds, query, topK, quotient);
      && |r| == (if topK <= 0 then 0 else if topK < |ds| then topK else |ds|)
      && (forall i, j :: 0 <= i < j < |r| ==> r[i].score >= r[j].score)
  {
    var t := TopK(Scores(ds, query, quotient), topK);
    TopKProperties(Scores(ds, query, quotient), topK);
    assert SortedDesc(t);
  }

  /** Every result is the hit of one of the listed records. */
  lemma SearchFromRecords(ds: seq<VectorDocument>, query: seq<real>, topK: int, quotient: (real, real, real) -> real)
    requires forall i :: 0 <= i < |ds| ==> |ds[i].embedding| == |query|
    ensures var r := Search(ds, query, topK, quotient);
      forall i :: 0 <= i < |r| ==> exists j :: 0 <= j < |ds| && r[i] == Hit(ds[j], query, quotient)
  {
    var sc := Scores(ds, query, quotient);
    var t := TopK(sc, topK);
    var r := Search(ds, query, topK, quotient);
    TopKMembers(sc, topK);
    forall i | 0 <= i < |r|
      ensures exists j :: 0 <= j < |ds| && r[i] == Hit(ds[j], query, quotient)
    {
      ScoredMember(ds, query, quotient, t[i]);
    }
  }

  /** A scored record is the score of a listed record. */
  lemma ScoredMember(ds: seq<VectorDocument>, query: seq<real>, quotient: (real, real, real) -> real, x: Scored<VectorDocument>)
    requires forall i :: 0 <= i < |ds| ==> |ds[i].embedding| == |query|
    requires x in Scores(ds, query, quotient)
    ensures exists j :: 0 <= j < |ds| && ToSimilarityResult(x.item, x.score) == Hit(ds[j], query, quotient)
  {
    var sc := Scores(ds, query, quotient);
    var j :| 0 <= j < |sc| && sc[j] == x;
    assert ToSimilarityResult(x.item, x.score) == Hit(ds[j], query, quotient);
  }

  /** A listed record whose hit is not among the results scores no higher than any result. */
  lemma SearchDominates(ds: seq<VectorDocument>, query: seq<real>, topK: int, quotient: (real, real, real) -> real)
    requires forall i :: 0 <= i < |ds| ==> |ds[i].embedding| == |query|
    ensures var r := Search(ds, query, topK, quotient);
      forall j, i :: 0 <= j < |ds| && 0 <= i < |r| && Hit(ds[j], query, quotient) !in r ==>
        Hit(ds[j], query, quotient).score <= r[i].score
  {
    var sc := Scores(ds, query, quotient);
    var t := TopK(sc, topK);
    var r := Search(ds, query, topK, quotient);
    TopKDominates(sc, topK);
    forall j, i | 0 <= j < |ds| && 0 <= i < |r| && Hit(ds[j], query, quotient) !in r
      ensures Hit(ds[j], query, quotient).score <= r[i].score
    {
      var y := sc[j];
      assert y in sc;
    }
  }

  /** With every record stored under its own id, each result names, by its chunk id, the record it was scored from. */
  lemma SearchKeyed(docs: Documents, order: seq<string>, query: seq<real>, topK: int, quotient: (real, real, real) -> real)
    requires Keyed(docs) && Enumerates(order, docs) && !Mismatch(docs, query)
    ensures var ds := Values(docs, order);
      forall i :: 0 <= i < |ds| ==> |ds[i].embedding| == |query|
    ensures var r := Search(Values(docs, order), query, topK, quotient);
      forall i :: 0 <= i < |r| ==> r[i].chunkId in docs && r[i] == Hit(docs[r[i].chunkId], query, quotient)
  {
    var ds := Values(docs, order);
    ValuesMatchQuery(docs, order, query);
    var r := Search(ds, query, topK, quotient);
    SearchFromRecords(ds, query, topK, quotient);
    forall i | 0 <= i < |r|
      ensures r[i].chunkId in docs && r[i] == Hit(docs[r[i].chunkId], query, quotient)
    {
      ResultKeyed(docs, order, query, quotient, r[i]);
    }
  }

  /** A result that is the hit of some listed record names that record by its chunk id. */
  lemma ResultKeyed(docs: Documents, order: seq<string>, query: seq<real>, quotient: (real, real, real) -> real, x: SimilarityResult)
    requires Keyed(docs) && (forall i :: 0 <= i < |order| ==> order[i] in docs)
    requires forall i :: 0 <= i < |Values(docs, order)| ==> |Values(docs, order)[i].embedding| == |query|
    requires exists j :: 0 <= j < |Values(docs, order)| && x == Hit(Values(docs, order)[j], query, quotient)
    ensures x.chunkId in docs && x == Hit(docs[x.chunkId], query, quotient)
  {
    var ds := Values(docs, order);
    var j :| 0 <= j < |ds| && x == Hit(ds[j], query, quotient);
    HitKeyed(docs, order, query, quotient, j);
  }

  /** Without a mismatch, every listed record has the query's length. */
  lemma ValuesMatchQuery(docs: Documents, order: seq<string>, query: seq<real>)
    requires Enumerates(order, docs) && !Mismatch(docs, query)
    ensures forall i :: 0 <= i < |Values(docs, order)| ==> |Values(docs, order)[i].embedding| == |query|
  {
    var ds := Values(docs, order);
    forall i | 0 <= i < |ds|
      ensures |ds[i].embedding| == |query|
    {
      assert order[i] in docs;
    }
  }

  /** The hit of the j-th listed record names that record by its chunk id. */
  lemma HitKeyed(docs: Documents, order: seq<string>, query: seq<real>, quotient: (real, real, real) -> real, j: nat)
    requires Keyed(docs) && (forall i :: 0 <= i < |order| ==> order[i] in docs) && j < |order|
    requires |docs[order[j]].embedding| == |query|
    ensures var x := Hit(Values(docs, order)[j], query, quotient);
      x.chunkId in docs && x == Hit(docs[x.chunkId], query, quotient)
  {
    assert Values(docs, order)[j] == docs[order[j]] && docs[order[j]].id == order[j];
  }

  /** Storing under an existing chunk id replaces that record: the first store leaves no trace. */
  lemma StoreReplaces(docs: Documents, d1: VectorDocument, d2: VectorDocument)
    requires d1.id == d2.id
    ensures docs[d1.id := d1][d2.id := d2] == docs[d2.id := d2]
  {
  }

  /** Deleting a document that has no record changes nothing; deleting twice is deleting once. */
  lemma DeleteAbsent(docs: Documents, documentId: string)
    requires forall k :: k in docs ==> docs[k].documentId != documentId
    ensures WithoutDocument(docs, documentId) == docs
  {
  }

  lemma DeleteIdempotent(docs: Documents, documentId: string)
    ensures WithoutDocument(WithoutDocument(docs, documentId), documentId) == WithoutDocument(docs, documentId)
  {
  }

  class InMemoryVectorDatabase {
    var documents: Documents

    ghost predicate Valid()
      reads this
    {
      Keyed(documents)
    }

    constructor()
      ensures documents == map[] && Valid()
    {
      documents := map[];
    }

    /** An upsert by chunk id: the record is stored under its chunk id, every other key is left as it was. */
    method StoreEmbedding(documentId: string, chunkId: string, embedding: seq<real>, metadata: Metadata)
      requires Valid()
      modifies this
      ensures documents == old(documents)[chunkId := NewDocument(documentId, chunkId, embedding, metadata)]
      ensures Valid()
    {
      documents := documents[chunkId := NewDocument(documentId, chunkId, embedding, metadata)];
    }

    /**
     * Scores every record in the dictionary's enumeration order, ghost `order`. The search fails
     * exactly when some record's embedding length differs from the query's; otherwise it is the
     * search over the records in that order.
     */
    method FindSimilar(query: seq<real>, topK: int, quotient: (real, real, real) -> real)
      returns (r: Result<seq<SimilarityResult>>, ghost order: seq<string>)
      requires Valid()
      ensures r.Failure? <==> Mismatch(documents, query)
      ensures r.Failure? ==> r.error == MismatchMessage
      ensures r.Success? ==>
        && Enumerates(order, documents)
        && !Mismatch(documents, query)
        && r.value == Search(Values(documents, order), query, topK, quotient)
      ensures r.Success? ==> forall i :: 0 <= i < |r.value| ==>
        r.value[i].chunkId in documents && r.value[i] == Hit(documents[r.value[i].chunkId], query, quotient)
    {
      var results: seq<Scored<VectorDocument>> := [];
      var remaining := documents.Keys;
      order := [];
      while remaining != {}
        invariant Scanned(documents, query, remaining, order)
        invariant results == Scores(Values(documents, order), query, quotient)
        decreases remaining
      {
        var key :| key in remaining;
        var doc := documents[key];
        var score := CosineSimilarity(query, doc.embedding, quotient);
        if score.Failure? {
          return Failure(score.error), order;
        }
        ScoresSnoc(documents, order, key, query, quotient);
        ScannedStep(documents, query, remaining, order, key);
        results := results + [Scored(doc, score.value)];
        order := order + [key];
        remaining := remaining - {key};
      }
      ScannedAll(documents, query, order);
      r := Success(Project(TopK(results, topK)));
      SearchKeyed(documents, order, query, topK, quotient);
    }

    /** Collects the keys of the document's records, then removes them one at a time. */
    method DeleteDocument(documentId: string)
      requires Valid()
      modifies this
      ensures documents == WithoutDocument(old(documents), documentId)
      ensures Valid()
    {
      var keysToRemove := set k | k in documents && documents[k].documentId == documentId;
      ghost var original := documents;
      var pending := keysToRemove;
      while pending != {}
        invariant pending <= keysToRemove
        invariant documents == original - (keysToRemove - pending)
        decreases pending
      {
        var key :| key in pending;
        documents := documents - {key};
        pending := pending - {key};
      }
      assert documents == WithoutDocument(original, documentId);
    }
  }
}
