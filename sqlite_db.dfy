/**
 * The SQLite vector store, the one the application registers: a table of rows, each stored
 * under a fresh id. Storing appends a row, searching scores every row in table order and keeps
 * the best topK, deleting removes every row of a document. A row whose embedding length differs
 * from the query's scores 0 instead of failing the search.
 */
module SqliteVectorDb {
  import opened Wrappers
  import opened Models
  import opened Similarity
  import opened Ranking

  /** The message of the exception an out-of-range array or span index throws. */
  const IndexOutOfRangeMessage: string := "Index was outside the bounds of the array."

  /** The number of leading embedding components the debug log reads eagerly. */
  const LoggedComponents: nat := 5

  /** A table row; `id` is the fresh identifier the row is created with. */
  datatype Row = Row(
    id: nat,
    documentId: string,
    chunkId: string,
    chunkIndex: int,
    content: string,
    embedding: seq<real>,
    metadata: Metadata)

  /** CosineSimilarity: 0 for vectors of different lengths, otherwise the cosine of the sums. */
  function LenientScore(v1: seq<real>, v2: seq<real>, quotient: (real, real, real) -> real): real
  {
    if |v1| != |v2| then 0.0 else CosineOf(v1, v2, quotient)
  }

  /** The score loop: lengths are compared first and a mismatch scores 0. */
  method CosineSimilarity(v1: seq<real>, v2: seq<real>, quotient: (real, real, real) -> real) returns (score: real)
    ensures score == LenientScore(v1, v2, quotient)
  {
    if |v1| != |v2| {
      return 0.0;
    }
    var dotProduct, mag1, mag2 := Sums(v1, v2);
    if mag1 == 0.0 || mag2 == 0.0 {
      return 0.0;
    }
    return quotient(dotProduct, mag1, mag2);
  }

  /** A length mismatch and a zero vector on either side both score 0; otherwise the score is the cosine. */
  lemma LenientScoreCases(v1: seq<real>, v2: seq<real>, quotient: (real, real, real) -> real)
    ensures |v1| != |v2| ==> LenientScore(v1, v2, quotient) == 0.0
    ensures |v1| == |v2| && (IsZero(v1) || IsZero(v2)) ==> LenientScore(v1, v2, quotient) == 0.0
    ensures |v1| == |v2| ==> LenientScore(v1, v2, quotient) == CosineOf(v1, v2, quotient)
  {
    if |v1| == |v2| && (IsZero(v1) || IsZero(v2)) {
      ZeroVectorScoresZero(v1, v2, quotient);
    }
  }

  /** Every row paired with its score against the query, in table order. */
  function Scores(rows: seq<Row>, query: seq<real>, quotient: (real, real, real) -> real): (r: seq<Scored<Row>>)
    ensures |r| == |rows|
    ensures forall i :: 0 <= i < |rows| ==> r[i] == Scored(rows[i], LenientScore(query, rows[i].embedding, quotient))
    decreases |rows|
  {
    if |rows| == 0 then []
    else
      var last := rows[|rows| - 1];
      Scores(rows[..|rows| - 1], query, quotient) + [Scored(last, LenientScore(query, last.embedding, quotient))]
  }

  /** The result for a row: its document id, chunk id, content and metadata, with the given score. */
  function ResultOf(row: Row, score: real): SimilarityResult
  {
    SimilarityResult(documentId := row.documentId, chunkId := row.chunkId, content := row.content,
      score := score, metadata := row.metadata)
  }

  /** The projection of the scored rows, in order. */
  function Project(xs: seq<Scored<Row>>): (r: seq<SimilarityResult>)
    ensures |r| == |xs|
    ensures forall i :: 0 <= i < |xs| ==> r[i] == ResultOf(xs[i].item, xs[i].score)
    decreases |xs|
  {
    if |xs| == 0 then [] else Project(xs[..|xs| - 1]) + [ResultOf(xs[|xs| - 1].item, xs[|xs| - 1].score)]
  }

  /** Score every row, sort by non-increasing score, take topK, project. */
  function Search(rows: seq<Row>, query: seq<real>, topK: int, quotient: (real, real, real) -> real): seq<SimilarityResult>
  {
    Project(TopK(Scores(rows, query, quotient), topK))
  }

  /** The result a row yields against the query. */
  function Hit(row: Row, query: seq<real>, quotient: (real, real, real) -> real): SimilarityResult
  {
    ResultOf(row, LenientScore(query, row.embedding, quotient))
  }

  /** The search returns min(topK, |rows|) results (none for topK <= 0), sorted by non-increasing score. */
  lemma SearchSorted(rows: seq<Row>, query: seq<real>, topK: int, quotient: (real, real, real) -> real)
    ensures var r := Search(rows, query, topK, quotient);
      && |r| == (if topK <= 0 then 0 else if topK < |rows| then topK else |rows|)
      && (forall i, j :: 0 <= i < j < |r| ==> r[i].score >= r[j].score)
  {
    var t := TopK(Scores(rows, query, quotient), topK);
    TopKProperties(Scores(rows, query, quotient), topK);
    assert SortedDesc(t);
  }

  /** Every result is the hit of a row of the table. */
  lemma SearchFromRows(rows: seq<Row>, query: seq<real>, topK: int, quotient: (real, real, real) -> real)
    ensures var r := Search(rows, query, topK, quotient);
      forall i :: 0 <= i < |r| ==> exists j :: 0 <= j < |rows| && r[i] == Hit(rows[j], query, quotient)
  {
    var sc := Scores(rows, query, quotient);
    var t := TopK(sc, topK);
    var r := Search(rows, query, topK, quotient);
    TopKMembers(sc, topK);
    forall i | 0 <= i < |r|
      ensures exists j :: 0 <= j < |rows| && r[i] == Hit(rows[j], query, quotient)
    {
      ScoredMember(rows, query, quotient, t[i]);
    }
  }

  lemma ScoredMember(rows: seq<Row>, query: seq<real>, quotient: (real, real, real) -> real, x: Scored<Row>)
    requires x in Scores(rows, query, quotient)
    ensures exists j :: 0 <= j < |rows| && ResultOf(x.item, x.score) == Hit(rows[j], query, quotient)
  {
    var sc := Scores(rows, query, quotient);
    var j :| 0 <= j < |sc| && sc[j] == x;
    assert ResultOf(x.item, x.score) == Hit(rows[j], query, quotient);
  }

  /** A row whose scored entry is not returned scores no higher than any result. */
  lemma SearchDominates(rows: seq<Row>, query: seq<real>, topK: int, quotient: (real, real, real) -> real)
    ensures var r := Search(rows, query, topK, quotient);
      var t := TopK(Scores(rows, query, quotient), topK);
      forall j, i :: 0 <= j < |rows| && 0 <= i < |r| && Scored(rows[j], LenientScore(query, rows[j].embedding, quotient)) !in t ==>
        LenientScore(query, rows[j].embedding, quotient) <= r[i].score
  {
    var sc := Scores(rows, query, quotient);
    TopKDominates(sc, topK);
    forall j | 0 <= j < |rows|
      ensures sc[j] in sc
    {
    }
  }

  /** The search does not depend on the rows' embedding lengths: a mismatching row is ranked with score 0. */
  lemma MismatchRanksAtZero(rows: seq<Row>, query: seq<real>, quotient: (real, real, real) -> real)
    ensures forall i :: 0 <= i < |rows| && |rows[i].embedding| != |query| ==>
      Scores(rows, query, quotient)[i].score == 0.0
  {
  }

  /** The row Store writes: ChunkIndex from the metadata (0 when absent), Content from it ("" when absent). */
  function NewRow(id: nat, documentId: string, chunkId: string, chunkIndex: int, embedding: seq<real>, metadata: Metadata): Row
  {
    Row(id := id, documentId := documentId, chunkId := chunkId, chunkIndex := chunkIndex,
      content := ContentOf(metadata), embedding := embedding, metadata := metadata)
  }

  /**
   * Why storing a chunk fails, if it does, in the order the steps run: the ChunkIndex conversion,
   * the log's read of embedding[0..4], then the save.
   */
  function StoreError(metadata: Metadata, embedding: seq<real>, saveError: Option<string>): Option<string>
  {
    var chunkIndex := ChunkIndexOf(metadata);
    if chunkIndex.Failure? then Some(chunkIndex.error)
    else if |embedding| < LoggedComponents then Some(IndexOutOfRangeMessage)
    else saveError
  }

  /** The rows of other documents, in table order. */
  function WithoutDocument(rows: seq<Row>, documentId: string): (r: seq<Row>)
    ensures forall x :: x in r <==> x in rows && x.documentId != documentId
    ensures |r| <= |rows|
    decreases |rows|
  {
    if |rows| == 0 then []
    else
      var rest := WithoutDocument(rows[..|rows| - 1], documentId);
      var last := rows[|rows| - 1];
      assert rows == rows[..|rows| - 1] + [last];
      if last.documentId == documentId then rest else rest + [last]
  }

  /** Deleting a document that has no row keeps the table as it is. */
  lemma {:induction false} DeleteAbsent(rows: seq<Row>, documentId: string)
    requires forall i :: 0 <= i < |rows| ==> rows[i].documentId != documentId
    ensures WithoutDocument(rows, documentId) == rows
    decreases |rows|
  {
    if |rows| > 0 {
      DeleteAbsent(rows[..|rows| - 1], documentId);
      assert rows == rows[..|rows| - 1] + [rows[|rows| - 1]];
    }
  }

  /** Deleting distributes over the table's order: the rows kept are those of the parts. */
  lemma {:induction false} DeleteConcat(a: seq<Row>, b: seq<Row>, documentId: string)
    ensures WithoutDocument(a + b, documentId) == WithoutDocument(a, documentId) + WithoutDocument(b, documentId)
    decreases |b|
  {
    if |b| > 0 {
      var b0 := b[..|b| - 1];
      DeleteConcat(a, b0, documentId);
      var last := b[|b| - 1];
      var tail := if last.documentId == documentId then [] else [last];
      assert (a + b)[..|a + b| - 1] == a + b0;
      assert (a + b)[|a + b| - 1] == last;
      assert WithoutDocument(a + b, documentId) == WithoutDocument(a + b0, documentId) + tail;
      assert WithoutDocument(b, documentId) == WithoutDocument(b0, documentId) + tail;
      assert (WithoutDocument(a, documentId) + WithoutDocument(b0, documentId)) + tail
        == WithoutDocument(a, documentId) + (WithoutDocument(b0, documentId) + tail);
    } else {
      assert a + b == a;
    }
  }

  /** The number of rows stored for a chunk id. */
  function CopiesOf(rows: seq<Row>, chunkId: string): nat
    decreases |rows|
  {
    if |rows| == 0 then 0
    else CopiesOf(rows[..|rows| - 1], chunkId) + (if rows[|rows| - 1].chunkId == chunkId then 1 else 0)
  }

  /** Appending the row of a chunk adds one copy of it: storing a chunk twice leaves two rows. */
  lemma StoreAddsCopy(rows: seq<Row>, row: Row)
    ensures CopiesOf(rows + [row], row.chunkId) == CopiesOf(rows, row.chunkId) + 1
  {
    assert (rows + [row])[..|rows|] == rows;
  }

  class SqliteVectorDatabase {
    var rows: seq<Row>
    var nextId: nat

    /** Every row id is below the next fresh id, and ids are distinct. */
    ghost predicate Valid()
      reads this
    {
      FreshIds(rows, nextId)
    }

    constructor()
      ensures rows == [] && Valid()
    {
      rows := [];
      nextId := 0;
    }

    /**
     * StoreEmbeddingAsync. The entity's ChunkIndex conversion runs first, then the debug log reads
     * embedding[0..4], then the save is committed; saveError is the failure of SaveChanges, if any,
     * after which the transaction is rolled back. Any failure leaves the table unchanged; success
     * appends exactly one row under a fresh id.
     */
    method StoreEmbedding(documentId: string, chunkId: string, embedding: seq<real>, metadata: Metadata,
                          saveError: Option<string>) returns (error: Option<string>)
      requires Valid()
      modifies this
      ensures Valid()
      ensures ChunkIndexOf(metadata).Failure? ==> error == Some(ChunkIndexOf(metadata).error)
      ensures ChunkIndexOf(metadata).Success? && |embedding| < LoggedComponents ==> error == Some(IndexOutOfRangeMessage)
      ensures ChunkIndexOf(metadata).Success? && |embedding| >= LoggedComponents ==> error == saveError
      ensures error == StoreError(metadata, embedding, saveError)
      ensures error.Some? ==> rows == old(rows) && nextId == old(nextId)
      ensures error.None? ==>
        && rows == old(rows) + [NewRow(old(nextId), documentId, chunkId, ChunkIndexOf(metadata).value, embedding, metadata)]
        && nextId == old(nextId) + 1
    {
      var chunkIndex := ChunkIndexOf(metadata);
      if chunkIndex.Failure? {
        return Some(chunkIndex.error);
      }
      var entity := NewRow(nextId, documentId, chunkId, chunkIndex.value, embedding, metadata);
      if |embedding| < LoggedComponents {
        return Some(IndexOutOfRangeMessage);
      }
      if saveError.Some? {
        return saveError;
      }
      rows := rows + [entity];
      nextId := nextId + 1;
      return None;
    }

    /** FindSimilarAsync: the query log reads query[0..4]; then every row is scored in table order. */
    method FindSimilar(query: seq<real>, topK: int, quotient: (real, real, real) -> real)
      returns (r: Result<seq<SimilarityResult>>)
      ensures |query| < LoggedComponents ==> r == Failure(IndexOutOfRangeMessage)
      ensures |query| >= LoggedComponents ==> r == Success(Search(rows, query, topK, quotient))
    {
      var allDocs := rows;
      if |query| < LoggedComponents {
        return Failure(IndexOutOfRangeMessage);
      }
      var allScores: seq<Scored<Row>> := [];
      for i := 0 to |allDocs|
        invariant allScores == Scores(allDocs[..i], query, quotient)
      {
        var score := CosineSimilarity(query, allDocs[i].embedding, quotient);
        assert allDocs[..i + 1][..i] == allDocs[..i];
        allScores := allScores + [Scored(allDocs[i], score)];
      }
      assert allDocs[..|allDocs|] == allDocs;
      allScores := OrderByDescending(allScores);
      r := Success(Project(Take(allScores, topK)));
    }

    /** DeleteDocumentAsync: the document's rows are removed and the change saved; a failed save changes nothing. */
    method DeleteDocument(documentId: string, saveError: Option<string>) returns (error: Option<string>)
      requires Valid()
      modifies this
      ensures Valid()
      ensures error == saveError
      ensures error.None? ==> rows == WithoutDocument(old(rows), documentId)
      ensures error.Some? ==> rows == old(rows)
      ensures nextId == old(nextId)
    {
      if saveError.Some? {
        return saveError;
      }
      ghost var before := rows;
      rows := WithoutDocument(rows, documentId);
      KeptRowsValid(before, documentId, nextId);
      return None;
    }
  }

  /** Every row id is below bound, and no two rows share an id. */
  ghost predicate FreshIds(rows: seq<Row>, bound: nat)
  {
    && (forall i :: 0 <= i < |rows| ==> rows[i].id < bound)
    && (forall i, j :: 0 <= i < j < |rows| ==> rows[i].id != rows[j].id)
  }

  /** Removing rows keeps the ids below the bound and distinct. */
  lemma {:induction false} KeptRowsValid(rows: seq<Row>, documentId: string, bound: nat)
    requires FreshIds(rows, bound)
    ensures FreshIds(WithoutDocument(rows, documentId), bound)
    decreases |rows|
  {
    if |rows| > 0 {
      var init := rows[..|rows| - 1];
      var last := rows[|rows| - 1];
      KeptRowsValid(init, documentId, bound);
      var rest := WithoutDocument(init, documentId);
      forall i | 0 <= i < |rest|
        ensures rest[i].id != last.id
      {
        assert rest[i] in init;
        var k :| 0 <= k < |init| && init[k] == rest[i];
        assert rows[k] == rest[i];
      }
      if last.documentId != documentId {
        var r := rest + [last];
        assert forall i :: 0 <= i < |rest| ==> r[i] == rest[i];
      }
    }
  }
}
