/** The record the in-memory store keeps for one chunk, and its projection into a search result. */
module VectorDocuments {
  import opened Models

  datatype VectorDocument = VectorDocument(
    id: string,
    documentId: string,
    content: string,
    embedding: seq<real>,
    metadata: Metadata)

  /** The search result for a record: its fields, with the record's id as the chunk id, and the given score. */
  function ToSimilarityResult(d: VectorDocument, score: real): (r: SimilarityResult)
    ensures r.documentId == d.documentId && r.chunkId == d.id && r.content == d.content
    ensures r.score == score && r.metadata == d.metadata
  {
    SimilarityResult(documentId := d.documentId, chunkId := d.id, content := d.content,
      score := score, metadata := d.metadata)
  }

  /** The projection loses only the embedding: two results agree exactly when the records agree but for it, and the scores agree. */
  lemma ProjectionInjective(d1: VectorDocument, s1: real, d2: VectorDocument, s2: real)
    ensures ToSimilarityResult(d1, s1) == ToSimilarityResult(d2, s2) <==> d1.(embedding := d2.embedding) == d2 && s1 == s2
  {
  }
}
