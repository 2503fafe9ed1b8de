/**
 * The document endpoints. Upload picks a processor by the file's extension, cuts the file into
 * chunks under one fresh document id, then embeds and stores the chunks one by one in order,
 * stopping at the first failure; delete hands the document id to the store.
 *
 * The store is the registered SQLite one. `embed` is the embedding gateway, `saveErrors(k)` the
 * failure, if any, of the save for the k-th chunk, and `documentId` and `ids` the fresh
 * identifiers the controller and the processor generate.
 */
module DocumentController {
  import opened Wrappers
  import opened Strings
  import opened Models
  import opened DocumentProcessorFactory
  import Text = TextDocumentProcessor
  import Pdf = PdfDocumentProcessor
  import opened SqliteVectorDb

  /** An uploaded file: its name and length, its content decoded as text, and its pages, or why the PDF could not be read. */
  datatype UploadedFile = UploadedFile(fileName: string, length: nat, text: string, pages: Result<seq<string>>)

  datatype Response =
    | BadRequest(message: string)
    | Uploaded(documentId: string, fileName: string, chunksProcessed: nat, message: string)
    | Deleted(message: string)
    | ServerError(error: string)

  /** What the chosen processor makes of the file. */
  function ProcessorChunks(p: Processor, file: UploadedFile, documentId: string, nl: string, ids: nat -> string): Result<seq<DocumentChunk>>
  {
    match p
    case TextProcessor => Success(Text.TextChunks(file.text, file.fileName, documentId, nl, ids))
    case PdfProcessor =>
      match file.pages
      case Failure(e) => Failure(e)
      case Success(pages) => Success(Pdf.PdfChunks(pages, file.fileName, documentId, nl, ids))
  }

  /** Why embedding and storing chunk k fails, if it does. */
  function ChunkError(chunks: seq<DocumentChunk>, k: nat, embed: string -> Result<seq<real>>, saveErrors: nat -> Option<string>): Option<string>
    requires k < |chunks|
  {
    match embed(chunks[k].content)
    case Failure(e) => Some(e)
    case Success(embedding) => StoreError(chunks[k].metadata, embedding, saveErrors(k))
  }

  /** The number of chunks the loop gets through from chunk i on: up to the first failing chunk, or all of them. */
  function Processed(chunks: seq<DocumentChunk>, i: nat, embed: string -> Result<seq<real>>, saveErrors: nat -> Option<string>): nat
    requires i <= |chunks|
    decreases |chunks| - i
  {
    if i == |chunks| then i
    else if ChunkError(chunks, i, embed, saveErrors).Some? then i
    else Processed(chunks, i + 1, embed, saveErrors)
  }

  /** The loop stops at the first failing chunk: every chunk before it went through. */
  lemma {:induction false} ProcessedIsFirstFailure(chunks: seq<DocumentChunk>, i: nat, embed: string -> Result<seq<real>>, saveErrors: nat -> Option<string>)
    requires i <= |chunks|
    ensures var n := Processed(chunks, i, embed, saveErrors);
      && i <= n <= |chunks|
      && (forall k :: i <= k < n ==> ChunkError(chunks, k, embed, saveErrors).None?)
      && (n < |chunks| ==> ChunkError(chunks, n, embed, saveErrors).Some?)
    decreases |chunks| - i
  {
    if i < |chunks| && ChunkError(chunks, i, embed, saveErrors).None? {
      ProcessedIsFirstFailure(chunks, i + 1, embed, saveErrors);
    }
  }

  /** A count that matches the loop's stopping condition is the number processed. */
  lemma {:induction false} ProcessedUnique(chunks: seq<DocumentChunk>, i: nat, n: nat, embed: string -> Result<seq<real>>, saveErrors: nat -> Option<string>)
    requires i <= n <= |chunks|
    requires forall k :: i <= k < n ==> ChunkError(chunks, k, embed, saveErrors).None?
    requires n < |chunks| ==> ChunkError(chunks, n, embed, saveErrors).Some?
    ensures Processed(chunks, i, embed, saveErrors) == n
    decreases n - i
  {
    if i < n {
      ProcessedUnique(chunks, i + 1, n, embed, saveErrors);
    }
  }

  /** A chunk that goes through has an embedding and a readable chunk index. */
  lemma ChunkGoesThrough(chunks: seq<DocumentChunk>, k: nat, embed: string -> Result<seq<real>>, saveErrors: nat -> Option<string>)
    requires k < |chunks|
    ensures ChunkError(chunks, k, embed, saveErrors).None? <==>
      && embed(chunks[k].content).Success?
      && ChunkIndexOf(chunks[k].metadata).Success?
      && |embed(chunks[k].content).value| >= LoggedComponents
      && saveErrors(k).None?
  {
  }

  /** The row the store adds for chunk k, under id. */
  function ChunkRow(chunks: seq<DocumentChunk>, k: nat, documentId: string, embed: string -> Result<seq<real>>,
                    saveErrors: nat -> Option<string>, id: nat): Row
    requires k < |chunks| && ChunkError(chunks, k, embed, saveErrors).None?
  {
    ChunkGoesThrough(chunks, k, embed, saveErrors);
    NewRow(id, documentId, chunks[k].id, ChunkIndexOf(chunks[k].metadata).value,
           embed(chunks[k].content).value, chunks[k].metadata)
  }

  /** The rows of the first n chunks, stored in order under fresh ids from firstId on. */
  function StoredRows(chunks: seq<DocumentChunk>, n: nat, documentId: string, embed: string -> Result<seq<real>>,
                      saveErrors: nat -> Option<string>, firstId: nat): seq<Row>
    requires n <= |chunks|
    requires forall k :: 0 <= k < n ==> ChunkError(chunks, k, embed, saveErrors).None?
  {
    seq(n, k requires 0 <= k < n => ChunkRow(chunks, k, documentId, embed, saveErrors, firstId + k))
  }

  /**
   * UploadDocument. A missing or empty file and an unsupported extension are rejected before
   * anything is processed or stored; an unreadable PDF, a failed embedding and a failed store
   * are server errors; chunks stored before a failure stay stored.
   */
  method UploadDocument(file: Option<UploadedFile>, processors: seq<Processor>, db: SqliteVectorDatabase,
                        embed: string -> Result<seq<real>>, saveErrors: nat -> Option<string>,
                        documentId: string, ids: nat -> string, nl: string) returns (response: Response)
    requires db.Valid()
    modifies db
    ensures db.Valid()
    ensures file.None? || file.value.length == 0 ==>
      response == BadRequest("No file uploaded") && db.rows == old(db.rows)
    ensures file.Some? && file.value.length > 0 && GetProcessor(processors, file.value.fileName).None? ==>
      response == BadRequest("Unsupported file type: " + Extension(file.value.fileName)) && db.rows == old(db.rows)
    ensures file.Some? && file.value.length > 0 && GetProcessor(processors, file.value.fileName).Some? ==>
      var chunks := ProcessorChunks(GetProcessor(processors, file.value.fileName).value, file.value, documentId, nl, ids);
      && (chunks.Failure? ==> response == ServerError(chunks.error) && db.rows == old(db.rows))
      && (chunks.Success? && chunks.value == [] ==>
            response == Uploaded(documentId, file.value.fileName, 0, "No text content could be extracted from " + file.value.fileName)
            && db.rows == old(db.rows))
      && (chunks.Success? && chunks.value != [] ==>
            var n := Processed(chunks.value, 0, embed, saveErrors);
            ProcessedIsFirstFailure(chunks.value, 0, embed, saveErrors);
            && db.rows == old(db.rows) + StoredRows(chunks.value, n, documentId, embed, saveErrors, old(db.nextId))
            && db.nextId == old(db.nextId) + n
            && (n == |chunks.value| ==>
                  response == Uploaded(documentId, file.value.fileName, n,
                    "Successfully processed " + NatToString(n) + " chunks from " + file.value.fileName))
            && (n < |chunks.value| ==> response == ServerError(ChunkError(chunks.value, n, embed, saveErrors).value)))
  {
    if file.None? || file.value.length == 0 {
      return BadRequest("No file uploaded");
    }
    var f := file.value;
    var processor := GetProcessor(processors, f.fileName);
    if processor.None? {
      return BadRequest("Unsupported file type: " + Extension(f.fileName));
    }
    var chunksList: seq<DocumentChunk>;
    match processor.value {
      case TextProcessor =>
        chunksList := Text.ProcessDocument(f.text, f.fileName, documentId, nl, ids);
      case PdfProcessor =>
        if f.pages.Failure? {
          return ServerError(f.pages.error);
        }
        chunksList := Pdf.ProcessDocument(f.pages.value, f.fileName, documentId, nl, ids);
    }
    if |chunksList| == 0 {
      return Uploaded(documentId, f.fileName, 0, "No text content could be extracted from " + f.fileName);
    }
    var processedChunks, error := StoreChunks(chunksList, db, embed, saveErrors, documentId);
    if error.Some? {
      return ServerError(error.value);
    }
    response := Uploaded(documentId, f.fileName, processedChunks,
      "Successfully processed " + NatToString(processedChunks) + " chunks from " + f.fileName);
  }

  /**
   * The upload's loop over the chunks: embed the chunk's content, store it, and stop at the first
   * failure with its error; the chunks already stored stay stored.
   */
  method StoreChunks(chunks: seq<DocumentChunk>, db: SqliteVectorDatabase, embed: string -> Result<seq<real>>,
                     saveErrors: nat -> Option<string>, documentId: string) returns (processed: nat, error: Option<string>)
    requires db.Valid()
    modifies db
    ensures db.Valid()
    ensures processed == Processed(chunks, 0, embed, saveErrors)
    ensures processed <= |chunks| && forall k :: 0 <= k < processed ==> ChunkError(chunks, k, embed, saveErrors).None?
    ensures db.rows == old(db.rows) + StoredRows(chunks, processed, documentId, embed, saveErrors, old(db.nextId))
    ensures db.nextId == old(db.nextId) + processed
    ensures processed == |chunks| ==> error.None?
    ensures processed < |chunks| ==> error == ChunkError(chunks, processed, embed, saveErrors) && error.Some?
  {
    ghost var rows0, id0 := db.rows, db.nextId;
    processed := 0;
    while processed < |chunks|
      invariant processed <= |chunks|
      invariant db.Valid()
      invariant forall k :: 0 <= k < processed ==> ChunkError(chunks, k, embed, saveErrors).None?
      invariant db.rows == rows0 + StoredRows(chunks, processed, documentId, embed, saveErrors, id0)
      invariant db.nextId == id0 + processed
      decreases |chunks| - processed
    {
      var chunk := chunks[processed];
      var embedding := embed(chunk.content);
      if embedding.Failure? {
        ProcessedUnique(chunks, 0, processed, embed, saveErrors);
        return processed, Some(embedding.error);
      }
      error := db.StoreEmbedding(documentId, chunk.id, embedding.value, chunk.metadata, saveErrors(processed));
      if error.Some? {
        ProcessedUnique(chunks, 0, processed, embed, saveErrors);
        return;
      }
      StoredRowsSnoc(chunks, processed, documentId, embed, saveErrors, id0);
      processed := processed + 1;
    }
    ProcessedUnique(chunks, 0, processed, embed, saveErrors);
    error := None;
  }

  /** Storing one more chunk appends its row. */
  lemma StoredRowsSnoc(chunks: seq<DocumentChunk>, n: nat, documentId: string, embed: string -> Result<seq<real>>,
                       saveErrors: nat -> Option<string>, firstId: nat)
    requires n < |chunks|
    requires forall k :: 0 <= k <= n ==> ChunkError(chunks, k, embed, saveErrors).None?
    ensures StoredRows(chunks, n + 1, documentId, embed, saveErrors, firstId)
      == StoredRows(chunks, n, documentId, embed, saveErrors, firstId)
         + [ChunkRow(chunks, n, documentId, embed, saveErrors, firstId + n)]
  {
  }

  /** The store can read each chunk's content and its position back from the chunk's metadata. */
  ghost predicate ReadsBack(chunks: seq<DocumentChunk>)
  {
    forall k :: 0 <= k < |chunks| ==>
      ContentOf(chunks[k].metadata) == chunks[k].content && ChunkIndexOf(chunks[k].metadata) == Success(k)
  }

  /**
   * For chunks that read back, the k-th stored row is the k-th chunk: the upload's document id,
   * the chunk's id, metadata and content, its position as chunk index, and a fresh id.
   */
  lemma StoredRowsAreChunks(chunks: seq<DocumentChunk>, n: nat, documentId: string, embed: string -> Result<seq<real>>,
                            saveErrors: nat -> Option<string>, firstId: nat)
    requires ReadsBack(chunks) && n <= |chunks|
    requires forall k :: 0 <= k < n ==> ChunkError(chunks, k, embed, saveErrors).None?
    ensures var rows := StoredRows(chunks, n, documentId, embed, saveErrors, firstId);
      forall k :: 0 <= k < n ==>
        && rows[k].id == firstId + k && rows[k].documentId == documentId
        && rows[k].chunkId == chunks[k].id && rows[k].metadata == chunks[k].metadata
        && rows[k].content == chunks[k].content && rows[k].chunkIndex == k
        && embed(chunks[k].content) == Success(rows[k].embedding)
  {
    var rows := StoredRows(chunks, n, documentId, embed, saveErrors, firstId);
    forall k | 0 <= k < n
      ensures && rows[k].id == firstId + k && rows[k].documentId == documentId
              && rows[k].chunkId == chunks[k].id && rows[k].metadata == chunks[k].metadata
              && rows[k].content == chunks[k].content && rows[k].chunkIndex == k
              && embed(chunks[k].content) == Success(rows[k].embedding)
    {
      ChunkGoesThrough(chunks, k, embed, saveErrors);
      assert ContentOf(chunks[k].metadata) == chunks[k].content && ChunkIndexOf(chunks[k].metadata) == Success(k);
      assert rows[k] == ChunkRow(chunks, k, documentId, embed, saveErrors, firstId + k);
    }
  }

  /** The text processor's chunks read back, as long as their indices fit an int. */
  lemma TextChunksReadBack(content: string, fileName: string, documentId: string, nl: string, ids: nat -> string)
    requires |Text.TextChunks(content, fileName, documentId, nl, ids)| <= Int32Max + 1
    ensures ReadsBack(Text.TextChunks(content, fileName, documentId, nl, ids))
  {
    var chunks := Text.TextChunks(content, fileName, documentId, nl, ids);
    forall k | 0 <= k < |chunks|
      ensures ContentOf(chunks[k].metadata) == chunks[k].content && ChunkIndexOf(chunks[k].metadata) == Success(k)
    {
      Text.MetadataReadsBack(documentId, chunks[k].content, k, fileName, ids(k));
    }
  }

  /** The PDF processor's chunks read back, as long as their indices fit an int. */
  lemma PdfChunksReadBack(pages: seq<string>, fileName: string, documentId: string, nl: string, ids: nat -> string)
    requires |Pdf.PdfChunks(pages, fileName, documentId, nl, ids)| <= Int32Max + 1
    ensures ReadsBack(Pdf.PdfChunks(pages, fileName, documentId, nl, ids))
  {
    var chunks := Pdf.PdfChunks(pages, fileName, documentId, nl, ids);
    forall k | 0 <= k < |chunks|
      ensures ContentOf(chunks[k].metadata) == chunks[k].content && ChunkIndexOf(chunks[k].metadata) == Success(k)
    {
      var (gs, nums) := Pdf.PdfGroups(pages, nl);
      assert chunks[k] == Pdf.CreateChunk(documentId, Join(gs[k], nl), k, fileName, nums[k], ids(k));
    }
  }

  /** DeleteDocument: the store deletes the document; only a failure of that call is a server error. */
  method DeleteDocument(documentId: string, db: SqliteVectorDatabase, saveError: Option<string>) returns (response: Response)
    requires db.Valid()
    modifies db
    ensures db.Valid()
    ensures saveError.None? ==>
      response == Deleted("Document " + documentId + " deleted successfully")
      && db.rows == WithoutDocument(old(db.rows), documentId)
    ensures saveError.Some? ==> response == ServerError(saveError.value) && db.rows == old(db.rows)
  {
    var error := db.DeleteDocument(documentId, saveError);
    if error.Some? {
      return ServerError(error.value);
    }
    return Deleted("Document " + documentId + " deleted successfully");
  }
}
