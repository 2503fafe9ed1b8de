# RAG chatbot retrieval pipeline in Dafny

This project models the retrieval pipeline of the RAG-Chatbot-ASPNET service and proves what
its parts promise. The pipeline has three stages and the code that connects them:

- **Paragraph chunking.** The plain-text and PDF document processors split text into
  paragraphs on `"\r\n\r\n"` / `"\n\n"` and drop empty pieces. They pack the paragraphs greedily
  into chunks of about 1000 UTF-16 code units and number the chunks from 0. The PDF processor keeps its
  buffer across pages and labels each chunk with a page number. Modules: `Paragraphs`,
  `Chunking`, `TextDocumentProcessor`, `PdfDocumentProcessor`.
- **Vector stores.** There are two brute-force stores.
  - The in-memory store is a dictionary keyed by chunk id (an upsert). It throws when an
    embedding's length differs from the query's.
  - The SQLite store is the registered one. It is a table of rows, each added under a fresh
    id. It scores a mismatching row 0.
  - Both score every record, sort by non-increasing score (a stable sort) and return the top K.
  - Modules: `Similarity`, `Ranking`, `VectorDocuments`, `InMemoryVectorDb`, `SqliteVectorDb`.
- **Answer orchestration** (`RagService`). The service embeds the question and searches for
  `MaxSources` results. It keeps those scoring at least `MinScore`, or answers with the
  no-results message when none pass. Otherwise it builds a prompt of numbered `[Source k]`
  blocks, asks the completion gateway and estimates tokens with integer division. Every failure
  is caught into an unsuccessful response.
- **Glue.**
  - `DocumentProcessorFactory` picks the first registered processor that accepts the file
    name's extension.
  - `DocumentController` validates the upload and chunks the file. It embeds and stores the
    chunks in order and stops at the first failure. Delete is delegated to the store.

The state the source updates in place is modelled imperatively:

- `InMemoryVectorDb.InMemoryVectorDatabase` is a class over a `map`.
- `SqliteVectorDb.SqliteVectorDatabase` is a class over a `seq` of rows and a fresh-id counter.
- The chunk loops, the prompt builder, the cosine sums and the upload loop are methods with
  loops.
- The response assembly, `RagService.AskQuestion`, is a method without a loop. It sets the
  response's fields one at a time and returns at the first failing step, as the source does.

Each such method is proved equal to a specification function. The promised properties are
proved about those functions as lemmas.

Strings are sequences of Unicode characters. Every length the source reads (`String.Length`,
`StringBuilder.Length`) is modelled as `Strings.Utf16Length`, the number of UTF-16 code units.
A character outside the Basic Multilingual Plane counts as two.

Everything that is not deterministic, and every call into code outside the core, is a parameter:

- the embedding gateway `embed`, the completion gateway `complete` and the search `search`, each
  returning a success or the message of the exception it threw;
- the save failures of the database (`saveError`, `saveErrors(k)`);
- fresh GUIDs: the chunk ids `ids(k)`, the document id `documentId` and the row-id counter
  `nextId`;
- the stopwatch reading `elapsed`;
- the newline `AppendLine` writes (`nl`);
- the final division of the cosine (`quotient`), with `Math.Sqrt`.

## Model

| member | source | states |
|---|---|---|
| Paragraphs.SplitWellFormed | src/Infrastructure/DocumentProcessors/TextDocumentProcessor.cs:34 | every paragraph the split yields is non-empty and contains neither "\r\n\r\n" nor "\n\n" at any position |
| Paragraphs.SplitEmptyIff | src/Infrastructure/DocumentProcessors/TextDocumentProcessor.cs:34 | the split yields no paragraph exactly when the text consists of separators only (the empty text included) |
| Paragraphs.RemoveEmpty | src/Infrastructure/DocumentProcessors/TextDocumentProcessor.cs:34 | RemoveEmptyEntries keeps only non-empty pieces, and no more pieces than it was given |
| Paragraphs.RemoveEmptyMembers | src/Infrastructure/DocumentProcessors/TextDocumentProcessor.cs:34 | a piece is kept exactly when it is one of the pieces and is non-empty |
| Paragraphs.RemoveEmptyConcat | src/Infrastructure/DocumentProcessors/TextDocumentProcessor.cs:34 | dropping empty pieces keeps their order: it commutes with concatenation |
| Paragraphs.SplitSingle | src/Infrastructure/DocumentProcessors/TextDocumentProcessor.cs:34 | a text is split into itself alone exactly when it is non-empty and contains no separator |
| Strings.Utf16Length | src/Infrastructure/DocumentProcessors/TextDocumentProcessor.cs:41 | the .NET length of a string lies between its number of characters and twice that number |
| Strings.Utf16LengthConcat | src/Infrastructure/DocumentProcessors/TextDocumentProcessor.cs:41 | the .NET length of a concatenation is the sum of the lengths |
| Strings.Utf16LengthBmp | src/Infrastructure/DocumentProcessors/TextDocumentProcessor.cs:41 | the .NET length equals the number of characters exactly when no character lies outside the Basic Multilingual Plane |
| Strings.Utf16LengthOfEmoji | src/Infrastructure/DocumentProcessors/TextDocumentProcessor.cs:41 | U+1F600 is one character of .NET length 2 |
| Chunking.GroupsCharacterized | src/Infrastructure/DocumentProcessors/TextDocumentProcessor.cs:39-60 | the chunk loop's grouping is a greedy partition of the paragraphs, and the only one: a grouping is greedy if and only if it is the loop's |
| Chunking.GroupsAreGreedy | src/Infrastructure/DocumentProcessors/TextDocumentProcessor.cs:39-60 | the loop's groups concatenate to the paragraphs in order, none is empty, no later paragraph of a group would have overflowed it, and each group but the last was closed because the next group's first paragraph did not fit |
| Chunking.GreedyPartitionUnique | src/Infrastructure/DocumentProcessors/TextDocumentProcessor.cs:39-60 | any greedy partition of the paragraphs equals the loop's grouping |
| Chunking.FeedInv | src/Infrastructure/DocumentProcessors/TextDocumentProcessor.cs:39-54 | after any prefix of paragraphs the flushed groups and the buffer are a greedy partition of that prefix, with the buffer the open last group |
| Chunking.BufferStep | src/Infrastructure/DocumentProcessors/TextDocumentProcessor.cs:41-53 | the StringBuilder text after an iteration (flush, then AppendLine if non-empty, then Append) is the open group joined with nl |
| Chunking.FeedConcat | src/Infrastructure/DocumentProcessors/PdfDocumentProcessor.cs:39-64 | running the loop over two runs of paragraphs is running it over the first and continuing from its state over the second, as the PDF pages do |
| Chunking.ChunksJoin | src/Infrastructure/DocumentProcessors/TextDocumentProcessor.cs:39-60 | the chunks joined with nl equal the paragraphs joined with nl: nothing is dropped, repeated or moved |
| Chunking.ChunksNonEmpty | src/Infrastructure/DocumentProcessors/TextDocumentProcessor.cs:43-59 | with non-empty paragraphs no chunk is empty |
| Chunking.ChunksGreedy | src/Infrastructure/DocumentProcessors/TextDocumentProcessor.cs:41-47 | for consecutive chunks, the first chunk's UTF-16 length plus the next chunk's first paragraph's UTF-16 length exceeds 1000 |
| Chunking.ChunksBounded | src/Infrastructure/DocumentProcessors/TextDocumentProcessor.cs:41-53 | each chunk is a single (possibly oversized) paragraph or has UTF-16 length at most 1000 plus that of nl |
| Chunking.ChunksEmptyIff | src/Infrastructure/DocumentProcessors/TextDocumentProcessor.cs:57-60 | the loop emits no chunk exactly when it gets no paragraph |
| TextDocumentProcessor.CanProcessIff | src/Infrastructure/DocumentProcessors/TextDocumentProcessor.cs:18-21 | CanProcess holds exactly for ".txt" in any mix of letter cases |
| TextDocumentProcessor.CreateChunk | src/Infrastructure/DocumentProcessors/TextDocumentProcessor.cs:66-81 | the chunk carries the document id, content and index, and its metadata is exactly fileName, chunkIndex, content and source = "upload" |
| TextDocumentProcessor.MetadataReadsBack | src/Infrastructure/DocumentProcessors/TextDocumentProcessor.cs:75-77 | a store reading the chunk's metadata gets back its content and, for a 32-bit index, its chunk index |
| TextDocumentProcessor.ProcessDocument | src/Infrastructure/DocumentProcessors/TextDocumentProcessor.cs:28-64 | the StringBuilder loop, testing the .NET (UTF-16) lengths of buffer and paragraph against 1000, returns the chunks of the greedy grouping of the text's paragraphs, numbered 0..n-1 |
| TextDocumentProcessor.TextChunksProperties | src/Infrastructure/DocumentProcessors/TextDocumentProcessor.cs:34-60 | indices are 0..n-1 in order with matching metadata; contents are non-empty, greedy and size-bounded; their join with nl is the paragraphs' join; and there are no chunks exactly when the text is separators only |
| PdfDocumentProcessor.CanProcessIff | src/Infrastructure/DocumentProcessors/PdfDocumentProcessor.cs:19-22 | CanProcess holds exactly for ".pdf" in any mix of letter cases |
| PdfDocumentProcessor.CreateChunk | src/Infrastructure/DocumentProcessors/PdfDocumentProcessor.cs:77-93 | the chunk carries document id, content and index, and its metadata is exactly fileName, chunkIndex, pageNumber, content and source = "upload" |
| PdfDocumentProcessor.ProcessDocument | src/Infrastructure/DocumentProcessors/PdfDocumentProcessor.cs:35-70 | the nested page and paragraph loops, testing UTF-16 lengths against 1000, return the PDF chunks: the greedy chunks over all pages, numbered 0..n-1, with their page labels |
| PdfDocumentProcessor.PackPage | src/Infrastructure/DocumentProcessors/PdfDocumentProcessor.cs:46-61 | the inner loop over one page, with the UTF-16 length test, advances the loop state by exactly that page's tagged paragraphs, keeping the buffer, index and emitted chunks in step |
| PdfDocumentProcessor.PdfGroupsAreGroups | src/Infrastructure/DocumentProcessors/PdfDocumentProcessor.cs:35-64 | without the page labels, the PDF chunking is the text chunking of all pages' paragraphs in page order: the buffer is not reset between pages |
| PdfDocumentProcessor.PdfChunksProperties | src/Infrastructure/DocumentProcessors/PdfDocumentProcessor.cs:39-70 | chunk k has index k, its content and page label; contents join back to the pages' paragraphs, are non-empty, greedy and size-bounded across page boundaries; and there are none exactly when no page has a paragraph |
| PdfDocumentProcessor.PdfFlushLabels | src/Infrastructure/DocumentProcessors/PdfDocumentProcessor.cs:48-52 | a chunk flushed in the loop is labelled with the 1-based page of the paragraph whose arrival flushed it, the first paragraph of the next chunk |
| PdfDocumentProcessor.LabelOfFlush | src/Infrastructure/DocumentProcessors/PdfDocumentProcessor.cs:48-52 | the chunk a flush emits is labelled with the page of the paragraph that caused the flush |
| PdfDocumentProcessor.PdfLastLabel | src/Infrastructure/DocumentProcessors/PdfDocumentProcessor.cs:63-70 | the last chunk is labelled with the number of pages |
| PdfDocumentProcessor.PdfLabelsOrdered | src/Infrastructure/DocumentProcessors/PdfDocumentProcessor.cs:37-69 | every page label lies in 1..number of pages, and labels never decrease from chunk to chunk |
| PdfDocumentProcessor.ChunkSpansPages | src/Infrastructure/DocumentProcessors/PdfDocumentProcessor.cs:35-64 | two pages of one short paragraph each give one chunk holding both, labelled page 2 |
| DocumentProcessorFactory.Extension | src/Infrastructure/DocumentProcessors/DocumentProcessorFactory.cs:26 | the extension is non-empty exactly when the last path segment has a '.' followed by at least one character, and it is the text from that '.' on |
| DocumentProcessorFactory.FirstAcceptingIsFirst | src/Infrastructure/DocumentProcessors/DocumentProcessorFactory.cs:28 | FirstOrDefault gives null exactly when no processor accepts; otherwise it gives an accepting processor that no earlier processor precedes in accepting |
| DocumentProcessorFactory.GetProcessor | src/Infrastructure/DocumentProcessors/DocumentProcessorFactory.cs:24-36 | the processor chosen for a file name is the first, in registration order, accepting its extension; none exactly when none accepts |
| DocumentProcessorFactory.SameExtensionSameProcessor | src/Infrastructure/DocumentProcessors/DocumentProcessorFactory.cs:26 | the choice depends on the file name only through its extension |
| DocumentProcessorFactory.RegisteredSelection | src/Infrastructure/ServiceCollectionExtensions.cs:53-54 | with the registered [Text, Pdf] list, ".txt" and ".pdf" in any case pick their processor and every other extension, including none, picks none |
| Models.DefaultQuery | src/Core/Models/RagQuery.cs:5-8 | a query defaults to MaxSources 5 and MinScore 0.7 |
| Models.NewResponse | src/Core/Models/RagResponse.cs:5-11 | a new response has Success true, no error, empty answer and sources, and zero time and tokens |
| Models.ContentOf | src/Infrastructure/VectorDb/InMemoryVectorDatabase.cs:28 | the content read from metadata is "" without a "content" entry and the stored string with one |
| Models.ToInt32 | src/Infrastructure/VectorDb/SqliteVectorDatabase.cs:35 | Convert.ToInt32 maps null to 0 and an integer to itself exactly when it fits 32 bits, and any result is a 32-bit integer |
| Models.ChunkIndexOf | src/Infrastructure/VectorDb/SqliteVectorDatabase.cs:35 | the chunk index is 0 when the metadata has no "chunkIndex" entry |
| Models.ToInt32OfRendered | src/Infrastructure/VectorDb/SqliteVectorDatabase.cs:35 | a 32-bit integer stored as its decimal text converts back to itself |
| Similarity.Sums | src/Infrastructure/VectorDb/InMemoryVectorDatabase.cs:84-93 | the accumulation loop computes the dot product and both squared magnitudes |
| Similarity.MagnitudeOfZero | src/Infrastructure/VectorDb/InMemoryVectorDatabase.cs:95-96 | a squared magnitude is never negative and is 0 for the zero vector |
| Similarity.ZeroVectorScoresZero | src/Infrastructure/VectorDb/InMemoryVectorDatabase.cs:95-96 | a zero vector on either side scores 0 whatever the final quotient |
| Similarity.DotSymmetric | src/Infrastructure/VectorDb/InMemoryVectorDatabase.cs:88-93 | the dot product does not depend on the order of the vectors |
| Similarity.CosineSymmetric | src/Infrastructure/VectorDb/InMemoryVectorDatabase.cs:95-98 | with a quotient symmetric in the magnitudes the score is symmetric |
| VectorDocuments.ToSimilarityResult | src/Infrastructure/VectorDb/VectorDocument.cs:13-23 | the result copies DocumentId, Content and Metadata, takes the record's Id as ChunkId and the given score as Score |
| VectorDocuments.ProjectionInjective | src/Infrastructure/VectorDb/VectorDocument.cs:13-23 | two results are equal exactly when the records agree on everything but the embedding and the scores agree |
| Ranking.InsertDesc | src/Infrastructure/VectorDb/InMemoryVectorDatabase.cs:52 | insertion adds exactly the new element to the multiset of the list |
| Ranking.InsertDescSorted | src/Infrastructure/VectorDb/InMemoryVectorDatabase.cs:52 | inserting into a list sorted by non-increasing score keeps it sorted |
| Ranking.OrderByDescending | src/Infrastructure/VectorDb/InMemoryVectorDatabase.cs:52 | the sort returns a permutation of its input sorted by non-increasing score |
| Ranking.OrderByDescendingStable | src/Infrastructure/VectorDb/InMemoryVectorDatabase.cs:52 | the sort is stable: the elements of each score come out in their input order |
| Ranking.Take | src/Infrastructure/VectorDb/InMemoryVectorDatabase.cs:53 | Take(k) is the prefix of length 0 for k <= 0, k when k is smaller than the list, and the whole list otherwise |
| Ranking.TopKProperties | src/Infrastructure/VectorDb/InMemoryVectorDatabase.cs:51-53 | the top k has min(k, n) elements (none for k <= 0), is sorted, is a sub-multiset of the input, and no element left out scores above one returned |
| Ranking.TopKMembers | src/Infrastructure/VectorDb/InMemoryVectorDatabase.cs:51-53 | every returned element is an input element |
| Ranking.TopKDominates | src/Infrastructure/VectorDb/InMemoryVectorDatabase.cs:51-53 | an input element not returned scores no higher than any returned element |
| Ranking.TopKStable | src/Infrastructure/VectorDb/InMemoryVectorDatabase.cs:51-53 | the returned elements of each score are a prefix of that score's input elements, in input order |
| InMemoryVectorDb.CosineSimilarity | src/Infrastructure/VectorDb/InMemoryVectorDatabase.cs:79-99 | a length mismatch fails with "Vectors must have the same length"; otherwise the score is the cosine of the sums, 0 for a zero magnitude |
| InMemoryVectorDb.Scores | src/Infrastructure/VectorDb/InMemoryVectorDatabase.cs:45-49 | each record is paired with its own cosine score against the query, in enumeration order |
| InMemoryVectorDb.Values | src/Infrastructure/VectorDb/InMemoryVectorDatabase.cs:45 | the records are listed in the order their keys are enumerated |
| InMemoryVectorDb.Project | src/Infrastructure/VectorDb/InMemoryVectorDatabase.cs:54 | each scored record becomes its ToSimilarityResult with its score, in order |
| InMemoryVectorDb.WithoutDocument | src/Infrastructure/VectorDb/InMemoryVectorDatabase.cs:62-72 | a key survives exactly when its record belongs to another document, and surviving records are unchanged |
| InMemoryVectorDb.SearchSorted | src/Infrastructure/VectorDb/InMemoryVectorDatabase.cs:51-55 | the search returns min(topK, count) results (none for topK <= 0), sorted by non-increasing score |
| InMemoryVectorDb.SearchFromRecords | src/Infrastructure/VectorDb/InMemoryVectorDatabase.cs:45-54 | every result is a stored record's projection with that record's own cosine score |
| InMemoryVectorDb.SearchDominates | src/Infrastructure/VectorDb/InMemoryVectorDatabase.cs:45-53 | a stored record whose result is not returned scores no higher than any returned result |
| InMemoryVectorDb.SearchKeyed | src/Infrastructure/VectorDb/InMemoryVectorDatabase.cs:33-54 | with every record stored under its own chunk id, every result's chunk id is a key whose record yields exactly that result |
| InMemoryVectorDb.StoreReplaces | src/Infrastructure/VectorDb/InMemoryVectorDatabase.cs:33 | storing the same chunk id again replaces the record and leaves no trace of the first |
| InMemoryVectorDb.DeleteAbsent | src/Infrastructure/VectorDb/InMemoryVectorDatabase.cs:62-72 | deleting a document with no record changes nothing |
| InMemoryVectorDb.DeleteIdempotent | src/Infrastructure/VectorDb/InMemoryVectorDatabase.cs:62-72 | deleting a document twice is deleting it once |
| InMemoryVectorDb.InMemoryVectorDatabase.constructor | src/Infrastructure/VectorDb/InMemoryVectorDatabase.cs:10 | the store starts empty |
| InMemoryVectorDb.InMemoryVectorDatabase.StoreEmbedding | src/Infrastructure/VectorDb/InMemoryVectorDatabase.cs:18-37 | the chunk id now maps to a record with the document id, embedding, metadata and the metadata's content (or ""); every other key is unchanged |
| InMemoryVectorDb.InMemoryVectorDatabase.FindSimilar | src/Infrastructure/VectorDb/InMemoryVectorDatabase.cs:39-60 | the search fails with the mismatch message exactly when some record's embedding length differs from the query's; otherwise it is the top-k search over the records in the dictionary's enumeration order, and each result names by its chunk id the record it was scored from |
| InMemoryVectorDb.InMemoryVectorDatabase.DeleteDocument | src/Infrastructure/VectorDb/InMemoryVectorDatabase.cs:62-77 | exactly the records of the document are removed; the others stay as they were |
| SqliteVectorDb.CosineSimilarity | src/Infrastructure/VectorDb/SqliteVectorDatabase.cs:145-177 | the score loop computes the lenient score |
| SqliteVectorDb.LenientScoreCases | src/Infrastructure/VectorDb/SqliteVectorDatabase.cs:147-166 | a length mismatch scores 0, a zero vector scores 0, and vectors of equal length score their cosine |
| SqliteVectorDb.Scores | src/Infrastructure/VectorDb/SqliteVectorDatabase.cs:79-84 | every row is paired with its lenient score against the query, in table order |
| SqliteVectorDb.Project | src/Infrastructure/VectorDb/SqliteVectorDatabase.cs:109-119 | each scored row becomes a result with its DocumentId, ChunkId, Content, metadata and score, in order |
| SqliteVectorDb.SearchSorted | src/Infrastructure/VectorDb/SqliteVectorDatabase.cs:86-120 | the search returns min(topK, rows) results (none for topK <= 0), sorted by non-increasing score |
| SqliteVectorDb.SearchFromRows | src/Infrastructure/VectorDb/SqliteVectorDatabase.cs:79-120 | every result carries a row's DocumentId, ChunkId and Content with that row's computed score |
| SqliteVectorDb.SearchDominates | src/Infrastructure/VectorDb/SqliteVectorDatabase.cs:79-120 | a row that is not returned scores no higher than any returned result |
| SqliteVectorDb.MismatchRanksAtZero | src/Infrastructure/VectorDb/SqliteVectorDatabase.cs:147-152 | a row whose embedding length differs from the query's is ranked with score 0 instead of aborting the search |
| SqliteVectorDb.WithoutDocument | src/Infrastructure/VectorDb/SqliteVectorDatabase.cs:138-139 | a row survives exactly when it belongs to another document, and none is added |
| SqliteVectorDb.DeleteAbsent | src/Infrastructure/VectorDb/SqliteVectorDatabase.cs:136-140 | deleting a document with no row keeps the table as it is |
| SqliteVectorDb.DeleteConcat | src/Infrastructure/VectorDb/SqliteVectorDatabase.cs:138-139 | deletion keeps table order: deleting from two runs of rows concatenates the two deletions |
| SqliteVectorDb.StoreAddsCopy | src/Infrastructure/VectorDb/SqliteVectorDatabase.cs:30-42 | appending a chunk's row adds one copy of that chunk id: storing a chunk twice leaves two rows |
| SqliteVectorDb.KeptRowsValid | src/Infrastructure/VectorDb/SqliteVectorDatabase.cs:138-139 | removing rows keeps every row id fresh and distinct |
| SqliteVectorDb.SqliteVectorDatabase.constructor | src/Infrastructure/VectorDb/SqliteVectorDatabase.cs:16-22 | the table starts empty |
| SqliteVectorDb.SqliteVectorDatabase.StoreEmbedding | src/Infrastructure/VectorDb/SqliteVectorDatabase.cs:24-63 | failures come in source order: the chunkIndex conversion, then an embedding shorter than 5 (IndexOutOfRange), then the save; any failure leaves the table unchanged; success appends exactly one row under a fresh id with ChunkIndex from the metadata (0 when absent) and Content from it ("" when absent) |
| SqliteVectorDb.SqliteVectorDatabase.FindSimilar | src/Infrastructure/VectorDb/SqliteVectorDatabase.cs:65-134 | a query shorter than 5 fails with IndexOutOfRange; otherwise the result is the top-k search over every row in table order |
| SqliteVectorDb.SqliteVectorDatabase.DeleteDocument | src/Infrastructure/VectorDb/SqliteVectorDatabase.cs:136-143 | on a successful save exactly the document's rows are removed, in order; a failed save changes nothing and is reported |
| RagService.Relevant | src/Infrastructure/Services/RagService.cs:54-56 | a result is kept exactly when it is in the search results and scores at least MinScore |
| RagService.RelevantConcat | src/Infrastructure/Services/RagService.cs:54-56 | the filter keeps the original order: filtering a concatenation concatenates the filtered parts |
| RagService.RelevantAll | src/Infrastructure/Services/RagService.cs:54-56 | when every result passes, the filter returns the results unchanged |
| RagService.CheckedSumIsTotal | src/Infrastructure/Services/RagService.cs:77 | the checked 32-bit Sum of the contents' UTF-16 lengths fails with the overflow message exactly when the total exceeds int.MaxValue, and is the total otherwise |
| RagService.BuildPrompt | src/Infrastructure/Services/RagService.cs:99-115 | the StringBuilder loop builds the prompt: the preamble, one "[Source k]" block per source for k = 1..n in list order, the question line and the instruction |
| RagService.GenerateAnswerWithSources | src/Infrastructure/Services/RagService.cs:93-120 | the answer is the completion gateway's result on that prompt |
| RagService.PromptLabels | src/Infrastructure/Services/RagService.cs:102-108 | the block labelled "[Source k+1]" holds sources[k]'s content and follows the blocks of the sources before it |
| RagService.BlocksPrefix | src/Infrastructure/Services/RagService.cs:102-108 | the blocks of the first n sources begin the blocks of all of them |
| RagService.PromptEndsWithQuestion | src/Infrastructure/Services/RagService.cs:110-113 | the prompt ends with the "Question: " line and the instruction |
| RagService.AskQuestion | src/Infrastructure/Services/RagService.cs:31-91 | the fields the method sets step by step, with the try/catch, give the response the path-by-path specification describes |
| RagService.AskKeepsSession | src/Infrastructure/Services/RagService.cs:34-37 | every path copies the session id from the query |
| RagService.AskSearchesMaxSources | src/Infrastructure/Services/RagService.cs:49-51 | the response depends on the search only through its answer for topK = MaxSources |
| RagService.AskNoResults | src/Infrastructure/Services/RagService.cs:61-66 | when nothing passes the filter, the answer is the no-results message, sources are empty, Success stays true, ProcessingTime is not set, and the completion gateway does not matter |
| RagService.AskAnswered | src/Infrastructure/Services/RagService.cs:54-79 | on success the sources are exactly the filtered results in order, the answer is the completion of their prompt verbatim, and TokensUsed is question/4 + answer/4 + total content/4, over UTF-16 lengths |
| RagService.AskFailure | src/Infrastructure/Services/RagService.cs:81-89 | an unsuccessful response carries the exception message and the configured error answer; a failure of the embedding, the search or the completion gives one with that failure's message, and before the answer arrives no source is kept |
| RagService.AskOverflowKeepsSources | src/Infrastructure/Services/RagService.cs:71-87 | an overflow of the length sum after the answer arrived fails the response but keeps the sources already set |
| DocumentController.ProcessedIsFirstFailure | src/API/Controllers/DocumentController.cs:85-112 | the number of chunks processed is the index of the first chunk whose embedding or store fails, or all of them |
| DocumentController.ProcessedUnique | src/API/Controllers/DocumentController.cs:85-112 | a count that meets the loop's stopping condition is the number processed |
| DocumentController.ChunkGoesThrough | src/API/Controllers/DocumentController.cs:94-102 | a chunk goes through exactly when its embedding succeeds, its chunk index converts, the embedding has at least 5 components, and its save succeeds |
| DocumentController.StoredRowsSnoc | src/API/Controllers/DocumentController.cs:98-104 | storing one more chunk appends its row |
| DocumentController.StoredRowsAreChunks | src/API/Controllers/DocumentController.cs:98-102 | the k-th row stored is the k-th chunk: the upload's document id, the chunk's id, metadata and content, index k, its embedding, and the fresh id firstId + k |
| DocumentController.TextChunksReadBack | src/Infrastructure/VectorDb/SqliteVectorDatabase.cs:35-36 | the store reads each text chunk's content and index back from its metadata |
| DocumentController.PdfChunksReadBack | src/Infrastructure/VectorDb/SqliteVectorDatabase.cs:35-36 | the store reads each PDF chunk's content and index back from its metadata |
| DocumentController.StoreChunks | src/API/Controllers/DocumentController.cs:85-112 | the loop embeds and stores the chunks in order under the document id and stops at the first failure with its error; the rows of the chunks before it stay stored |
| DocumentController.UploadDocument | src/API/Controllers/DocumentController.cs:28-130 | a missing or empty file and an unsupported extension are BadRequests that touch nothing; an unreadable file is a server error; zero chunks succeed with count 0 and no row; otherwise the processed chunks' rows are appended and the response is the success message with the count, or the first failure as a server error |
| DocumentController.DeleteDocument | src/API/Controllers/DocumentController.cs:142-157 | the store deletes the document's rows and the response confirms it; only a failed store call is a server error, and it changes nothing |

## Left out

- HTTP transport, JSON bodies, the status codes' wire form and the stack trace sent with a 500 are not modelled. A response is one constructor per outcome.
- PDF parsing (`PdfDocument.Open`, `page.Text`) and stream decoding are not modelled. A file is given as its decoded text and its page texts, or the message of the exception that opening it threw.
- EF Core is not modelled: the transaction, rollback, change tracker, migrations and the JSON value conversion. The metadata JSON serialize/deserialize round trip is taken as the identity.
  - A failed save leaves the table as it was. The tracker's retained entity is not modelled.
  - The rows of `FindSimilar` are taken in table order, which stands for the order `ToListAsync` returns.
- Floating point is not modelled. Scores are reals; float-to-double conversion and rounding are left out; `Math.Sqrt` and the final division appear only as the `quotient` parameter.
  - Similarity.MagnitudeOfZero: only "zero vector ⇒ zero magnitude" is proved, not the converse. Over reals the converse holds, but nothing here needs it.
- Concurrency and async are not modelled (`ConcurrentDictionary`, `Task.Run`, `await`, `CancellationToken`). The model is sequential, and a cancellation is one more gateway failure.
- `Guid.NewGuid`, `DateTime.UtcNow` (`CreatedAt`) and the stopwatch are parameters. `ProcessingTime` is the `elapsed` parameter.
- Logging is not modelled, except that the eagerly evaluated log arguments `embedding.Span[0..4]` and `query[0..4]` require at least 5 components. The top-20 score log and its marker loop are left out.
- InMemoryVectorDb.InMemoryVectorDatabase.FindSimilar: the dictionary's enumeration order is not specified by .NET. The result is stated for the ghost order the scan produced, which lists every key exactly once.
- Case-insensitive comparison folds ASCII letters only, which is all ".txt" and ".pdf" need.
- A Dafny string cannot hold an unpaired surrogate, which a .NET string can. Such text has no counterpart in the model; decoded streams replace invalid sequences, so only extracted PDF text could hold one.
- `Path.GetExtension` is modelled with '/' as the only directory separator.
- Convert.ToInt32 of a string accepts an optional sign and decimal digits. Surrounding white space and other `IConvertible` values are not modelled.
- RagService.AskAnswered: the token terms `question.Length / 4` and `answer.Length / 4` are computed without 32-bit wrap-around. A string's length is below 2^31, so each term fits, and the sum of three quarters cannot overflow.
- The chat, debug and test controllers, the dependency-injection wiring other than the processor order, the Pinecone stub and the LLM providers are not part of this model.
- `RagQuery.Filter` is not read by the service and is not modelled.
- `GetSupportedFormats` returns a constant list and is not modelled.
