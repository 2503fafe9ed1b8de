/**
 * The plain-text document processor: it accepts ".txt" files, splits the text into
 * paragraphs and packs them greedily into chunks numbered from 0.
 */
module TextDocumentProcessor {
  import opened Wrappers
  import opened Strings
  import opened Paragraphs
  import opened Chunking
  import opened Models
  import opened Seqs

  /** The extension is ".txt", compared ordinally without regard to case. */
  predicate CanProcess(extension: string)
  {
    EqualsIgnoreCase(extension, ".txt")
  }

  /** The processor accepts ".txt" in any mix of cases and nothing else. */
  lemma CanProcessIff(extension: string)
    ensures CanProcess(extension) <==>
      && |extension| == 4 && extension[0] == '.'
      && (extension[1] == 't' || extension[1] == 'T')
      && (extension[2] == 'x' || extension[2] == 'X')
      && (extension[3] == 't' || extension[3] == 'T')
  {
  }

  /** The chunk record with its metadata; id is the fresh identifier the record is created with. */
  function CreateChunk(documentId: string, content: string, index: int, fileName: string, id: string): (c: DocumentChunk)
    ensures c.id == id && c.documentId == documentId && c.content == content && c.chunkIndex == index
    ensures c.metadata.Keys == {"fileName", "chunkIndex", "content", "source"}
    ensures c.metadata["fileName"] == Str(fileName) && c.metadata["chunkIndex"] == Int(index)
    ensures c.metadata["content"] == Str(content) && c.metadata["source"] == Str("upload")
  {
    DocumentChunk(documentId := documentId, content := content, chunkIndex := index, id := id,
      metadata := map["fileName" := Str(fileName), "chunkIndex" := Int(index),
                      "content" := Str(content), "source" := Str("upload")])
  }

  /** The store reads back, from a chunk's metadata, the content and index the chunk was created with. */
  lemma MetadataReadsBack(documentId: string, content: string, index: int, fileName: string, id: string)
    requires Int32Min <= index <= Int32Max
    ensures var c := CreateChunk(documentId, content, index, fileName, id);
      ContentOf(c.metadata) == c.content && ChunkIndexOf(c.metadata) == Success(c.chunkIndex)
  {
  }

  /** The chunks of a text: its greedy chunk contents, numbered from 0, the k-th with identifier ids(k). */
  function TextChunks(content: string, fileName: string, documentId: string, nl: string, ids: nat -> string): seq<DocumentChunk>
  {
    var cs := Chunks(Split(content), nl);
    seq(|cs|, k requires 0 <= k < |cs| => CreateChunk(documentId, cs[k], k, fileName, ids(k)))
  }

  /** ProcessDocumentAsync over the text the stream decodes to; nl is what AppendLine appends. */
  method ProcessDocument(content: string, fileName: string, documentId: string, nl: string, ids: nat -> string)
    returns (chunks: seq<DocumentChunk>)
    ensures chunks == TextChunks(content, fileName, documentId, nl, ids)
  {
    var paragraphs := Split(content);
    SplitWellFormed(content);
    chunks := [];
    var currentChunk := "";
    var chunkIndex := 0;
    ghost var st := Start;
    for i := 0 to |paragraphs|
      invariant st == Feed(Start, paragraphs[..i], nl)
      invariant chunkIndex == |chunks|
      invariant Agrees(chunks, currentChunk, st, documentId, fileName, nl, ids)
    {
      var paragraph := paragraphs[i];
      PrefixOfPrefix(paragraphs, i + 1, i);
      FlushTest(chunks, currentChunk, st, paragraph, documentId, fileName, nl, ids);
      StepShape(st, paragraph, nl);
      ghost var mid := st;
      if Utf16Length(currentChunk) + Utf16Length(paragraph) > MaxChunkLength {
        if |currentChunk| > 0 {
          AgreesFlush(chunks, currentChunk, st, documentId, fileName, nl, ids);
          chunks := chunks + [CreateChunk(documentId, currentChunk, chunkIndex, fileName, ids(chunkIndex))];
          chunkIndex := chunkIndex + 1;
          currentChunk := "";
          mid := Packer(st.closed + [st.open], []);
        }
      }
      AgreesAppend(chunks, currentChunk, mid, paragraph, documentId, fileName, nl, ids);
      if |currentChunk| > 0 {
        currentChunk := currentChunk + nl;
      }
      currentChunk := currentChunk + paragraph;
      st := Step(st, paragraph, nl);
    }
    assert paragraphs[..|paragraphs|] == paragraphs;
    if |currentChunk| > 0 {
      AgreesFlush(chunks, currentChunk, st, documentId, fileName, nl, ids);
      chunks := chunks + [CreateChunk(documentId, currentChunk, chunkIndex, fileName, ids(chunkIndex))];
      chunkIndex := chunkIndex + 1;
      st := Packer(st.closed + [st.open], []);
    }
    AgreesFinish(chunks, st, paragraphs, documentId, fileName, nl, ids);
  }

  /** The loop state: the chunks so far are the closed groups, numbered in order, and the buffer holds the open group. */
  ghost predicate Agrees(chunks: seq<DocumentChunk>, currentChunk: string, st: Packer,
                         documentId: string, fileName: string, nl: string, ids: nat -> string)
  {
    && currentChunk == Join(st.open, nl)
    && (|currentChunk| > 0 <==> st.open != [])
    && |chunks| == |st.closed|
    && forall k :: 0 <= k < |chunks| ==>
         chunks[k] == CreateChunk(documentId, Join(st.closed[k], nl), k, fileName, ids(k))
  }

  /** The processor's size test on the buffer text decides a flush exactly as the packing does. */
  lemma FlushTest(chunks: seq<DocumentChunk>, currentChunk: string, st: Packer, p: string,
                  documentId: string, fileName: string, nl: string, ids: nat -> string)
    requires Agrees(chunks, currentChunk, st, documentId, fileName, nl, ids)
    ensures Flushes(st, p, nl) <==> Utf16Length(currentChunk) + Utf16Length(p) > MaxChunkLength && |currentChunk| > 0
  {
  }

  /** One iteration is an optional flush followed by an append. */
  lemma StepShape(st: Packer, p: string, nl: string)
    ensures var mid := if Flushes(st, p, nl) then Packer(st.closed + [st.open], []) else st;
      Step(st, p, nl) == Packer(mid.closed, mid.open + [p])
  {
    assert [] + [p] == [p];
  }

  /** Flushing the buffer closes the open group. */
  lemma AgreesFlush(chunks: seq<DocumentChunk>, currentChunk: string, st: Packer,
                    documentId: string, fileName: string, nl: string, ids: nat -> string)
    requires Agrees(chunks, currentChunk, st, documentId, fileName, nl, ids) && st.open != []
    ensures Agrees(chunks + [CreateChunk(documentId, currentChunk, |chunks|, fileName, ids(|chunks|))], "",
                   Packer(st.closed + [st.open], []), documentId, fileName, nl, ids)
  {
  }

  /** Appending a non-empty paragraph to the buffer adds it to the open group. */
  lemma AgreesAppend(chunks: seq<DocumentChunk>, currentChunk: string, st: Packer, p: string,
                     documentId: string, fileName: string, nl: string, ids: nat -> string)
    requires Agrees(chunks, currentChunk, st, documentId, fileName, nl, ids) && |p| > 0
    ensures Agrees(chunks, (if |currentChunk| > 0 then currentChunk + nl else currentChunk) + p,
                   Packer(st.closed, st.open + [p]), documentId, fileName, nl, ids)
  {
    BufferStep(Packer(st.closed, st.open), p, nl);
  }

  /** After the last flush the chunks are those of the text. */
  lemma AgreesFinish(chunks: seq<DocumentChunk>, st: Packer, ps: seq<string>,
                     documentId: string, fileName: string, nl: string, ids: nat -> string)
    requires Agrees(chunks, "", st, documentId, fileName, nl, ids)
    requires st.closed == Groups(ps, nl)
    ensures chunks == seq(|Chunks(ps, nl)|, k requires 0 <= k < |Chunks(ps, nl)| =>
                           CreateChunk(documentId, Chunks(ps, nl)[k], k, fileName, ids(k)))
  {
  }

  /**
   * What the chunk list promises: indices 0..n-1 in order, non-empty contents that joined with nl
   * give back the paragraphs joined with nl, greedy flushes, the size bound, and no chunk at all
   * exactly when the text holds nothing but separators.
   */
  lemma TextChunksProperties(content: string, fileName: string, documentId: string, nl: string, ids: nat -> string)
    ensures var chunks := TextChunks(content, fileName, documentId, nl, ids);
      var ps, gs := Split(content), Groups(Split(content), nl);
      && |chunks| == |gs|
      && (forall k :: 0 <= k < |chunks| ==>
            && chunks[k] == CreateChunk(documentId, chunks[k].content, k, fileName, ids(k))
            && chunks[k].content != ""
            && (|gs[k]| == 1 || Utf16Length(chunks[k].content) <= MaxChunkLength + Utf16Length(nl)))
      && (forall k :: 0 <= k < |chunks| - 1 ==>
            gs[k + 1] != [] && Utf16Length(chunks[k].content) + Utf16Length(gs[k + 1][0]) > MaxChunkLength)
      && Join(Contents(chunks), nl) == Join(ps, nl)
      && (chunks == [] <==> OnlySeparators(content))
  {
    var chunks := TextChunks(content, fileName, documentId, nl, ids);
    var ps := Split(content);
    SplitWellFormed(content);
    ChunksNonEmpty(ps, nl);
    ChunksBounded(ps, nl);
    ChunksGreedy(ps, nl);
    ChunksJoin(ps, nl);
    ChunksEmptyIff(ps, nl);
    SplitEmptyIff(content);
    var cs := Chunks(ps, nl);
    assert |chunks| == |cs|;
    forall k | 0 <= k < |chunks|
      ensures chunks[k].content == cs[k]
    {
      assert chunks[k] == CreateChunk(documentId, cs[k], k, fileName, ids(k));
    }
    assert Contents(chunks) == cs;
  }

  function Contents(chunks: seq<DocumentChunk>): (r: seq<string>)
    ensures |r| == |chunks| && forall k :: 0 <= k < |chunks| ==> r[k] == chunks[k].content
  {
    seq(|chunks|, k requires 0 <= k < |chunks| => chunks[k].content)
  }
}
