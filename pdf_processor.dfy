/**
 * The PDF document processor: it accepts ".pdf" files and runs the paragraph packing over
 * the pages in order. The buffer is not cleared between pages, so a chunk may hold
 * paragraphs of several pages. A chunk flushed inside the loop is labelled with the page
 * counter at that moment (the 1-based page of the paragraph that caused the flush); the
 * last chunk is labelled with the counter minus one, the number of pages.
 */
module PdfDocumentProcessor {
  import opened Strings
  import opened Paragraphs
  import opened Chunking
  import opened Models
  import opened Seqs

  /** The extension is ".pdf", compared ordinally without regard to case. */
  predicate CanProcess(extension: string)
  {
    EqualsIgnoreCase(extension, ".pdf")
  }

  /** The processor accepts ".pdf" in any mix of cases and nothing else. */
  lemma CanProcessIff(extension: string)
    ensures CanProcess(extension) <==>
      && |extension| == 4 && extension[0] == '.'
      && (extension[1] == 'p' || extension[1] == 'P')
      && (extension[2] == 'd' || extension[2] == 'D')
      && (extension[3] == 'f' || extension[3] == 'F')
  {
  }

  function CreateChunk(documentId: string, content: string, index: int, fileName: string, pageNumber: int, id: string): (c: DocumentChunk)
    ensures c.id == id && c.documentId == documentId && c.content == content && c.chunkIndex == index
    ensures c.metadata.Keys == {"fileName", "chunkIndex", "pageNumber", "content", "source"}
    ensures c.metadata["fileName"] == Str(fileName) && c.metadata["chunkIndex"] == Int(index)
    ensures c.metadata["pageNumber"] == Int(pageNumber)
    ensures c.metadata["content"] == Str(content) && c.metadata["source"] == Str("upload")
  {
    DocumentChunk(documentId := documentId, content := content, chunkIndex := index, id := id,
      metadata := map["fileName" := Str(fileName), "chunkIndex" := Int(index), "pageNumber" := Int(pageNumber),
                      "content" := Str(content), "source" := Str("upload")])
  }

  // ----- Paragraphs tagged with the page they come from -----

  datatype Tagged = Tagged(paragraph: string, page: nat)

  function Tag(ps: seq<string>, page: nat): (r: seq<Tagged>)
    ensures |r| == |ps| && forall i :: 0 <= i < |ps| ==> r[i] == Tagged(ps[i], page)
  {
    seq(|ps|, i requires 0 <= i < |ps| => Tagged(ps[i], page))
  }

  /** The paragraphs of all pages in page order, each with its 1-based page number. */
  function TaggedParagraphs(pages: seq<string>): seq<Tagged>
    decreases |pages|
  {
    if |pages| == 0 then []
    else TaggedParagraphs(pages[..|pages| - 1]) + Tag(Split(pages[|pages| - 1]), |pages|)
  }

  function Untag(tps: seq<Tagged>): (r: seq<string>)
    ensures |r| == |tps| && forall i :: 0 <= i < |tps| ==> r[i] == tps[i].paragraph
  {
    seq(|tps|, i requires 0 <= i < |tps| => tps[i].paragraph)
  }

  /** The paragraphs of every page, one page after the other. */
  function PageParagraphs(pages: seq<string>): seq<string>
    decreases |pages|
  {
    if |pages| == 0 then [] else PageParagraphs(pages[..|pages| - 1]) + Split(pages[|pages| - 1])
  }

  // ----- The loop state: the packing state and the page label of each flushed chunk -----

  datatype PdfPacker = PdfPacker(packer: Packer, pageNumbers: seq<int>)

  const PdfStart: PdfPacker := PdfPacker(Start, [])

  /** One iteration of the inner loop, on a paragraph of page `page`. */
  function StepPdf(st: PdfPacker, tp: Tagged, nl: string): PdfPacker
  {
    var pageNumbers := if Flushes(st.packer, tp.paragraph, nl) then st.pageNumbers + [tp.page] else st.pageNumbers;
    PdfPacker(Step(st.packer, tp.paragraph, nl), pageNumbers)
  }

  function FeedTagged(st: PdfPacker, tps: seq<Tagged>, nl: string): (r: PdfPacker)
    ensures |r.pageNumbers| - |r.packer.closed| == |st.pageNumbers| - |st.packer.closed|
    decreases |tps|
  {
    if |tps| == 0 then st else StepPdf(FeedTagged(st, tps[..|tps| - 1], nl), tps[|tps| - 1], nl)
  }

  lemma FeedTaggedSnoc(st: PdfPacker, tps: seq<Tagged>, tp: Tagged, nl: string)
    ensures FeedTagged(st, tps + [tp], nl) == StepPdf(FeedTagged(st, tps, nl), tp, nl)
  {
    assert (tps + [tp])[..|tps|] == tps;
  }

  /** The chunks' paragraphs and the page label of each chunk. */
  function PdfGroups(pages: seq<string>, nl: string): (r: (seq<seq<string>>, seq<int>))
    ensures |r.0| == |r.1|
  {
    var st := FeedTagged(PdfStart, TaggedParagraphs(pages), nl);
    if st.packer.open == [] then (st.packer.closed, st.pageNumbers)
    else (st.packer.closed + [st.packer.open], st.pageNumbers + [|pages|])
  }

  /** The chunks of a PDF given as its page texts, numbered from 0, the k-th with identifier ids(k). */
  function PdfChunks(pages: seq<string>, fileName: string, documentId: string, nl: string, ids: nat -> string): seq<DocumentChunk>
  {
    var (gs, nums) := PdfGroups(pages, nl);
    seq(|gs|, k requires 0 <= k < |gs| => CreateChunk(documentId, Join(gs[k], nl), k, fileName, nums[k], ids(k)))
  }

  /** The chunks emitted so far are the closed groups, numbered from 0, with their page labels. */
  predicate Emitted(chunks: seq<DocumentChunk>, st: PdfPacker, documentId: string, fileName: string, nl: string, ids: nat -> string)
  {
    && |chunks| == |st.packer.closed| == |st.pageNumbers|
    && forall k :: 0 <= k < |chunks| ==>
      chunks[k] == CreateChunk(documentId, Join(st.packer.closed[k], nl), k, fileName, st.pageNumbers[k], ids(k))
  }

  /** The buffer text and the chunks emitted so far agree with the loop state st. */
  predicate Agrees(chunks: seq<DocumentChunk>, currentChunk: string, st: PdfPacker,
                   documentId: string, fileName: string, nl: string, ids: nat -> string)
  {
    && currentChunk == Join(st.packer.open, nl)
    && (|currentChunk| > 0 <==> st.packer.open != [])
    && Emitted(chunks, st, documentId, fileName, nl, ids)
  }

  /** The state once the buffer is flushed as a chunk labelled with page `page`. */
  function Flushed(st: PdfPacker, page: nat): PdfPacker
  {
    PdfPacker(Packer(st.packer.closed + [st.packer.open], []), st.pageNumbers + [page])
  }

  /** The state once p is added to the buffer. */
  function Appended(st: PdfPacker, p: string): PdfPacker
  {
    PdfPacker(Packer(st.packer.closed, st.packer.open + [p]), st.pageNumbers)
  }

  /** One iteration is an optional flush followed by an append. */
  lemma StepPdfShape(st: PdfPacker, tp: Tagged, nl: string)
    ensures StepPdf(st, tp, nl) ==
      Appended(if Flushes(st.packer, tp.paragraph, nl) then Flushed(st, tp.page) else st, tp.paragraph)
  {
  }

  /** Flushing the buffer emits the open group as the next chunk. */
  lemma FlushAgrees(chunks: seq<DocumentChunk>, currentChunk: string, st: PdfPacker, page: nat,
                    documentId: string, fileName: string, nl: string, ids: nat -> string)
    requires Agrees(chunks, currentChunk, st, documentId, fileName, nl, ids) && st.packer.open != []
    ensures Agrees(chunks + [CreateChunk(documentId, currentChunk, |chunks|, fileName, page, ids(|chunks|))], "",
                   Flushed(st, page), documentId, fileName, nl, ids)
  {
    var n := |chunks|;
    var c := chunks + [CreateChunk(documentId, currentChunk, n, fileName, page, ids(n))];
    var st' := Flushed(st, page);
    forall k | 0 <= k < |c|
      ensures c[k] == CreateChunk(documentId, Join(st'.packer.closed[k], nl), k, fileName, st'.pageNumbers[k], ids(k))
    {
      if k < n {
        assert c[k] == chunks[k] && st'.packer.closed[k] == st.packer.closed[k] && st'.pageNumbers[k] == st.pageNumbers[k];
      }
    }
  }

  /** Adding a non-empty paragraph to the buffer adds it to the open group. */
  lemma AppendAgrees(chunks: seq<DocumentChunk>, currentChunk: string, st: PdfPacker, p: string,
                     documentId: string, fileName: string, nl: string, ids: nat -> string)
    requires Agrees(chunks, currentChunk, st, documentId, fileName, nl, ids) && |p| > 0
    ensures Agrees(chunks, (if |currentChunk| > 0 then currentChunk + nl else currentChunk) + p,
                   Appended(st, p), documentId, fileName, nl, ids)
  {
    BufferStep(Packer(st.packer.closed, st.packer.open), p, nl);
  }

  /** With the buffer empty, the chunks are the closed groups with their labels. */
  lemma FinishAgrees(chunks: seq<DocumentChunk>, st: PdfPacker, documentId: string, fileName: string, nl: string, ids: nat -> string)
    requires Agrees(chunks, "", st, documentId, fileName, nl, ids)
    ensures var (gs, nums) := (st.packer.closed, st.pageNumbers);
      chunks == seq(|gs|, k requires 0 <= k < |gs| => CreateChunk(documentId, Join(gs[k], nl), k, fileName, nums[k], ids(k)))
  {
  }

  /** ProcessDocumentAsync over the text of each page; nl is what AppendLine appends. */
  method ProcessDocument(pages: seq<string>, fileName: string, documentId: string, nl: string, ids: nat -> string)
    returns (chunks: seq<DocumentChunk>)
    ensures chunks == PdfChunks(pages, fileName, documentId, nl, ids)
  {
    chunks := [];
    var currentChunk := "";
    var chunkIndex := 0;
    var pageCount := 1;
    ghost var st := PdfStart;
    for j := 0 to |pages|
      invariant pageCount == j + 1
      invariant st == FeedTagged(PdfStart, TaggedParagraphs(pages[..j]), nl)
      invariant chunkIndex == |chunks|
      invariant Agrees(chunks, currentChunk, st, documentId, fileName, nl, ids)
    {
      var paragraphs := Split(pages[j]);
      SplitWellFormed(pages[j]);
      ghost var st' := FeedTagged(st, Tag(paragraphs, pageCount), nl);
      chunks, currentChunk, chunkIndex := PackPage(paragraphs, pageCount, chunks, currentChunk, chunkIndex,
                                                   st, fileName, documentId, nl, ids);
      TaggedParagraphsSnoc(pages, j);
      FeedTaggedConcat(PdfStart, TaggedParagraphs(pages[..j]), Tag(paragraphs, pageCount), nl);
      st := st';
      pageCount := pageCount + 1;
    }
    FullPrefix(pages);
    ghost var last := st;
    if |currentChunk| > 0 {
      FlushAgrees(chunks, currentChunk, st, pageCount - 1, documentId, fileName, nl, ids);
      chunks := chunks + [CreateChunk(documentId, currentChunk, chunkIndex, fileName, pageCount - 1, ids(chunkIndex))];
      chunkIndex := chunkIndex + 1;
      last := Flushed(st, pageCount - 1);
    }
    FinishAgrees(chunks, last, documentId, fileName, nl, ids);
    assert PdfGroups(pages, nl) == (last.packer.closed, last.pageNumbers);
  }

  lemma TaggedParagraphsSnoc(pages: seq<string>, j: nat)
    requires j < |pages|
    ensures TaggedParagraphs(pages[..j + 1]) == TaggedParagraphs(pages[..j]) + Tag(Split(pages[j]), j + 1)
  {
    PrefixOfPrefix(pages, j + 1, j);
  }

  /** The inner foreach over the paragraphs of page number pageCount, from the loop state st. */
  method PackPage(paragraphs: seq<string>, pageCount: nat, chunks0: seq<DocumentChunk>, currentChunk0: string,
                  chunkIndex0: nat, ghost st0: PdfPacker, fileName: string, documentId: string, nl: string, ids: nat -> string)
    returns (chunks: seq<DocumentChunk>, currentChunk: string, chunkIndex: nat)
    requires forall i :: 0 <= i < |paragraphs| ==> |paragraphs[i]| > 0
    requires chunkIndex0 == |chunks0|
    requires Agrees(chunks0, currentChunk0, st0, documentId, fileName, nl, ids)
    ensures chunkIndex == |chunks|
    ensures Agrees(chunks, currentChunk, FeedTagged(st0, Tag(paragraphs, pageCount), nl), documentId, fileName, nl, ids)
  {
    chunks, currentChunk, chunkIndex := chunks0, currentChunk0, chunkIndex0;
    ghost var st := st0;
    assert Tag(paragraphs[..0], pageCount) == [];
    for i := 0 to |paragraphs|
      invariant st == FeedTagged(st0, Tag(paragraphs[..i], pageCount), nl)
      invariant chunkIndex == |chunks|
      invariant Agrees(chunks, currentChunk, st, documentId, fileName, nl, ids)
    {
      var paragraph := paragraphs[i];
      TagSnoc(paragraphs, i, pageCount);
      FeedTaggedSnoc(st0, Tag(paragraphs[..i], pageCount), Tagged(paragraph, pageCount), nl);
      StepPdfShape(st, Tagged(paragraph, pageCount), nl);
      ghost var mid := st;
      if Utf16Length(currentChunk) + Utf16Length(paragraph) > MaxChunkLength {
        if |currentChunk| > 0 {
          FlushAgrees(chunks, currentChunk, st, pageCount, documentId, fileName, nl, ids);
          chunks := chunks + [CreateChunk(documentId, currentChunk, chunkIndex, fileName, pageCount, ids(chunkIndex))];
          chunkIndex := chunkIndex + 1;
          currentChunk := "";
          mid := Flushed(st, pageCount);
        }
      }
      AppendAgrees(chunks, currentChunk, mid, paragraph, documentId, fileName, nl, ids);
      if |currentChunk| > 0 {
        currentChunk := currentChunk + nl;
      }
      currentChunk := currentChunk + paragraph;
      st := StepPdf(st, Tagged(paragraph, pageCount), nl);
    }
    FullPrefix(paragraphs);
  }

  lemma TagSnoc(ps: seq<string>, i: nat, page: nat)
    requires i < |ps|
    ensures Tag(ps[..i + 1], page) == Tag(ps[..i], page) + [Tagged(ps[i], page)]
  {
  }

  lemma UntagSnoc(tps: seq<Tagged>)
    requires |tps| > 0
    ensures Untag(tps) == Untag(tps[..|tps| - 1]) + [tps[|tps| - 1].paragraph]
  {
  }

  lemma {:induction false} FeedTaggedConcat(st: PdfPacker, a: seq<Tagged>, b: seq<Tagged>, nl: string)
    ensures FeedTagged(st, a + b, nl) == FeedTagged(FeedTagged(st, a, nl), b, nl)
    decreases |b|
  {
    if |b| == 0 {
      assert a + b == a;
    } else {
      var b0 := b[..|b| - 1];
      ConcatDropLast(a, b);
      FeedTaggedConcat(st, a, b0, nl);
    }
  }

  // ----- What the PDF chunk list promises -----

  /** Forgetting the page labels, the loop is the paragraph packing of the text processor. */
  lemma {:induction false} FeedTaggedPacker(tps: seq<Tagged>, nl: string)
    ensures FeedTagged(PdfStart, tps, nl).packer == Feed(Start, Untag(tps), nl)
    decreases |tps|
  {
    if |tps| > 0 {
      var t0 := tps[..|tps| - 1];
      FeedTaggedPacker(t0, nl);
      UntagSnoc(tps);
      FeedSnoc(Untag(t0), tps[|tps| - 1].paragraph, nl);
    }
  }

  /** The tagged paragraphs are the paragraphs of the pages, in page order. */
  lemma {:induction false} UntagIsPageParagraphs(pages: seq<string>)
    ensures Untag(TaggedParagraphs(pages)) == PageParagraphs(pages)
    decreases |pages|
  {
    if |pages| > 0 {
      var p0 := pages[..|pages| - 1];
      UntagIsPageParagraphs(p0);
      var a, b := TaggedParagraphs(p0), Tag(Split(pages[|pages| - 1]), |pages|);
      assert Untag(a + b) == Untag(a) + Untag(b);
      assert Untag(b) == Split(pages[|pages| - 1]);
    }
  }

  /** Page labels run from 1 to n and never decrease. */
  ghost predicate PagesOrdered(tps: seq<Tagged>, n: nat)
  {
    && (forall i :: 0 <= i < |tps| ==> 1 <= tps[i].page <= n)
    && (forall i, j :: 0 <= i <= j < |tps| ==> tps[i].page <= tps[j].page)
  }

  /** Page labels of the paragraphs run from 1 to the number of pages and never decrease. */
  lemma {:induction false} TagsOrdered(pages: seq<string>)
    ensures PagesOrdered(TaggedParagraphs(pages), |pages|)
    decreases |pages|
  {
    if |pages| > 0 {
      var p0 := pages[..|pages| - 1];
      TagsOrdered(p0);
      var a, b := TaggedParagraphs(p0), Tag(Split(pages[|pages| - 1]), |pages|);
      var tps := a + b;
      assert tps == TaggedParagraphs(pages);
      forall i | 0 <= i < |tps|
        ensures 1 <= tps[i].page <= |pages|
      {
        if i < |a| {
          assert tps[i] == a[i];
        } else {
          assert tps[i] == b[i - |a|];
        }
      }
      forall i, j | 0 <= i <= j < |tps|
        ensures tps[i].page <= tps[j].page
      {
        if j < |a| {
          assert tps[i] == a[i] && tps[j] == a[j];
        } else if i < |a| {
          assert tps[i] == a[i] && tps[j] == b[j - |a|];
        } else {
          assert tps[i] == b[i - |a|] && tps[j] == b[j - |a|];
        }
      }
    }
  }

  /**
   * Each flushed chunk k is labelled with the page of the paragraph that caused the flush:
   * the one at position m = |Flatten(closed[..k + 1])|, the first paragraph of chunk k + 1.
   */
  ghost predicate LabelsFlushes(st: PdfPacker, tps: seq<Tagged>)
  {
    && |st.pageNumbers| == |st.packer.closed|
    && forall k :: 0 <= k < |st.packer.closed| ==> FlushLabel(st.packer.closed, st.pageNumbers, tps, k)
  }

  /** Chunk k carries the page of paragraph m = |Flatten(closed[..k + 1])|. */
  ghost predicate FlushLabel(closed: seq<seq<string>>, nums: seq<int>, tps: seq<Tagged>, k: nat)
    requires k < |closed|
  {
    var m := |Flatten(closed[..k + 1])|;
    k < |nums| && m < |tps| && nums[k] == tps[m].page
  }

  lemma {:induction false} FeedTaggedLabels(tps: seq<Tagged>, nl: string)
    ensures LabelsFlushes(FeedTagged(PdfStart, tps, nl), tps)
    decreases |tps|
  {
    if |tps| > 0 {
      var t0, tp := tps[..|tps| - 1], tps[|tps| - 1];
      DropLastSnoc(tps);
      FeedTaggedLabels(t0, nl);
      FeedTaggedPacker(t0, nl);
      FeedInv(Untag(t0), nl);
      LabelsStep(FeedTagged(PdfStart, t0, nl), t0, tp, nl);
    }
  }

  lemma LabelsStep(st: PdfPacker, tps: seq<Tagged>, tp: Tagged, nl: string)
    requires LabelsFlushes(st, tps)
    requires Inv(st.packer, Untag(tps), nl)
    ensures LabelsFlushes(StepPdf(st, tp, nl), tps + [tp])
  {
    var st' := StepPdf(st, tp, nl);
    var c, c' := st.packer.closed, st'.packer.closed;
    var flush := Flushes(st.packer, tp.paragraph, nl);
    assert c' == if flush then c + [st.packer.open] else c;
    assert st'.pageNumbers == if flush then st.pageNumbers + [tp.page] else st.pageNumbers;
    forall k | 0 <= k < |c'|
      ensures FlushLabel(c', st'.pageNumbers, tps + [tp], k)
    {
      if k < |c| {
        if flush {
          SnocPrefix(c, st.packer.open, k + 1);
          SnocPrefix(st.pageNumbers, tp.page, k + 1);
          assert st'.pageNumbers[k] == st.pageNumbers[k];
        }
        assert FlushLabel(c, st.pageNumbers, tps, k);
        LabelKept(c, st.pageNumbers, tps, tp, c', st'.pageNumbers, k);
      } else {
        LabelOfFlush(st, tps, tp, nl);
      }
    }
  }

  /** An earlier chunk keeps its label when the loop moves on. */
  lemma LabelKept(c: seq<seq<string>>, nums: seq<int>, tps: seq<Tagged>, tp: Tagged,
                  c': seq<seq<string>>, nums': seq<int>, k: nat)
    requires k < |c| <= |c'| && c'[..k + 1] == c[..k + 1]
    requires k < |nums'| && k < |nums| && nums'[k] == nums[k]
    requires FlushLabel(c, nums, tps, k)
    ensures FlushLabel(c', nums', tps + [tp], k)
  {
    var m := |Flatten(c[..k + 1])|;
    assert (tps + [tp])[m] == tps[m];
  }

  /** The chunk a flush emits is labelled with the page of the paragraph that caused it. */
  lemma LabelOfFlush(st: PdfPacker, tps: seq<Tagged>, tp: Tagged, nl: string)
    requires Inv(st.packer, Untag(tps), nl) && Flushes(st.packer, tp.paragraph, nl)
    requires |st.pageNumbers| == |st.packer.closed|
    ensures var c' := st.packer.closed + [st.packer.open];
      FlushLabel(c', st.pageNumbers + [tp.page], tps + [tp], |c'| - 1)
  {
    var c' := st.packer.closed + [st.packer.open];
    FullPrefix(c');
    FlattenSnoc(st.packer.closed, st.packer.open);
    assert |Flatten(c')| == |Untag(tps)| == |tps|;
    assert (tps + [tp])[|tps|] == tp;
  }

  lemma {:induction false} FlattenPrefixGrows(gs: seq<seq<string>>, a: nat, b: nat)
    requires a <= b <= |gs|
    ensures |Flatten(gs[..a])| <= |Flatten(gs[..b])|
    decreases b
  {
    if a < b {
      FlattenPrefixGrows(gs, a, b - 1);
      PrefixSnoc(gs, b);
      FlattenSnoc(gs[..b - 1], gs[b - 1]);
    }
  }

  lemma FlattenPrefixNext(gs: seq<seq<string>>, k: nat)
    requires k < |gs| && gs[k] != []
    ensures |Flatten(gs[..k])| < |Flatten(gs)| && Flatten(gs)[|Flatten(gs[..k])|] == gs[k][0]
  {
    PrefixSnoc(gs, k + 1);
    FlattenSnoc(gs[..k], gs[k]);
    FlattenPrefixGrows(gs, k + 1, |gs|);
    FullPrefix(gs);
    FlattenPrefixIsPrefix(gs, k + 1);
  }

  lemma {:induction false} FlattenPrefixIsPrefix(gs: seq<seq<string>>, a: nat)
    requires a <= |gs|
    ensures |Flatten(gs[..a])| <= |Flatten(gs)| && Flatten(gs)[..|Flatten(gs[..a])|] == Flatten(gs[..a])
    decreases |gs|
  {
    if a < |gs| {
      var g0 := gs[..|gs| - 1];
      DropLastSnoc(gs);
      FlattenSnoc(g0, gs[|gs| - 1]);
      PrefixOfPrefix(gs, |gs| - 1, a);
      FlattenPrefixIsPrefix(g0, a);
    } else {
      FullPrefix(gs);
    }
  }

  /** Forgetting the page labels, the PDF chunks are the greedy chunks of all pages' paragraphs in page order. */
  lemma PdfGroupsAreGroups(pages: seq<string>, nl: string)
    ensures PdfGroups(pages, nl).0 == Groups(PageParagraphs(pages), nl)
  {
    UntagIsPageParagraphs(pages);
    FeedTaggedPacker(TaggedParagraphs(pages), nl);
  }

  /**
   * Chunk k is labelled with the page of paragraph m = |Flatten(gs[..k + 1])|, the first
   * paragraph of chunk k + 1: the paragraph whose arrival flushed chunk k.
   */
  ghost predicate LabelledByNext(gs: seq<seq<string>>, nums: seq<int>, tps: seq<Tagged>, k: nat)
    requires k < |gs| - 1
  {
    var m := |Flatten(gs[..k + 1])|;
    && k < |nums| && gs[k + 1] != [] && m < |tps|
    && tps[m].paragraph == gs[k + 1][0] && nums[k] == tps[m].page
  }

  /** A chunk flushed inside the loop carries the page of the paragraph that opens the next chunk. */
  lemma PdfFlushLabels(pages: seq<string>, nl: string)
    ensures forall k :: 0 <= k < |PdfGroups(pages, nl).0| - 1 ==>
      LabelledByNext(PdfGroups(pages, nl).0, PdfGroups(pages, nl).1, TaggedParagraphs(pages), k)
  {
    var tps := TaggedParagraphs(pages);
    var st := FeedTagged(PdfStart, tps, nl);
    assert LabelsFlushes(st, tps) && Inv(st.packer, Untag(tps), nl) by {
      FeedTaggedLabels(tps, nl);
      FeedTaggedPacker(tps, nl);
      FeedInv(Untag(tps), nl);
    }
    FlushLabelsOfState(st, tps, nl);
    var (gs, nums) := PdfGroups(pages, nl);
    assert gs == Finish(st.packer);
    forall k | 0 <= k < |gs| - 1
      ensures LabelledByNext(gs, nums, tps, k)
    {
      assert LabelledByNext(gs, st.pageNumbers, tps, k);
      assert nums[k] == st.pageNumbers[k];
    }
  }

  lemma FlushLabelsOfState(st: PdfPacker, tps: seq<Tagged>, nl: string)
    requires LabelsFlushes(st, tps)
    requires Inv(st.packer, Untag(tps), nl)
    ensures forall k :: 0 <= k < |Finish(st.packer)| - 1 ==> LabelledByNext(Finish(st.packer), st.pageNumbers, tps, k)
  {
    var c := st.packer.closed;
    var gs := Finish(st.packer);
    OpenEmptyIff(st.packer, Untag(tps), nl);
    if st.packer.open != [] {
      FlattenSnoc(c, st.packer.open);
    }
    assert Flatten(gs) == Untag(tps);
    forall k | 0 <= k < |gs| - 1
      ensures LabelledByNext(gs, st.pageNumbers, tps, k)
    {
      assert k < |c| && gs[..k + 1] == c[..k + 1];
      var m := |Flatten(c[..k + 1])|;
      assert FlushLabel(c, st.pageNumbers, tps, k);
      assert m < |tps| && st.pageNumbers[k] == tps[m].page;
      assert gs[k + 1] != [];
      FlattenPrefixNext(gs, k + 1);
    }
  }

  /** The last chunk carries the number of pages. */
  lemma PdfLastLabel(pages: seq<string>, nl: string)
    ensures var (gs, nums) := PdfGroups(pages, nl);
      gs != [] ==> nums[|nums| - 1] == |pages|
  {
    var ps := PageParagraphs(pages);
    var st := FeedTagged(PdfStart, TaggedParagraphs(pages), nl);
    PdfGroupsAreGroups(pages, nl);
    UntagIsPageParagraphs(pages);
    FeedTaggedPacker(TaggedParagraphs(pages), nl);
    FeedInv(ps, nl);
    OpenEmptyIff(st.packer, ps, nl);
  }

  /** Page labels lie in 1..|pages| and never decrease from one chunk to the next. */
  lemma PdfLabelsOrdered(pages: seq<string>, nl: string)
    ensures var nums := PdfGroups(pages, nl).1;
      && (forall k :: 0 <= k < |nums| ==> 1 <= nums[k] <= |pages|)
      && (forall k, l :: 0 <= k <= l < |nums| ==> nums[k] <= nums[l])
  {
    var nums := PdfGroups(pages, nl).1;
    PdfFlushLabels(pages, nl);
    PdfLastLabel(pages, nl);
    TagsOrdered(pages);
    forall k | 0 <= k < |nums|
      ensures 1 <= nums[k] <= |pages|
    {
      PdfLabelInRange(pages, nl, k);
    }
    forall k, l | 0 <= k <= l < |nums|
      ensures nums[k] <= nums[l]
    {
      PdfLabelsPair(pages, nl, k, l);
    }
  }

  lemma PdfLabelInRange(pages: seq<string>, nl: string, k: nat)
    requires k < |PdfGroups(pages, nl).1|
    requires forall k :: 0 <= k < |PdfGroups(pages, nl).0| - 1 ==>
      LabelledByNext(PdfGroups(pages, nl).0, PdfGroups(pages, nl).1, TaggedParagraphs(pages), k)
    requires PdfGroups(pages, nl).0 != [] ==> PdfGroups(pages, nl).1[|PdfGroups(pages, nl).1| - 1] == |pages|
    requires PagesOrdered(TaggedParagraphs(pages), |pages|)
    ensures 1 <= PdfGroups(pages, nl).1[k] <= |pages|
  {
    var (gs, nums) := PdfGroups(pages, nl);
    if k < |gs| - 1 {
      assert LabelledByNext(gs, nums, TaggedParagraphs(pages), k);
    }
  }

  lemma PdfLabelsPair(pages: seq<string>, nl: string, k: nat, l: nat)
    requires k <= l < |PdfGroups(pages, nl).1|
    requires forall k :: 0 <= k < |PdfGroups(pages, nl).0| - 1 ==>
      LabelledByNext(PdfGroups(pages, nl).0, PdfGroups(pages, nl).1, TaggedParagraphs(pages), k)
    requires PdfGroups(pages, nl).0 != [] ==> PdfGroups(pages, nl).1[|PdfGroups(pages, nl).1| - 1] == |pages|
    requires PagesOrdered(TaggedParagraphs(pages), |pages|)
    ensures PdfGroups(pages, nl).1[k] <= PdfGroups(pages, nl).1[l]
  {
    var tps := TaggedParagraphs(pages);
    var (gs, nums) := PdfGroups(pages, nl);
    if l < |gs| - 1 {
      assert LabelledByNext(gs, nums, tps, k) && LabelledByNext(gs, nums, tps, l);
      FlattenPrefixGrows(gs, k + 1, l + 1);
    } else if k < |gs| - 1 {
      assert LabelledByNext(gs, nums, tps, k);
    }
  }

  /** Every chunk of a PDF, with its index, identifier, content and page label. */
  lemma PdfChunksProperties(pages: seq<string>, fileName: string, documentId: string, nl: string, ids: nat -> string)
    ensures var chunks := PdfChunks(pages, fileName, documentId, nl, ids);
      var ps := PageParagraphs(pages);
      var (gs, nums) := PdfGroups(pages, nl);
      && |chunks| == |Chunks(ps, nl)|
      && (forall k :: 0 <= k < |chunks| ==>
            chunks[k] == CreateChunk(documentId, Chunks(ps, nl)[k], k, fileName, nums[k], ids(k)))
      && Join(Chunks(ps, nl), nl) == Join(ps, nl)
      && (forall k :: 0 <= k < |chunks| ==> chunks[k].content != "")
      && (forall k :: 0 <= k < |chunks| ==> |gs[k]| == 1 || Utf16Length(chunks[k].content) <= MaxChunkLength + Utf16Length(nl))
      && (forall k :: 0 <= k < |chunks| - 1 ==>
            gs[k + 1] != [] && Utf16Length(chunks[k].content) + Utf16Length(gs[k + 1][0]) > MaxChunkLength)
      && (chunks == [] <==> ps == [])
  {
    var ps := PageParagraphs(pages);
    PdfGroupsAreGroups(pages, nl);
    ChunksJoin(ps, nl);
    ChunksBounded(ps, nl);
    ChunksGreedy(ps, nl);
    ChunksEmptyIff(ps, nl);
    PageParagraphsWellFormed(pages);
    ChunksNonEmpty(ps, nl);
  }

  lemma {:induction false} PageParagraphsWellFormed(pages: seq<string>)
    ensures forall i :: 0 <= i < |PageParagraphs(pages)| ==> PageParagraphs(pages)[i] != ""
    decreases |pages|
  {
    if |pages| > 0 {
      var p0 := pages[..|pages| - 1];
      PageParagraphsWellFormed(p0);
      SplitWellFormed(pages[|pages| - 1]);
      var a, b := PageParagraphs(p0), Split(pages[|pages| - 1]);
      assert forall i :: 0 <= i < |a + b| ==> (a + b)[i] == if i < |a| then a[i] else b[i - |a|];
    }
  }

  /**
   * The buffer is kept across pages: two pages of one short paragraph each make a single chunk
   * holding both, labelled with the second page.
   */
  lemma ChunkSpansPages(p1: string, p2: string, nl: string)
    requires Split(p1) == [p1] && Split(p2) == [p2]
    requires Utf16Length(p1) + Utf16Length(p2) <= MaxChunkLength
    ensures PdfGroups([p1, p2], nl) == ([[p1, p2]], [2])
  {
    var pages := [p1, p2];
    assert pages[..1] == [p1];
    assert [p1][..0] == [];
    var tps := [Tagged(p1, 1), Tagged(p2, 2)];
    assert TaggedParagraphs([p1]) == [] + Tag([p1], 1);
    assert TaggedParagraphs(pages) == tps;
    var st1 := PdfPacker(Packer([], [p1]), []);
    assert tps[..1] == [Tagged(p1, 1)] && tps[..1][..0] == [];
    assert FeedTagged(PdfStart, tps[..1], nl) == st1;
    assert Join([p1], nl) == p1;
    assert FeedTagged(PdfStart, tps, nl) == StepPdf(st1, Tagged(p2, 2), nl);
    assert [p1] + [p2] == [p1, p2];
    var st2 := PdfPacker(Packer([], [p1, p2]), []);
    assert StepPdf(st1, Tagged(p2, 2), nl) == st2;
    var gs: seq<seq<string>> := [];
    var nums: seq<int> := [];
    assert PdfGroups(pages, nl) == (gs + [[p1, p2]], nums + [2]);
    assert gs + [[p1, p2]] == [[p1, p2]] && nums + [2] == [2];
  }
}
