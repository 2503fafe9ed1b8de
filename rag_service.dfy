/**
 * The question-answering service: embed the question, search the store for the best
 * MaxSources chunks, keep those scoring at least MinScore, and ask the completion gateway
 * with a prompt that lists them as numbered sources. Every failure is caught and turned
 * into an unsuccessful response; the service itself never fails.
 *
 * The gateways are parameters: `embed` (the embedding call), `search` (the store's
 * FindSimilar) and `complete` (the completion call); each returns a success or the message
 * of the exception it threw. `elapsed` is the stopwatch reading when it is taken.
 */
module RagService {
  import opened Wrappers
  import opened Strings
  import opened Models
  import opened Seqs

  /** The message of the overflow exception the checked LINQ Sum throws. */
  const SumOverflowMessage: string := "Arithmetic operation resulted in an overflow."

  const Preamble: string := "Based on the following information:\n"

  const Instruction: string :=
    "\nPlease provide a comprehensive answer based ONLY on the information above. "
    + "If the information doesn't contain the answer, say so. "
    + "When referencing information, cite the source number like [Source 1]."

  /** The results that score at least minScore, in their original order. */
  function Relevant(xs: seq<SimilarityResult>, minScore: real): (r: seq<SimilarityResult>)
    ensures forall x :: x in r <==> x in xs && x.score >= minScore
    ensures |r| <= |xs|
    decreases |xs|
  {
    if |xs| == 0 then []
    else
      var rest := Relevant(xs[..|xs| - 1], minScore);
      var last := xs[|xs| - 1];
      DropLastSnoc(xs);
      if last.score >= minScore then rest + [last] else rest
  }

  /** The filter keeps order: filtering a concatenation concatenates the filtered parts. */
  lemma {:induction false} RelevantConcat(a: seq<SimilarityResult>, b: seq<SimilarityResult>, minScore: real)
    ensures Relevant(a + b, minScore) == Relevant(a, minScore) + Relevant(b, minScore)
    decreases |b|
  {
    if |b| > 0 {
      var b0 := b[..|b| - 1];
      var last := b[|b| - 1];
      var tail := if last.score >= minScore then [last] else [];
      RelevantConcat(a, b0, minScore);
      ConcatDropLast(a, b);
      assert (a + b)[|a + b| - 1] == last;
      assert Relevant(a + b, minScore) == Relevant(a + b0, minScore) + tail;
      assert Relevant(b, minScore) == Relevant(b0, minScore) + tail;
      Assoc(Relevant(a, minScore), Relevant(b0, minScore), tail);
    } else {
      assert a + b == a;
    }
  }

  /** When every result passes, the filter returns the results unchanged. */
  lemma {:induction false} RelevantAll(xs: seq<SimilarityResult>, minScore: real)
    requires forall i :: 0 <= i < |xs| ==> xs[i].score >= minScore
    ensures Relevant(xs, minScore) == xs
    decreases |xs|
  {
    if |xs| > 0 {
      RelevantAll(xs[..|xs| - 1], minScore);
      DropLastSnoc(xs);
    }
  }

  /** The sum of the sources' content lengths, in UTF-16 code units as .NET counts them. */
  function TotalLength(xs: seq<SimilarityResult>): nat
    decreases |xs|
  {
    if |xs| == 0 then 0 else TotalLength(xs[..|xs| - 1]) + Utf16Length(xs[|xs| - 1].content)
  }

  /**
   * The sum of the sources' content lengths taken in 32-bit arithmetic with overflow checking:
   * it fails with the overflow message as soon as a partial sum leaves the 32-bit range.
   */
  function CheckedSum(xs: seq<SimilarityResult>): Result<int>
    decreases |xs|
  {
    if |xs| == 0 then Success(0)
    else
      match CheckedSum(xs[..|xs| - 1])
      case Failure(e) => Failure(e)
      case Success(s) =>
        var t := s + Utf16Length(xs[|xs| - 1].content);
        if t > Int32Max then Failure(SumOverflowMessage) else Success(t)
  }

  /** The checked sum fails exactly when the total length exceeds the 32-bit range, and is the total otherwise. */
  lemma {:induction false} CheckedSumIsTotal(xs: seq<SimilarityResult>)
    ensures CheckedSum(xs) == if TotalLength(xs) <= Int32Max then Success(TotalLength(xs)) else Failure(SumOverflowMessage)
    decreases |xs|
  {
    if |xs| > 0 {
      CheckedSumIsTotal(xs[..|xs| - 1]);
    }
  }

  /** The rough token estimate: a quarter of each length, with integer division. */
  function TokenEstimate(question: string, answer: string, total: nat): nat
  {
    Utf16Length(question) / 4 + Utf16Length(answer) / 4 + total / 4
  }

  /** The block the prompt gives source number k: its label line, its content line and an empty line. */
  function SourceBlock(k: nat, content: string, nl: string): string
  {
    ("[Source " + NatToString(k) + "]" + nl) + (content + nl) + nl
  }

  /** The blocks of all sources, numbered from 1 in list order. */
  function SourceBlocks(sources: seq<SimilarityResult>, nl: string): string
    decreases |sources|
  {
    if |sources| == 0 then ""
    else SourceBlocks(sources[..|sources| - 1], nl) + SourceBlock(|sources|, sources[|sources| - 1].content, nl)
  }

  lemma SourceBlocksSnoc(sources: seq<SimilarityResult>, i: nat, nl: string)
    requires i < |sources|
    ensures SourceBlocks(sources[..i + 1], nl) == SourceBlocks(sources[..i], nl) + SourceBlock(i + 1, sources[i].content, nl)
  {
    PrefixOfPrefix(sources, i + 1, i);
  }

  /** The question line and the instruction line that close the prompt. */
  function QuestionLines(question: string, nl: string): string
  {
    ("Question: " + question + nl) + (Instruction + nl)
  }

  /** The prompt of GenerateAnswerWithSourcesAsync; every AppendLine ends its line with nl. */
  function Prompt(question: string, sources: seq<SimilarityResult>, nl: string): string
  {
    (Preamble + nl) + SourceBlocks(sources, nl) + QuestionLines(question, nl)
  }

  /** StringBuilder loop of the prompt; the prompt is then sent to the completion gateway. */
  method BuildPrompt(question: string, sources: seq<SimilarityResult>, nl: string) returns (prompt: string)
    ensures prompt == Prompt(question, sources, nl)
  {
    prompt := Preamble + nl;
    for i := 0 to |sources|
      invariant prompt == (Preamble + nl) + SourceBlocks(sources[..i], nl)
    {
      ghost var before := prompt;
      var labelLine := "[Source " + NatToString(i + 1) + "]" + nl;
      prompt := prompt + labelLine;
      prompt := prompt + (sources[i].content + nl);
      prompt := prompt + nl;
      Assoc(before, labelLine, sources[i].content + nl);
      Assoc(before, labelLine + (sources[i].content + nl), nl);
      SourceBlocksSnoc(sources, i, nl);
      Assoc(Preamble + nl, SourceBlocks(sources[..i], nl), SourceBlock(i + 1, sources[i].content, nl));
    }
    FullPrefix(sources);
    ghost var body := prompt;
    prompt := prompt + ("Question: " + question + nl);
    prompt := prompt + (Instruction + nl);
    Assoc(body, "Question: " + question + nl, Instruction + nl);
  }

  method GenerateAnswerWithSources(question: string, sources: seq<SimilarityResult>, nl: string,
                                   complete: string -> Result<string>) returns (answer: Result<string>)
    ensures answer == complete(Prompt(question, sources, nl))
  {
    var prompt := BuildPrompt(question, sources, nl);
    answer := complete(prompt);
  }

  /**
   * Source number k + 1 introduces sources[k]: the prompt begins with the preamble, the blocks
   * of the sources before it and then its own block with its content.
   */
  lemma PromptLabels(question: string, sources: seq<SimilarityResult>, nl: string, k: nat)
    requires k < |sources|
    ensures StartsWith(Prompt(question, sources, nl),
      Preamble + nl + SourceBlocks(sources[..k], nl) + SourceBlock(k + 1, sources[k].content, nl))
  {
    BlockStarts(Preamble + nl, sources, k, QuestionLines(question, nl), nl);
  }

  /** Between any head and tail, the blocks up to number k + 1 start right after the head. */
  lemma BlockStarts(head: string, sources: seq<SimilarityResult>, k: nat, tail: string, nl: string)
    requires k < |sources|
    ensures StartsWith(head + SourceBlocks(sources, nl) + tail,
      head + SourceBlocks(sources[..k], nl) + SourceBlock(k + 1, sources[k].content, nl))
  {
    var bk := SourceBlocks(sources[..k], nl);
    var blk := SourceBlock(k + 1, sources[k].content, nl);
    var bk1 := SourceBlocks(sources[..k + 1], nl);
    SourceBlocksSnoc(sources, k, nl);
    BlocksPrefix(sources, k + 1, nl);
    PrefixExtend(head, SourceBlocks(sources, nl), bk1, tail);
    Assoc(head, bk, blk);
  }

  /** The blocks of the first n sources begin the blocks of all of them. */
  lemma {:induction false} BlocksPrefix(sources: seq<SimilarityResult>, n: nat, nl: string)
    requires n <= |sources|
    ensures StartsWith(SourceBlocks(sources, nl), SourceBlocks(sources[..n], nl))
    decreases |sources| - n
  {
    if n < |sources| {
      BlocksPrefix(sources, n + 1, nl);
      SourceBlocksSnoc(sources, n, nl);
      var b := SourceBlocks(sources[..n], nl);
      PrefixOfAppend(b, SourceBlock(n + 1, sources[n].content, nl));
      PrefixTrans(SourceBlocks(sources, nl), SourceBlocks(sources[..n + 1], nl), b);
    } else {
      FullPrefix(sources);
      FullPrefix(SourceBlocks(sources, nl));
    }
  }

  /** The prompt ends with the question line and the instruction. */
  lemma PromptEndsWithQuestion(question: string, sources: seq<SimilarityResult>, nl: string)
    ensures var p := Prompt(question, sources, nl);
      var tail := "Question: " + question + nl + Instruction + nl;
      |p| >= |tail| && p[|p| - |tail|..] == tail
  {
    var head := (Preamble + nl) + SourceBlocks(sources, nl);
    var ql, il := "Question: " + question + nl, Instruction + nl;
    SuffixOfAppend(head, ql + il);
    Assoc(ql, Instruction, nl);
  }

  /** The catch block: the failure is recorded, the answer is the configured error message. */
  function Caught(r: RagResponse, settings: RagSettings, error: string, elapsed: nat): RagResponse
  {
    r.(success := false, errorMessage := Some(error), answer := settings.errorMessage, processingTime := elapsed)
  }

  /** The response AskQuestionAsync returns, path by path. */
  function Ask(query: RagQuery, settings: RagSettings, embed: string -> Result<seq<real>>,
               search: (seq<real>, int) -> Result<seq<SimilarityResult>>, complete: string -> Result<string>,
               nl: string, elapsed: nat): RagResponse
  {
    var start := NewResponse(query.sessionId);
    match embed(query.question)
    case Failure(e) => Caught(start, settings, e, elapsed)
    case Success(embedding) =>
      match search(embedding, query.maxSources)
      case Failure(e) => Caught(start, settings, e, elapsed)
      case Success(similar) =>
        var relevant := Relevant(similar, query.minScore);
        if |relevant| == 0 then start.(answer := settings.noResultsMessage, sources := [])
        else
          match complete(Prompt(query.question, relevant, nl))
          case Failure(e) => Caught(start, settings, e, elapsed)
          case Success(answer) =>
            var answered := start.(answer := answer, sources := relevant, success := true);
            match CheckedSum(relevant)
            case Failure(e) => Caught(answered, settings, e, elapsed)
            case Success(total) =>
              answered.(tokensUsed := Utf16Length(query.question) / 4 + Utf16Length(answer) / 4 + total / 4,
                        processingTime := elapsed)
  }

  /** AskQuestionAsync: the response is filled in step by step; a failed step jumps to the catch block. */
  method AskQuestion(query: RagQuery, settings: RagSettings, embed: string -> Result<seq<real>>,
                     search: (seq<real>, int) -> Result<seq<SimilarityResult>>, complete: string -> Result<string>,
                     nl: string, elapsed: nat) returns (response: RagResponse)
    ensures response == Ask(query, settings, embed, search, complete, nl, elapsed)
  {
    response := NewResponse(query.sessionId);
    var embedding := embed(query.question);
    if embedding.Failure? {
      response := Caught(response, settings, embedding.error, elapsed);
      return;
    }
    var similarDocs := search(embedding.value, query.maxSources);
    if similarDocs.Failure? {
      response := Caught(response, settings, similarDocs.error, elapsed);
      return;
    }
    var relevantDocs := Relevant(similarDocs.value, query.minScore);
    if |relevantDocs| == 0 {
      response := response.(answer := settings.noResultsMessage);
      response := response.(sources := []);
      return;
    }
    var answer := GenerateAnswerWithSources(query.question, relevantDocs, nl, complete);
    if answer.Failure? {
      response := Caught(response, settings, answer.error, elapsed);
      return;
    }
    response := response.(answer := answer.value);
    response := response.(sources := relevantDocs);
    response := response.(success := true);
    var total := CheckedSum(relevantDocs);
    if total.Failure? {
      response := Caught(response, settings, total.error, elapsed);
      return;
    }
    response := response.(tokensUsed := Utf16Length(query.question) / 4 + Utf16Length(answer.value) / 4 + total.value / 4);
    response := response.(processingTime := elapsed);
  }

  /** Every path copies the session id from the query. */
  lemma AskKeepsSession(query: RagQuery, settings: RagSettings, embed: string -> Result<seq<real>>,
                        search: (seq<real>, int) -> Result<seq<SimilarityResult>>, complete: string -> Result<string>,
                        nl: string, elapsed: nat)
    ensures Ask(query, settings, embed, search, complete, nl, elapsed).sessionId == query.sessionId
  {
  }

  /** The store is asked for exactly query.MaxSources results: no other search matters. */
  lemma AskSearchesMaxSources(query: RagQuery, settings: RagSettings, embed: string -> Result<seq<real>>,
                              search1: (seq<real>, int) -> Result<seq<SimilarityResult>>,
                              search2: (seq<real>, int) -> Result<seq<SimilarityResult>>,
                              complete: string -> Result<string>, nl: string, elapsed: nat)
    requires forall e :: search1(e, query.maxSources) == search2(e, query.maxSources)
    ensures Ask(query, settings, embed, search1, complete, nl, elapsed) == Ask(query, settings, embed, search2, complete, nl, elapsed)
  {
    match embed(query.question)
    case Failure(_) =>
    case Success(e) =>
      assert search1(e, query.maxSources) == search2(e, query.maxSources);
  }

  /**
   * With no result at or above MinScore the answer is the configured no-results message, there
   * are no sources, Success keeps its default true, the response returns before ProcessingTime
   * is set, and the completion gateway is not consulted.
   */
  lemma AskNoResults(query: RagQuery, settings: RagSettings, embed: string -> Result<seq<real>>,
                     search: (seq<real>, int) -> Result<seq<SimilarityResult>>,
                     complete1: string -> Result<string>, complete2: string -> Result<string>,
                     nl: string, elapsed: nat)
    requires embed(query.question).Success?
    requires search(embed(query.question).value, query.maxSources).Success?
    requires Relevant(search(embed(query.question).value, query.maxSources).value, query.minScore) == []
    ensures var r := Ask(query, settings, embed, search, complete1, nl, elapsed);
      && r.answer == settings.noResultsMessage && r.sources == [] && r.success && r.errorMessage == None
      && r.processingTime == 0 && r.tokensUsed == 0
      && r == Ask(query, settings, embed, search, complete2, nl, elapsed)
  {
  }

  /**
   * A successful answer: the sources are exactly the search results scoring at least MinScore,
   * in order; the answer is the completion of the prompt over those sources, verbatim; and the
   * token estimate is a quarter of the question, answer and total source lengths.
   */
  lemma AskAnswered(query: RagQuery, settings: RagSettings, embed: string -> Result<seq<real>>,
                    search: (seq<real>, int) -> Result<seq<SimilarityResult>>, complete: string -> Result<string>,
                    nl: string, elapsed: nat)
    requires embed(query.question).Success?
    requires search(embed(query.question).value, query.maxSources).Success?
    requires var relevant := Relevant(search(embed(query.question).value, query.maxSources).value, query.minScore);
      && relevant != [] && complete(Prompt(query.question, relevant, nl)).Success?
      && TotalLength(relevant) <= Int32Max
    ensures var relevant := Relevant(search(embed(query.question).value, query.maxSources).value, query.minScore);
      var r := Ask(query, settings, embed, search, complete, nl, elapsed);
      && r.success && r.errorMessage == None
      && r.sources == relevant
      && r.answer == complete(Prompt(query.question, relevant, nl)).value
      && r.tokensUsed == TokenEstimate(query.question, r.answer, TotalLength(relevant))
      && r.processingTime == elapsed
  {
    var relevant := Relevant(search(embed(query.question).value, query.maxSources).value, query.minScore);
    CheckedSumIsTotal(relevant);
  }

  /**
   * Every unsuccessful response is a caught failure: it carries the exception's message and the
   * configured error answer. A failure of the embedding, search or completion gateway leads to
   * one carrying that gateway's message; before the answer arrives no source is kept.
   */
  lemma AskFailure(query: RagQuery, settings: RagSettings, embed: string -> Result<seq<real>>,
                   search: (seq<real>, int) -> Result<seq<SimilarityResult>>, complete: string -> Result<string>,
                   nl: string, elapsed: nat)
    ensures var r := Ask(query, settings, embed, search, complete, nl, elapsed);
      && (!r.success ==> r.errorMessage.Some? && r.answer == settings.errorMessage && r.processingTime == elapsed && r.tokensUsed == 0)
      && (r.success ==> r.errorMessage == None)
      && (embed(query.question).Failure? ==> !r.success && r.errorMessage == Some(embed(query.question).error) && r.sources == [])
      && (embed(query.question).Success? && search(embed(query.question).value, query.maxSources).Failure? ==>
            !r.success && r.errorMessage == Some(search(embed(query.question).value, query.maxSources).error) && r.sources == [])
      && (embed(query.question).Success? && search(embed(query.question).value, query.maxSources).Success? ==>
            var relevant := Relevant(search(embed(query.question).value, query.maxSources).value, query.minScore);
            var answer := complete(Prompt(query.question, relevant, nl));
            relevant != [] && answer.Failure? ==>
              && !r.success && r.errorMessage == Some(answer.error) && r.answer == settings.errorMessage
              && r.sources == [] && r.processingTime == elapsed)
  {
  }

  /** A checked-sum overflow after the answer arrived: the failure keeps the sources already set. */
  lemma AskOverflowKeepsSources(query: RagQuery, settings: RagSettings, embed: string -> Result<seq<real>>,
                                search: (seq<real>, int) -> Result<seq<SimilarityResult>>, complete: string -> Result<string>,
                                nl: string, elapsed: nat)
    requires embed(query.question).Success?
    requires search(embed(query.question).value, query.maxSources).Success?
    requires var relevant := Relevant(search(embed(query.question).value, query.maxSources).value, query.minScore);
      && relevant != [] && complete(Prompt(query.question, relevant, nl)).Success?
      && TotalLength(relevant) > Int32Max
    ensures var relevant := Relevant(search(embed(query.question).value, query.maxSources).value, query.minScore);
      var r := Ask(query, settings, embed, search, complete, nl, elapsed);
      && !r.success && r.errorMessage == Some(SumOverflowMessage) && r.sources == relevant
      && r.answer == settings.errorMessage && r.tokensUsed == 0
  {
    var relevant := Relevant(search(embed(query.question).value, query.maxSources).value, query.minScore);
    CheckedSumIsTotal(relevant);
  }
}
