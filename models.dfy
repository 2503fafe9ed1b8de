/**
 * The records that travel through the pipeline: document chunks with their metadata
 * dictionary, similarity results, the question and answer records and the RAG settings.
 */
module Models {
  import opened Wrappers
  import opened Strings

  /** A boxed value in a metadata dictionary (Dictionary<string, object>). */
  datatype Value = Str(s: string) | Int(i: int) | Null

  type Metadata = map<string, Value>

  const Int32Max: int := 0x7FFF_FFFF
  const Int32Min: int := -0x8000_0000

  const OverflowMessage: string := "Value was either too large or too small for an Int32."

  datatype DocumentChunk = DocumentChunk(
    id: string,
    documentId: string,
    content: string,
    chunkIndex: int,
    metadata: Metadata)

  datatype SimilarityResult = SimilarityResult(
    documentId: string,
    chunkId: string,
    content: string,
    score: real,
    metadata: Metadata)

  datatype RagQuery = RagQuery(question: string, sessionId: string, maxSources: int, minScore: real)

  /** A query with the defaults of the record's initializers. */
  function DefaultQuery(question: string, sessionId: string): (q: RagQuery)
    ensures q.maxSources == 5 && q.minScore == 0.7
    ensures q.question == question && q.sessionId == sessionId
  {
    RagQuery(question, sessionId, 5, 0.7)
  }

  /** processingTime is the stopwatch reading, in the clock's own ticks. */
  datatype RagResponse = RagResponse(
    answer: string,
    sources: seq<SimilarityResult>,
    sessionId: string,
    success: bool,
    errorMessage: Option<string>,
    processingTime: nat,
    tokensUsed: int)

  datatype RagSettings = RagSettings(
    maxSources: int,
    minScore: real,
    noResultsMessage: string,
    errorMessage: string)

  const DefaultSettings: RagSettings := RagSettings(
    5, 0.7,
    "I couldn't find any relevant information to answer your question.",
    "An error occurred while processing your request. Please try again.")

  /** A fresh response carrying only the session: the other members keep their initial values. */
  function NewResponse(sessionId: string): (r: RagResponse)
    ensures r.sessionId == sessionId && r.success && r.errorMessage == None
    ensures r.answer == "" && r.sources == [] && r.processingTime == 0 && r.tokensUsed == 0
  {
    RagResponse("", [], sessionId, true, None, 0, 0)
  }

  /** The text of a metadata value: a string as it is, an integer in decimal, nothing for null. */
  function Render(v: Value): string
  {
    match v
    case Str(s) => s
    case Int(i) => IntToString(i)
    case Null => ""
  }

  /** The content a result reads from the metadata: the rendered "content" entry, or "" without one. */
  function ContentOf(md: Metadata): (c: string)
    ensures "content" !in md ==> c == ""
    ensures "content" in md && md["content"].Str? ==> c == md["content"].s
  {
    if "content" in md then Render(md["content"]) else ""
  }

  /** s without its leading sign, if it has one. */
  function Unsigned(s: string): string
  {
    if |s| > 0 && (s[0] == '-' || s[0] == '+') then s[1..] else s
  }

  /** An optional sign followed by at least one decimal digit. */
  predicate IsInteger(s: string)
  {
    |Unsigned(s)| > 0 && AllDigits(Unsigned(s))
  }

  function ParseInteger(s: string): int
    requires IsInteger(s)
  {
    var n: int := DigitsValue(Unsigned(s));
    if s[0] == '-' then -n else n
  }

  /** The conversion of a boxed value to a 32-bit integer: null is 0, an integer must fit 32 bits, a string is parsed. */
  function ToInt32(v: Value): (r: Result<int>)
    ensures r.Success? ==> Int32Min <= r.value <= Int32Max
    ensures v.Null? ==> r == Success(0)
    ensures v.Int? ==> (r.Success? <==> Int32Min <= v.i <= Int32Max)
    ensures v.Int? && r.Success? ==> r.value == v.i
  {
    match v
    case Null => Success(0)
    case Int(i) => if Int32Min <= i <= Int32Max then Success(i) else Failure(OverflowMessage)
    case Str(s) =>
      if !IsInteger(s) then Failure("The input string '" + s + "' was not in a correct format.")
      else
        var n := ParseInteger(s);
        if Int32Min <= n <= Int32Max then Success(n) else Failure(OverflowMessage)
  }

  /** The chunk index a row reads from the metadata: the "chunkIndex" entry converted to a 32-bit integer, 0 without one. */
  function ChunkIndexOf(md: Metadata): (r: Result<int>)
    ensures "chunkIndex" !in md ==> r == Success(0)
  {
    if "chunkIndex" in md then ToInt32(md["chunkIndex"]) else Success(0)
  }

  /** Reading back a rendered integer gives the integer. */
  lemma ParseRendered(i: int)
    ensures IsInteger(IntToString(i)) && ParseInteger(IntToString(i)) == i
  {
    NatToStringRoundTrip(if i < 0 then -i else i);
    if i < 0 {
      assert IntToString(i)[1..] == NatToString(-i);
    }
  }

  /** A rendered integer stored as text converts back to the same integer. */
  lemma ToInt32OfRendered(i: int)
    requires Int32Min <= i <= Int32Max
    ensures ToInt32(Str(IntToString(i))) == Success(i)
  {
    ParseRendered(i);
  }
}
