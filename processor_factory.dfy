/**
 * Processor selection: the factory takes the file name's extension and returns the first
 * registered processor that accepts it, or none.
 */
module DocumentProcessorFactory {
  import opened Wrappers
  import Text = TextDocumentProcessor
  import Pdf = PdfDocumentProcessor

  /** The document processors of the system. */
  datatype Processor = TextProcessor | PdfProcessor

  /** IDocumentProcessor.CanProcess of each processor. */
  predicate CanProcess(p: Processor, extension: string)
  {
    match p
    case TextProcessor => Text.CanProcess(extension)
    case PdfProcessor => Pdf.CanProcess(extension)
  }

  /** path[k] is a '.' with at least one character after it and no '.' or '/' after it. */
  predicate ExtensionDot(path: string, k: int)
  {
    && 0 <= k < |path| - 1 && path[k] == '.'
    && forall j :: k < j < |path| ==> path[j] != '.' && path[j] != '/'
  }

  /**
   * Path.GetExtension with '/' as the only directory separator: the text from the last '.'
   * of the last path segment, or "" when that segment has no '.' or ends with it.
   */
  function Extension(path: string): (e: string)
    ensures e != "" <==> exists k :: ExtensionDot(path, k)
    ensures forall k :: ExtensionDot(path, k) ==> e == path[k..]
  {
    ExtensionBefore(path, |path|)
  }

  /** Scanning path[..i] backwards for the extension's dot; no '.' or '/' comes after i. */
  function ExtensionBefore(path: string, i: nat): (e: string)
    requires i <= |path|
    requires forall j :: i <= j < |path| ==> path[j] != '.' && path[j] != '/'
    ensures e != "" <==> exists k :: ExtensionDot(path, k)
    ensures forall k :: ExtensionDot(path, k) ==> e == path[k..]
    decreases i
  {
    if i == 0 then ""
    else if path[i - 1] == '.' then
      (if i == |path| then "" else assert ExtensionDot(path, i - 1); path[i - 1..])
    else if path[i - 1] == '/' then ""
    else ExtensionBefore(path, i - 1)
  }

  /** The first of the registered processors that accepts the extension, if any. */
  function FirstAccepting(processors: seq<Processor>, extension: string): Option<Processor>
  {
    if |processors| == 0 then None
    else if CanProcess(processors[0], extension) then Some(processors[0])
    else FirstAccepting(processors[1..], extension)
  }

  /** The processor chosen is the first one, in list order, that accepts the extension; none is chosen when none accepts it. */
  lemma {:induction false} FirstAcceptingIsFirst(processors: seq<Processor>, extension: string)
    ensures var r := FirstAccepting(processors, extension);
      && (r.None? <==> forall i :: 0 <= i < |processors| ==> !CanProcess(processors[i], extension))
      && (r.Some? ==>
            exists i :: 0 <= i < |processors| && processors[i] == r.value
              && CanProcess(processors[i], extension)
              && forall j :: 0 <= j < i ==> !CanProcess(processors[j], extension))
  {
    if |processors| > 0 && !CanProcess(processors[0], extension) {
      var rest := processors[1..];
      FirstAcceptingIsFirst(rest, extension);
      assert forall i :: 0 < i < |processors| ==> processors[i] == rest[i - 1];
      var r := FirstAccepting(rest, extension);
      if r.Some? {
        var i :| 0 <= i < |rest| && rest[i] == r.value && CanProcess(rest[i], extension)
          && forall j :: 0 <= j < i ==> !CanProcess(rest[j], extension);
        assert processors[i + 1] == r.value && CanProcess(processors[i + 1], extension);
        assert forall j :: 0 <= j < i + 1 ==> !CanProcess(processors[j], extension);
      }
    }
  }

  /** The processor for a file name: the first one, in registration order, accepting the file's extension. */
  function GetProcessor(processors: seq<Processor>, fileName: string): (r: Option<Processor>)
    ensures var extension := Extension(fileName);
      && (r.None? <==> forall i :: 0 <= i < |processors| ==> !CanProcess(processors[i], extension))
      && (r.Some? ==>
            exists i :: 0 <= i < |processors| && processors[i] == r.value
              && CanProcess(processors[i], extension)
              && forall j :: 0 <= j < i ==> !CanProcess(processors[j], extension))
  {
    FirstAcceptingIsFirst(processors, Extension(fileName));
    FirstAccepting(processors, Extension(fileName))
  }

  /** The choice looks at nothing but the file name's extension. */
  lemma SameExtensionSameProcessor(processors: seq<Processor>, fileName1: string, fileName2: string)
    requires Extension(fileName1) == Extension(fileName2)
    ensures GetProcessor(processors, fileName1) == GetProcessor(processors, fileName2)
  {
  }

  /** The processors as the service registration lists them. */
  const Registered: seq<Processor> := [TextProcessor, PdfProcessor]

  /** With the registered list, ".txt" and ".pdf" in any case pick their processor; anything else picks none. */
  lemma RegisteredSelection(fileName: string)
    ensures var e := Extension(fileName);
      GetProcessor(Registered, fileName) ==
        if Text.CanProcess(e) then Some(TextProcessor)
        else if Pdf.CanProcess(e) then Some(PdfProcessor)
        else None
  {
    var e := Extension(fileName);
    var rest: seq<Processor> := [PdfProcessor];
    assert Registered[1..] == rest && rest[1..] == [];
    assert CanProcess(TextProcessor, e) == Text.CanProcess(e);
    assert CanProcess(PdfProcessor, e) == Pdf.CanProcess(e);
    assert FirstAccepting(rest, e) == if Pdf.CanProcess(e) then Some(PdfProcessor) else None;
  }
}
