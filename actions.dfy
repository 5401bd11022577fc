/**
 * The server action that turns uploaded files into text and asks the grading flow
 * for a score: `extractTextFromDataUri` (data-URI parsing, dispatch on the MIME
 * type, error wrapping) and `handleGradeSubmission` (the extraction sequence
 * and the shape of the result).
 *
 * The decoders the source calls into (base64 and UTF-8 decoding, pdf-parse,
 * mammoth) and the language-model grading flow are not modelled: they are passed in
 * as functions.
 */
module Actions {
  import opened Common

  type Bytes = seq<bv8>

  /** The decoders behind the four dispatch branches. Base64 and UTF-8
      decoding never throw; the PDF and DOCX extractors may, and then yield
      the message of what they threw. */
  datatype Extractors = Extractors(
    base64: string -> Bytes,
    utf8: Bytes -> string,
    pdf: Bytes -> Result<string, string>,
    docx: Bytes -> Result<string, string>)

  // ---------------------------------------------------------------------
  // Constants: MIME types and error messages
  // ---------------------------------------------------------------------

  const TextPlain: string := "text/plain"
  const Pdf: string := "application/pdf"
  const Docx: string := "application/vnd.openxmlformats-officedocument.wordprocessingml.document"
  const MsWord: string := "application/msword"

  const InvalidFormat: string := "Invalid data URI format"
  const NoMimeType: string := "Could not extract MIME type from data URI"
  const DocUnsupported: string :=
    "Unsupported MIME type for text extraction: .doc files are not supported. Please use .docx, .pdf, or .txt."

  function Unsupported(mime: string): string
  {
    "Unsupported MIME type for text extraction: " + mime + ". Please use .docx, .pdf, or .txt."
  }

  const WrapPrefix: string := "Failed to extract text from file (MIME type: "
  const WrapMiddle: string := ". Ensure the file is valid and not corrupted. Internal error: "

  /** The message every error raised during dispatch is re-thrown with. */
  function Wrapped(mime: string, inner: string): string
  {
    WrapPrefix + mime + ")" + WrapMiddle + inner
  }

  predicate StartsWith(s: string, prefix: string)
  {
    |prefix| <= |s| && s[..|prefix|] == prefix
  }

  // ---------------------------------------------------------------------
  // String.prototype.split with a one-character separator
  // ---------------------------------------------------------------------

  /** Reassembles segments with the separator between them. */
  function Join(parts: seq<string>, sep: char): string
    requires |parts| >= 1
  {
    if |parts| == 1 then parts[0] else parts[0] + [sep] + Join(parts[1..], sep)
  }

  /** `s.split(sep)`: never empty; the segments hold no separator and,
      joined with it, give back `s`. */
  function Split(s: string, sep: char): (parts: seq<string>)
    ensures |parts| >= 1
    ensures Join(parts, sep) == s
    ensures forall i :: 0 <= i < |parts| ==> sep !in parts[i]
  {
    if |s| == 0 then [""]
    else
      var rest := Split(s[1..], sep);
      if s[0] == sep then
        assert s == [] + [sep] + Join(rest, sep);
        [""] + rest
      else
        var parts := [[s[0]] + rest[0]] + rest[1..];
        assert parts[1..] == rest[1..];
        assert s == [s[0]] + Join(rest, sep);
        parts
  }

  /** Splitting at a separator that ends a separator-free prefix peels that prefix off. */
  lemma {:induction false} SplitAfterFirst(a: string, sep: char, b: string)
    requires sep !in a
    ensures Split(a + [sep] + b, sep) == [a] + Split(b, sep)
  {
    if a == [] {
      assert a + [sep] + b == [sep] + b;
      assert ([sep] + b)[1..] == b;
    } else {
      var s := a + [sep] + b;
      assert s[0] == a[0] && s[1..] == a[1..] + [sep] + b;
      SplitAfterFirst(a[1..], sep, b);
      assert [a[0]] + a[1..] == a;
    }
  }

  /** Split is the inverse of Join on separator-free segments. */
  lemma {:induction false} SplitJoin(parts: seq<string>, sep: char)
    requires |parts| >= 1
    requires forall i :: 0 <= i < |parts| ==> sep !in parts[i]
    ensures Split(Join(parts, sep), sep) == parts
  {
    if |parts| == 1 {
      SplitNoSeparator(parts[0], sep);
    } else {
      SplitJoin(parts[1..], sep);
      SplitAfterFirst(parts[0], sep, Join(parts[1..], sep));
      assert [parts[0]] + parts[1..] == parts;
    }
  }

  /** A string without the separator splits into itself alone. */
  lemma {:induction false} SplitNoSeparator(s: string, sep: char)
    requires sep !in s
    ensures Split(s, sep) == [s]
  {
    if |s| > 0 {
      SplitNoSeparator(s[1..], sep);
      assert [s[0]] + s[1..] == s;
    }
  }

  // ---------------------------------------------------------------------
  // The header: /^data:(.+);base64$/
  // ---------------------------------------------------------------------

  const DataPrefix: string := "data:"
  const Base64Suffix: string := ";base64"

  /** The characters a regular-expression `.` does not match. */
  predicate IsLineTerminator(c: char)
  {
    c == '\n' || c == '\r' || c == '\U{2028}' || c == '\U{2029}'
  }

  predicate NoLineTerminator(s: string)
  {
    forall i :: 0 <= i < |s| ==> !IsLineTerminator(s[i])
  }

  /** The MIME type captured from a header, if the header has the
      `data:<mime>;base64` form with a non-empty `<mime>`. */
  function MimeType(meta: string): (m: Option<string>)
    ensures m.Some? ==> meta == DataPrefix + m.value + Base64Suffix
    ensures m.Some? ==> m.value != "" && NoLineTerminator(m.value)
  {
    if |meta| >= |DataPrefix| + 1 + |Base64Suffix|
       && meta[..|DataPrefix|] == DataPrefix
       && meta[|meta| - |Base64Suffix|..] == Base64Suffix
       && NoLineTerminator(meta[|DataPrefix|..|meta| - |Base64Suffix|])
    then
      var mime := meta[|DataPrefix|..|meta| - |Base64Suffix|];
      assert meta == meta[..|DataPrefix|] + mime + meta[|meta| - |Base64Suffix|..];
      Some(mime)
    else None
  }

  /** The converse of MimeType's contract: every header of the accepted form
      yields exactly its middle part, so the match is greedy. */
  lemma MimeTypeOfHeader(mime: string)
    requires mime != "" && NoLineTerminator(mime)
    ensures MimeType(DataPrefix + mime + Base64Suffix) == Some(mime)
  {
    var meta := DataPrefix + mime + Base64Suffix;
    assert meta[..|DataPrefix|] == DataPrefix;
    assert meta[|meta| - |Base64Suffix|..] == Base64Suffix;
    assert meta[|DataPrefix|..|meta| - |Base64Suffix|] == mime;
  }

  /** `data:a;b;base64` carries the MIME type `a;b`. */
  lemma GreedyCapture()
    ensures MimeType("data:a;b;base64") == Some("a;b")
  {
    MimeTypeOfHeader("a;b");
    assert DataPrefix + "a;b" + Base64Suffix == "data:a;b;base64";
  }

  // ---------------------------------------------------------------------
  // extractTextFromDataUri
  // ---------------------------------------------------------------------

  /** The body of the `try`: one extractor per supported MIME type, an
      error for every other type. Errors are not yet wrapped. */
  function Dispatch(mime: string, buffer: Bytes, ex: Extractors): (r: Result<string, string>)
    ensures mime == TextPlain ==> r == Ok(ex.utf8(buffer))
    ensures r.Ok? ==> mime == TextPlain || mime == Pdf || mime == Docx
    ensures mime != TextPlain && mime != Pdf && mime != Docx ==>
              r == Err(if mime == MsWord then DocUnsupported else Unsupported(mime))
  {
    if mime == TextPlain then Ok(ex.utf8(buffer))
    else if mime == Pdf then ex.pdf(buffer)
    else if mime == Docx then ex.docx(buffer)
    else if mime == MsWord then Err(DocUnsupported)
    else Err(Unsupported(mime))
  }

  /** The `catch`: any error raised by the dispatch is re-thrown with context. */
  function WrapErrors(mime: string, r: Result<string, string>): (w: Result<string, string>)
    ensures w.Ok? <==> r.Ok?
    ensures r.Ok? ==> w == r
    ensures w.Err? ==> StartsWith(w.error, WrapPrefix + mime + ")")
    ensures w.Err? ==> |r.error| <= |w.error| && w.error[|w.error| - |r.error|..] == r.error
  {
    match r
    case Ok(text) => Ok(text)
    case Err(inner) =>
      var msg := Wrapped(mime, inner);
      assert msg == (WrapPrefix + mime + ")") + (WrapMiddle + inner);
      Err(msg)
  }

  /** `extractTextFromDataUri`: the two header errors are thrown as they are;
      every other error carries the wrapping prefix. */
  function ExtractText(uri: string, ex: Extractors): (r: Result<string, string>)
    ensures r.Err? ==> r.error == InvalidFormat || r.error == NoMimeType || StartsWith(r.error, WrapPrefix)
  {
    var parts := Split(uri, ',');
    if |parts| < 2 || parts[0] == "" || parts[1] == "" then Err(InvalidFormat)
    else
      match MimeType(parts[0])
      case None => Err(NoMimeType)
      case Some(mime) =>
        var r := WrapErrors(mime, Dispatch(mime, ex.base64(parts[1]), ex));
        assert r.Err? ==> r.error[..|WrapPrefix|] == WrapPrefix;
        r
  }

  /** A URI without a comma is rejected as malformed. */
  lemma NoCommaIsInvalid(uri: string, ex: Extractors)
    requires ',' !in uri
    ensures ExtractText(uri, ex) == Err(InvalidFormat)
  {
    SplitNoSeparator(uri, ',');
  }

  /** A URI whose first segment (the header) is empty is rejected as malformed. */
  lemma EmptyHeaderIsInvalid(rest: string, ex: Extractors)
    ensures ExtractText("," + rest, ex) == Err(InvalidFormat)
  {
    SplitAfterFirst("", ',', rest);
    assert "" + [','] + rest == "," + rest;
  }

  /** An empty payload after the first comma is rejected as malformed, even
      when more segments follow. */
  lemma EmptyPayloadIsInvalid(meta: string, rest: string, ex: Extractors)
    requires ',' !in meta
    requires rest == "" || rest[0] == ','
    ensures ExtractText(meta + "," + rest, ex) == Err(InvalidFormat)
  {
    SplitAfterFirst(meta, ',', rest);
    assert meta + [','] + rest == meta + "," + rest;
    if rest != "" {
      SplitAfterFirst("", ',', rest[1..]);
      assert "" + [','] + rest[1..] == rest;
    }
  }

  /** Only the first two segments are read: whatever follows a second comma
      is ignored. */
  lemma SecondCommaIgnored(meta: string, payload: string, rest: string, ex: Extractors)
    requires ',' !in meta && ',' !in payload
    ensures ExtractText(meta + "," + payload + "," + rest, ex) == ExtractText(meta + "," + payload, ex)
  {
    SplitAfterFirst(payload, ',', rest);
    SplitAfterFirst(meta, ',', payload + [','] + rest);
    assert meta + "," + payload + "," + rest == meta + [','] + (payload + [','] + rest);
    SplitNoSeparator(payload, ',');
    SplitAfterFirst(meta, ',', payload);
    assert meta + "," + payload == meta + [','] + payload;
  }

  /** A header that is not `data:<mime>;base64` fails with the MIME-type
      error, unwrapped. */
  lemma BadHeaderFails(meta: string, payload: string, ex: Extractors)
    requires meta != "" && ',' !in meta
    requires payload != "" && ',' !in payload
    requires MimeType(meta).None?
    ensures ExtractText(meta + "," + payload, ex) == Err(NoMimeType)
  {
    SplitNoSeparator(payload, ',');
    SplitAfterFirst(meta, ',', payload);
    assert meta + "," + payload == meta + [','] + payload;
  }

  /** The dispatch for a well-formed URI `data:<mime>;base64,<payload>`:
      text/plain is decoded and never fails, PDF and DOCX go to their
      extractors, and every error, including the unsupported-type ones,
      is wrapped with the MIME type. */
  lemma DispatchCases(mime: string, payload: string, ex: Extractors)
    requires mime != "" && NoLineTerminator(mime) && ',' !in mime
    requires payload != "" && ',' !in payload
    ensures var r := ExtractText(DataPrefix + mime + Base64Suffix + "," + payload, ex);
            var bytes := ex.base64(payload);
            && (mime == TextPlain ==> r == Ok(ex.utf8(bytes)))
            && (mime == Pdf ==> r == WrapErrors(mime, ex.pdf(bytes)))
            && (mime == Docx ==> r == WrapErrors(mime, ex.docx(bytes)))
            && (mime == MsWord ==> r == Err(Wrapped(mime, DocUnsupported)))
            && (mime !in {TextPlain, Pdf, Docx, MsWord} ==> r == Err(Wrapped(mime, Unsupported(mime))))
  {
    var meta := DataPrefix + mime + Base64Suffix;
    assert ',' !in meta by {
      assert ',' !in DataPrefix && ',' !in Base64Suffix;
    }
    MimeTypeOfHeader(mime);
    SplitNoSeparator(payload, ',');
    SplitAfterFirst(meta, ',', payload);
    assert meta + "," + payload == meta + [','] + payload;
  }

  // ---------------------------------------------------------------------
  // handleGradeSubmission
  // ---------------------------------------------------------------------

  /** What a `catch` receives: an Error object with its message, or any other value. */
  datatype Thrown = Error(message: string) | NotAnError

  datatype SubmissionInput = SubmissionInput(
    questionUri: string,
    responseUri: string,
    rubric: string,
    expectedUri: Option<string>)

  datatype GradeInput = GradeInput(
    questionText: string,
    studentResponseText: string,
    rubric: string,
    expectedAnswerText: Option<string>)

  datatype GradeOutput = GradeOutput(score: real, feedback: string, justification: string)

  /** `{success: true, data}` or `{success: false, error}`. */
  datatype ActionResult = Success(data: GradeOutput) | Failure(error: string)

  const UnknownGradingError: string := "An unknown error occurred during grading."

  /** The external calls the action makes, in the order it makes them. */
  datatype Step = ExtractQuestion | ExtractResponse | ExtractExpected | CallGrader

  /** The calls of a submission in which nothing fails. */
  function Plan(input: SubmissionInput): seq<Step>
  {
    [ExtractQuestion, ExtractResponse]
    + (if Truthy(input.expectedUri) then [ExtractExpected] else [])
    + [CallGrader]
  }

  predicate IsPrefix<T(==)>(a: seq<T>, b: seq<T>)
  {
    |a| <= |b| && a == b[..|a|]
  }

  /** Every extraction the submission asks for succeeds. */
  predicate AllExtracted(input: SubmissionInput, ex: Extractors)
  {
    && ExtractText(input.questionUri, ex).Ok?
    && ExtractText(input.responseUri, ex).Ok?
    && (Truthy(input.expectedUri) ==> ExtractText(input.expectedUri.value, ex).Ok?)
  }

  /** What the grading flow is given once every extraction has succeeded. */
  function GraderInput(input: SubmissionInput, ex: Extractors): GradeInput
    requires AllExtracted(input, ex)
  {
    GradeInput(
      ExtractText(input.questionUri, ex).value,
      ExtractText(input.responseUri, ex).value,
      input.rubric,
      if Truthy(input.expectedUri) then Some(ExtractText(input.expectedUri.value, ex).value) else None)
  }

  /** `handleGradeSubmission`: extracts the question, then the response, then
      the expected answer when one is given, and calls the grading flow only when
      all of them succeed. It never throws: the first failure becomes
      `{success: false, error}`. */
  method HandleGradeSubmission(input: SubmissionInput, ex: Extractors, grade: GradeInput -> Result<GradeOutput, Thrown>)
    returns (r: ActionResult, trace: seq<Step>)
    ensures trace != [] && IsPrefix(trace, Plan(input))
    ensures (CallGrader in trace) <==> AllExtracted(input, ex)
    ensures ExtractText(input.questionUri, ex).Err? ==>
              trace == [ExtractQuestion] && r == Failure(ExtractText(input.questionUri, ex).error)
    ensures ExtractText(input.questionUri, ex).Ok? && ExtractText(input.responseUri, ex).Err? ==>
              |trace| == 2 && r == Failure(ExtractText(input.responseUri, ex).error)
    ensures ExtractText(input.questionUri, ex).Ok? && ExtractText(input.responseUri, ex).Ok?
            && Truthy(input.expectedUri) && ExtractText(input.expectedUri.value, ex).Err? ==>
              |trace| == 3 && r == Failure(ExtractText(input.expectedUri.value, ex).error)
    ensures AllExtracted(input, ex) ==>
              && GraderInput(input, ex).rubric == input.rubric
              && (GraderInput(input, ex).expectedAnswerText.None? <==> !Truthy(input.expectedUri))
              && match grade(GraderInput(input, ex))
                 case Ok(out) => r == Success(out)
                 case Err(Error(msg)) => r == Failure(msg)
                 case Err(NotAnError) => r == Failure(UnknownGradingError)
    ensures r.Success? <==> AllExtracted(input, ex) && grade(GraderInput(input, ex)).Ok?
  {
    trace := [ExtractQuestion];
    var questionText := ExtractText(input.questionUri, ex);
    if questionText.Err? {
      return Failure(questionText.error), trace;
    }
    trace := trace + [ExtractResponse];
    var responseText := ExtractText(input.responseUri, ex);
    if responseText.Err? {
      return Failure(responseText.error), trace;
    }
    var expectedAnswerText: Option<string> := None;
    if Truthy(input.expectedUri) {
      trace := trace + [ExtractExpected];
      var expected := ExtractText(input.expectedUri.value, ex);
      if expected.Err? {
        return Failure(expected.error), trace;
      }
      expectedAnswerText := Some(expected.value);
    }
    var graderInput := GradeInput(questionText.value, responseText.value, input.rubric, expectedAnswerText);
    trace := trace + [CallGrader];
    match grade(graderInput)
    case Ok(out) => r := Success(out);
    case Err(Error(msg)) => r := Failure(msg);
    case Err(NotAnError) => r := Failure(UnknownGradingError);
  }
}
