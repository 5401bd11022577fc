/**
 * The field rules of the grading form: file size and type per file field,
 * rubric length, and the range and default of the maximum score.
 */
module Schemas {
  import opened Common

  /** What the rules look at in an uploaded file: its size in bytes and its
      declared MIME type. */
  datatype FileInfo = FileInfo(size: nat, mimeType: string)

  const MaxFileSize: nat := 5 * 1024 * 1024

  const Pdf: string := "application/pdf"
  const Docx: string := "application/vnd.openxmlformats-officedocument.wordprocessingml.document"
  const TextPlain: string := "text/plain"

  const QuestionTypes: seq<string> := [Pdf, Docx]
  const ResponseTypes: seq<string> := [Pdf, Docx, TextPlain]

  const RubricMin: nat := 20
  const RubricMax: nat := 5000

  const MaxScoreMin: real := 1.0
  const MaxScoreMax: real := 100.0
  const MaxScoreDefault: real := 10.0

  /** A file passes both refinements: not above the size limit, and of an
      accepted type. */
  predicate FileAccepted(f: FileInfo, accepted: seq<string>)
  {
    f.size <= MaxFileSize && f.mimeType in accepted
  }

  /** The question file is required, at most 5 MiB, and a PDF or DOCX. */
  predicate ValidQuestionFile(f: Option<FileInfo>)
    ensures ValidQuestionFile(f) <==>
              && f.Some? && f.value.size <= 5242880
              && (f.value.mimeType == "application/pdf"
                  || f.value.mimeType == "application/vnd.openxmlformats-officedocument.wordprocessingml.document")
  {
    f.Some? && FileAccepted(f.value, QuestionTypes)
  }

  /** The response file is required, at most 5 MiB, and a PDF, DOCX or plain text. */
  predicate ValidResponseFile(f: Option<FileInfo>)
    ensures ValidResponseFile(f) <==>
              && f.Some? && f.value.size <= 5242880
              && (f.value.mimeType == "application/pdf"
                  || f.value.mimeType == "application/vnd.openxmlformats-officedocument.wordprocessingml.document"
                  || f.value.mimeType == "text/plain")
  {
    f.Some? && FileAccepted(f.value, ResponseTypes)
  }

  /** The expected-answer file is optional; when present it obeys the
      response's rules. */
  predicate ValidExpectedFile(f: Option<FileInfo>)
    ensures ValidExpectedFile(f) <==> f.None? || ValidResponseFile(f)
  {
    f.None? || FileAccepted(f.value, ResponseTypes)
  }

  /** The rubric holds between 20 and 5000 characters. */
  predicate ValidRubric(rubric: string)
    ensures ValidRubric(rubric) <==> 20 <= |rubric| <= 5000
  {
    RubricMin <= |rubric| <= RubricMax
  }

  /** The maximum score after parsing: an absent value becomes 10, a given
      one must lie in [1, 100]. The error is the message of the failing bound. */
  function ParseMaxScore(m: Option<real>): (r: Result<real, string>)
    ensures m.None? ==> r == Ok(MaxScoreDefault)
    ensures m.Some? ==> (r.Ok? <==> MaxScoreMin <= m.value <= MaxScoreMax)
    ensures r.Ok? ==> MaxScoreMin <= r.value <= MaxScoreMax && (m.Some? ==> r.value == m.value)
  {
    var x := if m.Some? then m.value else MaxScoreDefault;
    if x < MaxScoreMin then Err("Max score must be at least 1.")
    else if x > MaxScoreMax then Err("Max score can be at most 100.")
    else Ok(x)
  }

  datatype Form = Form(
    questionFile: Option<FileInfo>,
    rubric: string,
    studentResponseFile: Option<FileInfo>,
    expectedAnswerFile: Option<FileInfo>,
    maxScore: Option<real>)

  /** The whole form is accepted when every field is. */
  predicate ValidForm(form: Form)
    ensures ValidForm(form) ==>
              && form.questionFile.Some? && form.questionFile.value.mimeType != TextPlain
              && form.studentResponseFile.Some?
              && (forall f :: f in [form.questionFile, form.studentResponseFile, form.expectedAnswerFile] && f.Some?
                    ==> f.value.size <= MaxFileSize)
              && 20 <= |form.rubric| <= 5000
              && ParseMaxScore(form.maxScore).Ok? && 1.0 <= ParseMaxScore(form.maxScore).value <= 100.0
  {
    && ValidQuestionFile(form.questionFile)
    && ValidRubric(form.rubric)
    && ValidResponseFile(form.studentResponseFile)
    && ValidExpectedFile(form.expectedAnswerFile)
    && ParseMaxScore(form.maxScore).Ok?
  }

  /** The question's rules are stricter than the response's: every accepted
      question file is an accepted response file, and a plain-text file is
      accepted only as a response. */
  lemma QuestionStricterThanResponse(f: FileInfo)
    ensures ValidQuestionFile(Some(f)) ==> ValidResponseFile(Some(f))
    ensures f.mimeType == TextPlain && f.size <= MaxFileSize ==>
              ValidResponseFile(Some(f)) && !ValidQuestionFile(Some(f))
  {
  }

  /** The size bound is inclusive and the same for every file field. */
  lemma SizeBoundInclusive(mime: string)
    ensures mime in QuestionTypes ==>
              ValidQuestionFile(Some(FileInfo(5242880, mime))) && !ValidQuestionFile(Some(FileInfo(5242881, mime)))
    ensures mime in ResponseTypes ==>
              && ValidResponseFile(Some(FileInfo(5242880, mime))) && !ValidResponseFile(Some(FileInfo(5242881, mime)))
              && ValidExpectedFile(Some(FileInfo(5242880, mime))) && !ValidExpectedFile(Some(FileInfo(5242881, mime)))
  {
  }

  /** An absent expected answer is accepted; a present one exactly when it
      would be accepted as a response. */
  lemma ExpectedLikeResponse(f: Option<FileInfo>)
    ensures f.None? ==> ValidExpectedFile(f)
    ensures f.Some? ==> (ValidExpectedFile(f) <==> ValidResponseFile(f))
  {
  }

  /** The rubric bounds are inclusive at both ends. */
  lemma RubricBounds(rubric: string)
    ensures |rubric| == 20 || |rubric| == 5000 ==> ValidRubric(rubric)
    ensures |rubric| < 20 || |rubric| > 5000 ==> !ValidRubric(rubric)
  {
  }
}
