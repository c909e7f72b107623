/**
  * The two generating endpoints, `/generate-summary` and `/generate-questions`, as functions
  * from the request to the response. The order of their checks is the point: the API key
  * first (401), then the form fields (400), then, for the summary, the file name's suffix
  * (400), the extracted text (400), and only then the language-model chain.
  * The PDF parser, the UTF-8 decoder and the chain come in as functions.
  */
module Endpoints {
  import opened Wrappers
  import opened Text
  import opened Credentials
  import opened Extraction
  import opened Questions

  /** The body of a successful `/generate-summary` response (`SummaryResponse`). */
  datatype SummaryResponse = SummaryResponse(summary: string)

  /** The body of a successful `/generate-questions` response (`QuestionsResponse`). */
  datatype QuestionsResponse = QuestionsResponse(questions: seq<string>)

  /** An uploaded file: its name, which the client may omit, and its bytes. */
  datatype Upload = Upload(filename: Option<string>, content: seq<byte>)

  /** The `HTTPException`s the handlers raise, each with its status code and detail text. */
  datatype Refusal =
    | KeyMissing
    | SummaryFieldsMissing
    | UnsupportedUpload
    | NoResumeText
    | QuestionFieldsMissing
  {
    function Status(): int {
      if this == KeyMissing then 401 else 400
    }

    function Detail(): string {
      match this
      case KeyMissing => "OpenAI API key missing or invalid"
      case SummaryFieldsMissing => "Resume and job description are required"
      case UnsupportedUpload => "Unsupported file type. Upload PDF or TXT only."
      case NoResumeText => "Could not extract text from resume."
      case QuestionFieldsMissing => "All fields are required"
    }
  }

  /**
    * What a request comes to: a body, an `HTTPException` raised by the handler, or an
    * exception from the extractor or the chain that the handler does not catch (which the
    * framework answers with 500).
    */
  datatype Response<T> =
    | Ok(body: T)
    | Refused(reason: Refusal)
    | ExtractionFailed(error: ExtractError)
    | UpstreamFailed(cause: string)
  {
    function StatusCode(): int {
      match this
      case Ok(_) => 200
      case Refused(reason) => reason.Status()
      case _ => 500
    }
  }

  /** The summary chain's `run`: (API key, résumé text, job description) to the model's reply. */
  type SummaryChain = (string, string, string) -> Result<string, string>

  /** The questions chain's `run`: (API key, résumé text, job description, interview type) to the model's reply. */
  type QuestionChain = (string, string, string, string) -> Result<string, string>

  /** `resume.filename.lower() if resume.filename else ""`, before lower-casing. */
  function UploadName(upload: Upload): string {
    if upload.filename.Some? then upload.filename.value else ""
  }

  /** `any(filename.endswith(ext) for ext in ['.pdf', '.txt'])` on the lower-cased name. */
  predicate SupportedName(filename: string) {
    var name := Lower(filename);
    EndsWith(name, PdfSuffix) || EndsWith(name, TxtSuffix)
  }

  /** The handler's own suffix check accepts exactly the names the extractor can dispatch. */
  lemma SupportedNameAgrees(filename: string)
    ensures SupportedName(filename) <==> KindOf(filename) != Unsupported
  {
  }

  /** `extract_text_with_pymupdf(resume.file, resume.filename)` */
  function ResumeText(resume: Upload, parsePdf: PdfParser, decodeUtf8: Utf8Decoder): Result<string, ExtractError> {
    ExtractText(resume.content, UploadName(resume), parsePdf, decodeUtf8)
  }

  /** `generate_summary` */
  function GenerateSummary(resume: Option<Upload>, jobDescription: string, authorization: Option<string>,
                           parsePdf: PdfParser, decodeUtf8: Utf8Decoder, chain: SummaryChain)
    : (r: Response<SummaryResponse>)
    ensures var key := ExtractBearerToken(authorization);
            (r.StatusCode() == 401 <==> !Present(key))
            && (r.StatusCode() == 401 ==> r == Refused(KeyMissing))
            && (r == Refused(SummaryFieldsMissing) <==> Present(key) && (resume.None? || IsBlank(jobDescription)))
            && (r == Refused(UnsupportedUpload) <==>
                  (Present(key) && resume.Some? && !IsBlank(jobDescription)
                   && !SupportedName(UploadName(resume.value))))
    ensures var key := ExtractBearerToken(authorization);
            Present(key) && resume.Some? && !IsBlank(jobDescription) && SupportedName(UploadName(resume.value)) ==>
              r == SummarizeUpload(key.value, resume.value, jobDescription, parsePdf, decodeUtf8, chain)
  {
    var key := ExtractBearerToken(authorization);
    if !Present(key) then Refused(KeyMissing)
    else if resume.None? || IsBlank(jobDescription) then Refused(SummaryFieldsMissing)
    else if !SupportedName(UploadName(resume.value)) then Refused(UnsupportedUpload)
    else SummarizeUpload(key.value, resume.value, jobDescription, parsePdf, decodeUtf8, chain)
  }

  /**
    * The rest of `generate_summary` once the key, the fields and the file name have passed:
    * extract the text, refuse it when blank, and return the chain's stripped reply.
    */
  function SummarizeUpload(key: string, resume: Upload, jobDescription: string,
                           parsePdf: PdfParser, decodeUtf8: Utf8Decoder, chain: SummaryChain)
    : (r: Response<SummaryResponse>)
    requires SupportedName(UploadName(resume))
    ensures r.Refused? ==> r.reason == NoResumeText
    ensures r.ExtractionFailed? <==> ResumeText(resume, parsePdf, decodeUtf8).Failure?
    ensures r.ExtractionFailed? ==> r.error.ProcessingFailed? && r.error == ResumeText(resume, parsePdf, decodeUtf8).error
    ensures ResumeText(resume, parsePdf, decodeUtf8).Success? ==>
              var text := ResumeText(resume, parsePdf, decodeUtf8).value;
              (r.Refused? <==> IsBlank(text))
              && (r.Ok? ==> chain(key, text, jobDescription).Success?
                            && r.body.summary == Strip(chain(key, text, jobDescription).value))
              && (r.UpstreamFailed? <==> !IsBlank(text) && chain(key, text, jobDescription).Failure?)
              && (r.UpstreamFailed? ==> chain(key, text, jobDescription) == Failure(r.cause))
  {
    SupportedNameAgrees(UploadName(resume));
    match ResumeText(resume, parsePdf, decodeUtf8)
    case Failure(error) => ExtractionFailed(error)
    case Success(text) =>
      if IsBlank(text) then Refused(NoResumeText)
      else
        match chain(key, text, jobDescription)
        case Failure(cause) => UpstreamFailed(cause)
        case Success(summary) => Ok(SummaryResponse(Strip(summary)))
  }

  /**
    * Without a usable key the answer is 401 whatever else the request holds, so neither
    * the fields nor the file are looked at.
    */
  lemma SummaryKeyCheckedFirst(authorization: Option<string>,
                               resume: Option<Upload>, jobDescription: string,
                               parsePdf: PdfParser, decodeUtf8: Utf8Decoder, chain: SummaryChain)
    requires !Present(ExtractBearerToken(authorization))
    ensures GenerateSummary(resume, jobDescription, authorization, parsePdf, decodeUtf8, chain)
         == Refused(KeyMissing)
  {
  }

  /**
    * Every refusal made before extraction (missing key, blank job description, unsupported
    * name) is the same whatever the uploaded file's bytes, the parser, the decoder and the chain.
    */
  lemma SummaryRefusedBeforeExtraction(name: Option<string>, content1: seq<byte>, content2: seq<byte>,
                                       jobDescription: string, authorization: Option<string>,
                                       parsePdf1: PdfParser, decodeUtf81: Utf8Decoder, chain1: SummaryChain,
                                       parsePdf2: PdfParser, decodeUtf82: Utf8Decoder, chain2: SummaryChain)
    requires !Present(ExtractBearerToken(authorization)) || IsBlank(jobDescription)
             || KindOf(UploadName(Upload(name, content1))) == Unsupported
    ensures GenerateSummary(Some(Upload(name, content1)), jobDescription, authorization, parsePdf1, decodeUtf81, chain1)
         == GenerateSummary(Some(Upload(name, content2)), jobDescription, authorization, parsePdf2, decodeUtf82, chain2)
    ensures GenerateSummary(Some(Upload(name, content1)), jobDescription, authorization, parsePdf1, decodeUtf81, chain1)
            .StatusCode() in {400, 401}
  {
  }

  /**
    * Whenever the answer is a 400, a 401 or an extraction failure, the chain was not
    * consulted: any other chain gives the same answer.
    */
  lemma SummaryChainOnlyAfterText(resume: Option<Upload>, jobDescription: string, authorization: Option<string>,
                                  parsePdf: PdfParser, decodeUtf8: Utf8Decoder,
                                  chain1: SummaryChain, chain2: SummaryChain)
    requires var r := GenerateSummary(resume, jobDescription, authorization, parsePdf, decodeUtf8, chain1);
             r.Refused? || r.ExtractionFailed?
    ensures GenerateSummary(resume, jobDescription, authorization, parsePdf, decodeUtf8, chain1)
         == GenerateSummary(resume, jobDescription, authorization, parsePdf, decodeUtf8, chain2)
  {
  }

  /** A whitespace-only job description is refused with 400 before the file is examined. */
  lemma BlankJobDescriptionRefused(resume: Option<Upload>, jobDescription: string, authorization: Option<string>,
                                   parsePdf: PdfParser, decodeUtf8: Utf8Decoder, chain: SummaryChain)
    requires Present(ExtractBearerToken(authorization))
    requires forall i :: 0 <= i < |jobDescription| ==> IsSpace(jobDescription[i])
    ensures GenerateSummary(resume, jobDescription, authorization, parsePdf, decodeUtf8, chain)
         == Refused(SummaryFieldsMissing)
  {
    StripBlank(jobDescription);
  }

  /** `generate_questions` */
  function GenerateQuestions(resumeText: string, jobDescription: string, interviewType: string,
                             authorization: Option<string>, chain: QuestionChain)
    : (r: Response<QuestionsResponse>)
    ensures var key := ExtractBearerToken(authorization);
            (r.StatusCode() == 401 <==> !Present(key))
            && (r.StatusCode() == 401 ==> r == Refused(KeyMissing))
            && (r == Refused(QuestionFieldsMissing) <==>
                  (Present(key) && (IsBlank(resumeText) || IsBlank(jobDescription) || IsBlank(interviewType))))
    ensures !r.ExtractionFailed?
    ensures r.Refused? ==> r.reason == KeyMissing || r.reason == QuestionFieldsMissing
    ensures r.Ok? || r.UpstreamFailed? ==>
              Present(ExtractBearerToken(authorization))
              && !IsBlank(resumeText) && !IsBlank(jobDescription) && !IsBlank(interviewType)
    ensures r.Ok? ==>
              var reply := chain(ExtractBearerToken(authorization).value, resumeText, jobDescription, interviewType);
              reply.Success? && r.body.questions == PostProcess(reply.value) && |r.body.questions| >= 1
    ensures r.UpstreamFailed? ==>
              chain(ExtractBearerToken(authorization).value, resumeText, jobDescription, interviewType)
              == Failure(r.cause)
  {
    var key := ExtractBearerToken(authorization);
    if !Present(key) then Refused(KeyMissing)
    else if IsBlank(resumeText) || IsBlank(jobDescription) || IsBlank(interviewType) then
      Refused(QuestionFieldsMissing)
    else
      match chain(key.value, resumeText, jobDescription, interviewType)
      case Failure(cause) => UpstreamFailed(cause)
      case Success(reply) => Ok(QuestionsResponse(PostProcess(reply)))
  }

  /** Whenever the answer is 401 or 400, the chain was not consulted: any other chain gives the same answer. */
  lemma QuestionsChainOnlyAfterChecks(resumeText: string, jobDescription: string, interviewType: string,
                                      authorization: Option<string>, chain1: QuestionChain, chain2: QuestionChain)
    requires GenerateQuestions(resumeText, jobDescription, interviewType, authorization, chain1).Refused?
    ensures GenerateQuestions(resumeText, jobDescription, interviewType, authorization, chain1)
         == GenerateQuestions(resumeText, jobDescription, interviewType, authorization, chain2)
  {
  }
}
