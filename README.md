# AI Interview Assistant backend, modelled in Dafny

The service is a small FastAPI application (`main.py`) with two working endpoints.
`POST /generate-summary` takes an uploaded résumé (PDF or plain text) and a job description and
returns a summary written by a language model. `POST /generate-questions` takes the résumé text, the
job description and an interview type and returns a list of interview questions. Each caller brings
its own OpenAI key in the `Authorization` header, either as `Bearer <key>` or as the bare key.

This project models the request logic of `main.py` and proves what it guarantees:

- `text.dfy` (module `Text`): the Python string built-ins the handlers rely on. It covers
  `str.strip()` over exactly the characters for which `str.isspace()` holds, `lower()`,
  `startswith`/`endswith`, `split(sep)`, `split(sep, 1)[1]` and `sep.join`, with the split/join
  round trips proved.
- `credentials.dfy` (module `Credentials`): `_extract_bearer_token`, i.e. when a key is found, what
  it is, and when the handlers answer 401.
- `extraction.dfy` (module `Extraction`): `extract_text_with_pymupdf`, which dispatches on the file
  name's suffix in any letter case. The PDF library and the UTF-8 decoder are function parameters.
- `questions.dfy` (module `Questions`): the post-processing of the model's reply into questions.
  `ParseQuestions` is the loop as the handler runs it. It is proved equal to the specification
  function `PostProcess`, and `PostProcess` is characterised by lemmas (which lines are kept, in
  order; how the numbering is dropped; when the fallback question is used).
- `endpoints.dfy` (module `Endpoints`): the two handlers as functions from a request to a response.
  Their contracts are the decision table of status codes in the order the handler checks them. Lemmas
  show that a later stage (the extractor, the language-model chain) cannot change an answer decided
  by an earlier one.
- `wrappers.dfy` (module `Wrappers`): `Option` and `Result`.

The language-model chains (`generate_summary_chain(...).run`, `generate_questions_chain(...).run`)
are function parameters: any reply, or any failure, is allowed.

The length test (main.py:115) runs on the trimmed line before a leading `1.`-style number is
removed (main.py:116-117), so a returned question can have ten characters or fewer: the reply line
`1. abcdefgh` gives the question `abcdefgh` of eight characters (`Questions.ShortQuestionSurvives`).

## Model

| member | source | states |
|---|---|---|
| `Text.Lower` | main.py:33 | defines `lower()` on ASCII letters, character by character; its meaning for the prefix test is `Credentials.BearerAnyCase` |
| `Text.LowerIdempotent` | main.py:33 | lower-casing twice is lower-casing once |
| `Text.LowerCharIs` | main.py:33 | a character lower-cases to a lower-case letter exactly when it is that letter or its upper-case form |
| `Text.Strip` | main.py:114 | `strip()` is no longer than its input and neither of its ends is whitespace |
| `Text.IsSpace` | main.py:114 | defines the characters `str.strip()` removes: exactly those for which `str.isspace()` holds |
| `Text.IsBlank` | main.py:70 | defines `not s.strip()`, the blank test of main.py:70, 78 and 102 |
| `Text.StripBlank` | main.py:70 | `not s.strip()` holds exactly when every character of `s` is whitespace |
| `Text.StripSlice` | main.py:114 | `strip()` is a slice of the input with only whitespace around it |
| `Text.StripNonBlank` | main.py:78 | a string whose last character is not whitespace is not blank |
| `Text.StripAt` | main.py:114 | when `s[lo..hi]` has non-whitespace ends and only whitespace around it, `strip()` is exactly that slice |
| `Text.StripOneLeading` | main.py:117 | one leading whitespace character in front of a text with non-whitespace ends is stripped away |
| `Text.StripIdempotent` | main.py:117 | stripping twice is stripping once |
| `Text.Split` | main.py:113 | `split(sep)` yields at least one piece and no piece holds the separator |
| `Text.SplitJoin` | main.py:113 | joining the pieces of `split(sep)` with `sep` gives the string back |
| `Text.Join` | main.py:45 | defines `sep.join(parts)` |
| `Text.JoinSplit` | main.py:45 | for one or more pieces, none holding the separator, splitting their join gives the pieces back |
| `Text.FirstIndexOf` | main.py:117 | the index found holds the separator and no earlier index does |
| `Text.StartsWith` | main.py:33 | defines `s.startswith(p)` |
| `Text.EndsWith` | main.py:40-46 | defines `s.endswith(p)`, used at main.py:40, 46 and 74 |
| `Text.IsAsciiDigit` | main.py:116 | defines `isdigit()` as the ASCII digits `0`-`9` |
| `Text.AfterFirst` | main.py:34 | defines `s.split(sep, 1)[1]`: everything after the first `sep` |
| `Text.AfterFirstIsSplitTail` | main.py:34 | `split(sep, 1)[1]` is the rest of `split(sep)` joined back together |
| `Credentials.BearerSpace` | main.py:33-34 | after a bearer prefix, the first space of the header is the prefix's own space, so `split(" ", 1)[1]` is the text after the prefix |
| `Credentials.HasBearerPrefix` | main.py:33 | defines `header.lower().startswith("bearer ")` |
| `Credentials.Present` | main.py:68 | defines the truthiness tested by `if not openai_api_key` at main.py:68 and 100: present and not empty |
| `Credentials.BearerWord` | main.py:33 | headers starting "Bearer " or "bearer " have the bearer prefix |
| `Credentials.BearerAnyCase` | main.py:33 | a header has the bearer prefix exactly when its first seven characters spell "bearer " with each letter in either case |
| `Credentials.ExtractBearerToken` | main.py:29-35 | no key for a missing or empty header; after a prefix "bearer " in any case, the stripped rest; otherwise the stripped header; a key never has whitespace at either end |
| `Credentials.BearerRoundTrip` | main.py:32-34 | a key without surrounding whitespace sent as `Bearer <key>` is read back unchanged |
| `Credentials.MissingKeyIff` | main.py:29-35 | the key is missing or empty exactly when the header is absent, blank, or a bearer prefix followed only by whitespace |
| `Credentials.SameKeyThreeWays` | main.py:32-35 | for every non-empty key k without leading or trailing whitespace that does not itself start with `bearer ` in any case, the headers "Bearer k", "bearer k" and "k" give the same key k (a bare key that starts with `bearer ` loses that prefix) |
| `Extraction.KindBySuffix` | main.py:40-52 | only the last four characters of a name decide its kind; shorter names are refused |
| `Extraction.KindIgnoresCase` | main.py:40 | lower-casing the name first does not change its kind |
| `Extraction.KindOfExtension` | main.py:40-46 | a stem followed by a four-character extension has that extension's kind |
| `Extraction.ExtensionKinds` | main.py:40-52 | ".pdf" and ".PDF" are PDF, ".txt" and ".Txt" text, "docx" refused |
| `Extraction.KindExamples` | main.py:40-46 | for every stem, `.pdf`/`.PDF` names are PDF and `.txt`/`.Txt` names are text |
| `Extraction.DocxRefused` | main.py:51-52 | for every stem, a `.docx` name is refused |
| `Extraction.ExtractText` | main.py:37-55 | refused exactly for names without the two suffixes; PDF pages joined by newlines; text decoded as UTF-8; a library failure becomes a processing failure |
| `Extraction.UnsupportedIgnoresContent` | main.py:51-52 | an unsupported name is refused whatever the bytes, parser and decoder |
| `Extraction.PdfPagesRecoverable` | main.py:43-45 | for a `.pdf` name whose parse yields one or more pages, none holding a newline, splitting the extracted text at newlines gives the pages back |
| `Extraction.KindOf` | main.py:40-52 | defines the dispatch: `.pdf` first, then `.txt`, else unsupported, on the lower-cased name |
| `Questions.Question` | main.py:114-118 | a kept line becomes a non-empty question without whitespace at its ends; an un-numbered line is kept as stripped; a numbered one gets shorter |
| `Questions.Kept` | main.py:114-115 | defines the kept lines: non-empty after `strip()` and longer than ten characters |
| `Questions.Enumerated` | main.py:116 | defines a numbered line: a leading digit and a `.` among the first five characters |
| `Questions.DropEnumeration` | main.py:117 | defines `line.split('.', 1)[1].strip()` |
| `Questions.EnumerationBounds` | main.py:116-117 | a numbered line's first `.` lies within the first five characters after the leading digit, and what follows it is not blank |
| `Questions.DotInWindow` | main.py:116 | in a numbered line the first `.` lies after the leading digit and among the first five characters |
| `Questions.EnumerationStripped` | main.py:116-117 | a numbered line whose first `.` is at `i` becomes the stripped text after position `i` |
| `Questions.Collect` | main.py:113-118 | no more questions than lines, and none of them empty |
| `Questions.PostProcess` | main.py:112-121 | at least one question, at most one per line of the reply, none empty |
| `Questions.CollectStep` | main.py:113-118 | one more line adds its question exactly when it is kept |
| `Questions.CollectKept` | main.py:115-118 | a kept line appends its question |
| `Questions.CollectSkipped` | main.py:115 | a line that is not kept adds nothing |
| `Questions.ParseQuestions` | main.py:112-121 | the handler's loop returns exactly `PostProcess` of the reply |
| `Questions.KeptPositionsKept` | main.py:115 | every listed position holds a kept line |
| `Questions.KeptPositionsIncreasing` | main.py:113-118 | the kept positions are strictly increasing, so questions keep the reply's order |
| `Questions.KeptPositionsComplete` | main.py:115 | every kept line's position is listed |
| `Questions.CollectIsKeptQuestions` | main.py:113-118 | the k-th question is the question of the k-th kept line, and there are as many questions as kept lines |
| `Questions.NothingCollectedIff` | main.py:115-120 | nothing is collected exactly when no line is kept |
| `Questions.FallbackWhenNothingKept` | main.py:120-121 | the single fallback question exactly when no line is kept, the collected questions otherwise |
| `Questions.NumberedLineKept` | main.py:114-116 | a line `d. q`, with an ASCII digit `d` and a `q` of eight or more characters, on one line and without leading or trailing whitespace, is already stripped, is kept and counts as numbered |
| `Questions.NumberedLineSuffix` | main.py:116-117 | for the same `d` and `q` (ASCII digit; `q` of eight or more characters, one line, trimmed), the question of `d. q` is the stripped text after `d.` |
| `Questions.NumberedLine` | main.py:114-118 | for the same `d` and `q` (ASCII digit; `q` of eight or more characters, one line, trimmed), the question of `d. q` is `q` itself |
| `Questions.ShortQuestionSurvives` | main.py:112-121 | the reply `1. q`, for any one-line trimmed `q` of eight or more characters, gives the one question `q`, even when `q` has only 8 to 10 characters |
| `Questions.FourLines` | main.py:113 | a reply of two lines, `ok` and a final newline splits into four lines, the last empty |
| `Questions.CollectTwoOfFour` | main.py:113-118 | of four lines of which the first two are kept, the questions are those two, in order |
| `Questions.NumberedLines` | main.py:112-121 | two kept lines followed by `ok` and an empty line give exactly those two lines' questions |
| `Questions.ShortLinesDropped` | main.py:115 | the lines `ok` and the empty line are not kept |
| `Questions.NumberedReply` | main.py:112-121 | for any ASCII digits in place of `1` and `2`, and `a`, `b` each of eight or more characters, on one line and without leading or trailing whitespace, the reply `1. a`, `2. b`, `ok` with a final newline gives the questions `[a, b]` |
| `Endpoints.SupportedNameAgrees` | main.py:73-74 | the handler's own suffix check accepts exactly the names the extractor dispatches |
| `Endpoints.UploadName` | main.py:73 | defines the name tested: the upload's file name, or the empty string when it has none |
| `Endpoints.SupportedName` | main.py:73-74 | defines the handler's check: the lower-cased name ends in `.pdf` or `.txt` |
| `Endpoints.ResumeText` | main.py:77 | defines the extractor call on the upload's bytes and file name |
| `Endpoints.Refusal.Status` | main.py:69-79 | defines the status codes of the `HTTPException`s: 401 for the missing key, 400 for the others (main.py:69, 71, 75, 79, 103) |
| `Endpoints.Refusal.Detail` | main.py:69-79 | defines the detail texts of the `HTTPException`s at main.py:69, 71, 75, 79 and 103 |
| `Endpoints.Response.StatusCode` | main.py:61-125 | defines the status of an answer: 200 for a body, the refusal's code, and 500 for an exception the handler does not catch |
| `Endpoints.GenerateSummary` | main.py:61-89 | 401 exactly when the key is missing; with a key, 400 "Resume and job description are required" exactly when the résumé is missing or the job description blank; then 400 "Unsupported file type" exactly when the lower-cased name ends in neither `.pdf` nor `.txt`; otherwise the answer of `SummarizeUpload` with the key |
| `Endpoints.SummarizeUpload` | main.py:77-89 | an extraction failure (never an unsupported name) is passed on as a 500; otherwise 400 "Could not extract text" exactly when the text is blank; a chain failure is a 500; a success carries the stripped reply of the chain called with the key, the text and the job description |
| `Endpoints.SummaryKeyCheckedFirst` | main.py:67-69 | without a key the answer is 401 whatever the rest of the request |
| `Endpoints.SummaryRefusedBeforeExtraction` | main.py:67-75 | a refusal for the key, the job description or the name is a 400 or 401 that the uploaded bytes, the parser, the decoder and the chain cannot change |
| `Endpoints.SummaryChainOnlyAfterText` | main.py:67-82 | every 400/401 answer and every extraction failure is the same whatever the chain |
| `Endpoints.BlankJobDescriptionRefused` | main.py:70-71 | with a key, an all-whitespace job description is refused with 400 |
| `Endpoints.GenerateQuestions` | main.py:91-125 | 401 exactly when the key is missing; with a key, 400 "All fields are required" exactly when a field is blank; no other refusal; otherwise a chain failure is passed on as a 500 and a success carries `PostProcess` of the chain's reply to the key and the three fields |
| `Endpoints.QuestionsChainOnlyAfterChecks` | main.py:99-106 | a 401 or 400 is the same whatever the chain |

## Left out

- `Text.Lower`: lower-cases ASCII letters only. The handlers apply `lower()` only to test for the prefix "bearer " and the suffixes ".pdf"/".txt". No other character lower-cases to a character of those literals, so the answers agree with Python's full `lower()`.
- `Text.IsAsciiDigit`, `Questions.Enumerated`, `Questions.Question`: `str.isdigit()` is modelled as the ASCII digits `0`-`9`. Python also accepts other Unicode digits (Arabic-Indic digits, superscripts, ...) as the first character of a numbered line.
- `Extraction.ExtractText`: PDF parsing (`pymupdf.open`, `get_text`) and UTF-8 decoding are function parameters. The branch of a text upload whose read returns a `str` instead of `bytes` (main.py:50) is not modelled; an upload's content is always bytes here.
- `Extraction.ExtractText`: the error text of the wrapping exception (`Failed to process file: ...`) and the log line (main.py:53-55) are not modelled; the failure keeps the library's cause or the refused name.
- `Endpoints.GenerateSummary`: a missing upload is modelled as `None` and answered with the 400 of main.py:70-71. FastAPI itself already answers 422 for a missing or empty-string form field, or a missing file, before the handler runs, so only whitespace-only fields reach the handler's 400; that request validation is not modelled.
- Each `HTTPException` is a `Refusal` value with its status code and detail text (`Refusal.Status`, `Refusal.Detail`); the JSON error body is not modelled.
- Uncaught exceptions from the extractor or the chain are modelled as the outcomes `ExtractionFailed` and `UpstreamFailed` with status 500. Their error bodies are not modelled.
- The language-model chains, their prompt templates (question_generator.py, summary_generator.py) and the network call to OpenAI are outside the model. Each chain is a function parameter.
- `SummaryResponse` and `QuestionsResponse` (models.py) are mirrored as datatypes; pydantic validation is not modelled.
- The `/` and `/health` endpoints, CORS middleware, logging configuration and the server entry point are not modelled: they hold no request logic of the two endpoints.
