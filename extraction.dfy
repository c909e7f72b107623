/**
  * `extract_text_with_pymupdf`: the choice between reading an upload as a PDF, as UTF-8
  * text, or refusing it, by the file name's suffix in any letter case. Parsing the PDF
  * and decoding UTF-8 are done by code outside this model and come in as functions.
  */
module Extraction {
  import opened Wrappers
  import opened Text

  newtype byte = x: int | 0 <= x < 256

  datatype FileKind = Pdf | Txt | Unsupported

  datatype ExtractError =
    | UnsupportedFileType(filename: string)
    | ProcessingFailed(cause: string)

  /** The PDF library: the text of each page, in page order, or why the bytes could not be parsed. */
  type PdfParser = seq<byte> -> Result<seq<string>, string>

  /** `bytes.decode('utf-8')`, or why the bytes are not UTF-8. */
  type Utf8Decoder = seq<byte> -> Result<string, string>

  const PdfSuffix := ".pdf"
  const TxtSuffix := ".txt"

  /** `filename.lower().endswith('.pdf')`, then `.endswith('.txt')`. */
  function KindOf(filename: string): FileKind {
    var name := Lower(filename);
    if EndsWith(name, PdfSuffix) then Pdf
    else if EndsWith(name, TxtSuffix) then Txt
    else Unsupported
  }

  /** Only the last four characters of a name decide its kind, in any letter case. */
  lemma KindBySuffix(filename: string)
    ensures |filename| < 4 ==> KindOf(filename) == Unsupported
    ensures |filename| >= 4 ==> KindOf(filename) == KindOf(filename[|filename| - 4..])
  {
    if |filename| >= 4 {
      var tail := filename[|filename| - 4..];
      assert Lower(filename)[|filename| - 4..] == Lower(tail);
    }
  }

  /** Lower-casing a name first does not change its kind. */
  lemma KindIgnoresCase(filename: string)
    ensures KindOf(Lower(filename)) == KindOf(filename)
  {
    assert Lower(Lower(filename)) == Lower(filename);
  }

  /** Any stem followed by a four-character extension has that extension's kind. */
  lemma KindOfExtension(stem: string, ext: string)
    requires |ext| == 4
    ensures KindOf(stem + ext) == KindOf(ext)
  {
    KindBySuffix(stem + ext);
    assert (stem + ext)[|stem|..] == ext;
  }

  /** ".pdf" and ".PDF" name PDFs, ".txt" and ".Txt" text files; "docx" (the tail of ".docx") is refused. */
  lemma ExtensionKinds()
    ensures KindOf(".pdf") == Pdf && KindOf(".PDF") == Pdf
    ensures KindOf(".txt") == Txt && KindOf(".Txt") == Txt
    ensures KindOf("docx") == Unsupported
  {
    assert Lower(".pdf") == ".pdf" && Lower(".PDF") == ".pdf";
    assert Lower(".txt") == ".txt" && Lower(".Txt") == ".txt";
    assert ".txt"[1] != PdfSuffix[1];
    assert Lower("docx") == "docx";
    assert "docx"[0] != PdfSuffix[0] && "docx"[0] != TxtSuffix[0];
  }

  /** "cv.pdf", "cv.PDF", "notes.txt", "notes.Txt" and the like are accepted, whatever the stem. */
  lemma KindExamples(stem: string)
    ensures KindOf(stem + ".pdf") == Pdf && KindOf(stem + ".PDF") == Pdf
    ensures KindOf(stem + ".txt") == Txt && KindOf(stem + ".Txt") == Txt
  {
    ExtensionKinds();
    KindOfExtension(stem, ".pdf");
    KindOfExtension(stem, ".PDF");
    KindOfExtension(stem, ".txt");
    KindOfExtension(stem, ".Txt");
  }

  /** "resume.docx" and the like are refused, whatever the stem. */
  lemma DocxRefused(stem: string)
    ensures KindOf(stem + ".docx") == Unsupported
  {
    ExtensionKinds();
    KindOfExtension(stem + ".", "docx");
    assert stem + ".docx" == stem + "." + "docx";
  }

  /**
    * `extract_text_with_pymupdf`: the pages of a PDF joined by newlines, the decoded
    * text of a TXT file, and an error for any other name or for bytes the library refuses.
    */
  function ExtractText(content: seq<byte>, filename: string, parsePdf: PdfParser, decodeUtf8: Utf8Decoder)
    : (r: Result<string, ExtractError>)
    ensures KindOf(filename) == Unsupported <==> r == Failure(UnsupportedFileType(filename))
    ensures KindOf(filename) == Pdf ==>
              match parsePdf(content)
              case Success(pages) => r == Success(Join(pages, '\n'))
              case Failure(cause) => r == Failure(ProcessingFailed(cause))
    ensures KindOf(filename) == Txt ==>
              match decodeUtf8(content)
              case Success(text) => r == Success(text)
              case Failure(cause) => r == Failure(ProcessingFailed(cause))
  {
    match KindOf(filename)
    case Pdf =>
      (match parsePdf(content)
       case Success(pages) => Success(Join(pages, '\n'))
       case Failure(cause) => Failure(ProcessingFailed(cause)))
    case Txt =>
      (match decodeUtf8(content)
       case Success(text) => Success(text)
       case Failure(cause) => Failure(ProcessingFailed(cause)))
    case Unsupported => Failure(UnsupportedFileType(filename))
  }

  /** An unsupported name is refused whatever the bytes and whatever the parser and decoder would do. */
  lemma UnsupportedIgnoresContent(content1: seq<byte>, content2: seq<byte>, filename: string,
                                  parsePdf1: PdfParser, decodeUtf81: Utf8Decoder,
                                  parsePdf2: PdfParser, decodeUtf82: Utf8Decoder)
    requires KindOf(filename) == Unsupported
    ensures ExtractText(content1, filename, parsePdf1, decodeUtf81)
         == ExtractText(content2, filename, parsePdf2, decodeUtf82)
  {
  }

  /**
    * A statement about the join only: when no page text holds a newline, the pages can be
    * read back from the extracted text. Real page text usually holds newlines, and then the
    * page boundaries are lost.
    */
  lemma PdfPagesRecoverable(content: seq<byte>, filename: string, parsePdf: PdfParser, decodeUtf8: Utf8Decoder)
    requires KindOf(filename) == Pdf && parsePdf(content).Success?
    requires |parsePdf(content).value| >= 1
    requires forall page :: page in parsePdf(content).value ==> '\n' !in page
    ensures ExtractText(content, filename, parsePdf, decodeUtf8).Success?
    ensures Split(ExtractText(content, filename, parsePdf, decodeUtf8).value, '\n') == parsePdf(content).value
  {
    JoinSplit(parsePdf(content).value, '\n');
  }
}
