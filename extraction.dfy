/**
 * `ATSAnalyzer.extract_text`: the uploaded file's type is read off its name,
 * a PDF becomes the text of its pages laid end to end, a Word document the
 * text `docx2txt` gives, and every other type `None`. The two libraries are
 * not modelled: what they make of the bytes is supplied as `Parsers`.
 */
module DocumentText {
  import opened Wrappers
  import opened Text

  /**
   * What the libraries make of the upload: the text of each PDF page in page
   * order, and the Word text; `None` where the library raises.
   */
  datatype Parsers = Parsers(pdfPages: Option<seq<string>>, wordText: Option<string>)

  /** The three branches of `extract_text`. */
  datatype Kind = Pdf | Word | Unsupported

  /**
   * `name.split('.')[-1].lower()`: the part of the name after its last dot
   * (all of it when there is no dot), lower-cased.
   */
  function FileType(name: string): (t: string)
    ensures |t| <= |name| && t == Lower(name[|name| - |t|..])
    ensures forall k :: 0 <= k < |t| ==> t[k] != '.'
    ensures |t| < |name| ==> name[|name| - |t| - 1] == '.'
  {
    Lower(AfterLastDot(name))
  }

  /** The branch taken for a file type: `'pdf'`, then `['doc', 'docx']`, then the rest. */
  function KindOf(fileType: string): (k: Kind)
    ensures k == Pdf <==> fileType == "pdf"
    ensures k == Word <==> fileType == "doc" || fileType == "docx"
  {
    if fileType == "pdf" then Pdf
    else if fileType == "doc" || fileType == "docx" then Word
    else Unsupported
  }

  /** What `extract_text` returns for an upload named `name`. */
  function ExtractedText(name: string, parsers: Parsers): (r: Option<string>)
    ensures KindOf(FileType(name)) == Unsupported ==> r == None
    ensures KindOf(FileType(name)) == Word ==> r == parsers.wordText
    ensures KindOf(FileType(name)) == Pdf ==>
              r == if parsers.pdfPages.Some? then Some(Concat(parsers.pdfPages.value)) else None
  {
    match KindOf(FileType(name))
    case Pdf => if parsers.pdfPages.Some? then Some(Concat(parsers.pdfPages.value)) else None
    case Word => parsers.wordText
    case Unsupported => None
  }

  /**
   * `extract_text(uploaded_file)`: dispatch on the file type and, for a PDF,
   * `text = ""; for page in pages: text += page.extract_text()`.
   */
  method ExtractText(name: string, parsers: Parsers) returns (text: Option<string>)
    ensures text == ExtractedText(name, parsers)
  {
    var fileType := FileType(name);
    if fileType == "pdf" {
      if parsers.pdfPages.None? {
        return None;
      }
      var pages := parsers.pdfPages.value;
      var acc := "";
      for i := 0 to |pages|
        invariant acc == Concat(pages[..i])
      {
        assert pages[..i + 1][..i] == pages[..i];
        acc := acc + pages[i];
      }
      assert pages[..|pages|] == pages;
      return Some(acc);
    } else if fileType == "doc" || fileType == "docx" {
      return parsers.wordText;
    } else {
      return None;
    }
  }

  /** The last dot-free segment of `stem + "." + ext` is `ext`, whatever the stem holds. */
  lemma {:induction false} AfterLastDotOfDotted(stem: string, ext: string)
    requires forall k :: 0 <= k < |ext| ==> ext[k] != '.'
    ensures AfterLastDot(stem + "." + ext) == ext
    decreases |ext|
  {
    var name := stem + "." + ext;
    if ext == [] {
      assert name[|name| - 1] == '.';
    } else {
      var init := ext[..|ext| - 1];
      assert name[..|name| - 1] == stem + "." + init;
      AfterLastDotOfDotted(stem, init);
      assert init + [ext[|ext| - 1]] == ext;
    }
  }

  /** A name without a dot is its own type: `split('.')` leaves it whole. */
  lemma {:induction false} AfterLastDotWithoutDot(name: string)
    requires forall k :: 0 <= k < |name| ==> name[k] != '.'
    ensures AfterLastDot(name) == name
    decreases |name|
  {
    if name != [] {
      var init := name[..|name| - 1];
      AfterLastDotWithoutDot(init);
      assert init + [name[|name| - 1]] == name;
    }
  }

  /** The type of `stem.ext` is the lower-cased extension, so `"CV.PDF"` and `"a.b.pdf"` are PDFs. */
  lemma FileTypeOfDotted(stem: string, ext: string)
    requires forall k :: 0 <= k < |ext| ==> ext[k] != '.'
    ensures FileType(stem + "." + ext) == Lower(ext)
  {
    AfterLastDotOfDotted(stem, ext);
  }

  /** The type of a name without a dot is the whole name lower-cased, so a file named `"PDF"` is a PDF. */
  lemma FileTypeWithoutDot(name: string)
    requires forall k :: 0 <= k < |name| ==> name[k] != '.'
    ensures FileType(name) == Lower(name)
  {
    AfterLastDotWithoutDot(name);
  }

  /** Only the last extension counts: a `.pdf` followed by another extension is not read. */
  lemma DoubleExtensionUnsupported(parsers: Parsers)
    ensures ExtractedText("resume.pdf.txt", parsers) == None
  {
    FileTypeOfDotted("resume.pdf", "txt");
    assert "resume.pdf" + "." + "txt" == "resume.pdf.txt";
  }

  /** Upper-case extensions are recognised: `"CV.DOCX"` is read as a Word document. */
  lemma UpperCaseWordRecognised(parsers: Parsers)
    ensures ExtractedText("CV.DOCX", parsers) == parsers.wordText
  {
    FileTypeOfDotted("CV", "DOCX");
    assert "CV" + "." + "DOCX" == "CV.DOCX";
  }

  /**
   * The PDF text is every page's text in page order: page `k` starts where
   * the pages before it end, and nothing follows the last page.
   */
  lemma PdfTextLayout(name: string, pages: seq<string>, wordText: Option<string>)
    requires KindOf(FileType(name)) == Pdf
    ensures var r := ExtractedText(name, Parsers(Some(pages), wordText));
            && r.Some?
            && |r.value| == JoinOffset("", pages, |pages|)
            && forall k :: 0 <= k < |pages| ==> OccursAt(r.value, pages[k], JoinOffset("", pages, k))
  {
    ConcatLayout(pages);
  }

  /** A PDF without pages gives the empty text, which the page treats as no text at all. */
  lemma PdfWithoutPagesIsEmpty(name: string, wordText: Option<string>)
    requires KindOf(FileType(name)) == Pdf
    ensures ExtractedText(name, Parsers(Some([]), wordText)) == Some("")
  {
  }
}
