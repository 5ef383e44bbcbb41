/**
 * `extract_pdf_content` of gpt.py: build the basename-to-text dict from a
 * list of PDF files, page by page, with a failure confined to its own file.
 * The PDF reader is an input: each file comes with the page texts it
 * yielded and, if reading stopped with an exception, that exception's text.
 */
module Extractor {
  import opened Wrappers
  import opened OrderedMaps
  import opened Seqs

  /**
   * One PDF file as the reader saw it: its basename, `page.extract_text()`
   * for each page read (None when the page has no text layer), and the
   * message of the exception that ended the read, if one was raised.
   */
  datatype PdfSource = PdfSource(basename: string, pages: seq<Option<string>>, failure: Option<string>)

  const ErrorPrefix: string := "Error reading PDF: "

  /** `if page_text: text += page_text + "\n"` */
  function PageContribution(page: Option<string>): string
  {
    match page
    case None => ""
    case Some(t) => if t == "" then "" else t + "\n"
  }

  /** The text accumulated over `pages`, in page order. */
  function PagesText(pages: seq<Option<string>>): string
  {
    if pages == [] then "" else PagesText(pages[..|pages| - 1]) + PageContribution(pages[|pages| - 1])
  }

  /** The value stored for one file: its text, or the error placeholder. */
  function FileText(f: PdfSource): string
  {
    if f.failure.Some? then ErrorPrefix + f.failure.value else PagesText(f.pages)
  }

  /** The dict after the loop has handled every file of `files`, in order. */
  function Extracted(files: seq<PdfSource>): seq<Entry>
  {
    if files == [] then []
    else
      var last := files[|files| - 1];
      Put(Extracted(files[..|files| - 1]), last.basename, FileText(last))
  }

  function BaseNames(files: seq<PdfSource>): seq<string>
  {
    seq(|files|, i requires 0 <= i < |files| => files[i].basename)
  }

  /** `extract_pdf_content(pdf_files)` */
  method ExtractPdfContent(pdfFiles: seq<PdfSource>) returns (contents: seq<Entry>)
    ensures contents == Extracted(pdfFiles)
  {
    contents := [];
    var i := 0;
    while i < |pdfFiles|
      invariant 0 <= i <= |pdfFiles|
      invariant contents == Extracted(pdfFiles[..i])
    {
      var file := pdfFiles[i];
      var text := "";
      var j := 0;
      while j < |file.pages|
        invariant 0 <= j <= |file.pages|
        invariant text == PagesText(file.pages[..j])
      {
        var pageText := file.pages[j];
        assert file.pages[..j + 1][..j] == file.pages[..j];
        if pageText.Some? && pageText.value != "" {
          text := text + pageText.value + "\n";
        }
        j := j + 1;
      }
      assert file.pages[..j] == file.pages;
      assert pdfFiles[..i + 1][..i] == pdfFiles[..i];
      if file.failure.Some? {
        // the partial text is dropped and the placeholder stored instead
        contents := Put(contents, file.basename, ErrorPrefix + file.failure.value);
      } else {
        contents := Put(contents, file.basename, text);
      }
      i := i + 1;
    }
    assert pdfFiles[..i] == pdfFiles;
  }

  // ---------------------------------------------------------------------
  // Properties of the page text
  // ---------------------------------------------------------------------

  /** Page text is the concatenation of the parts' page texts. */
  lemma {:induction false} PagesTextConcat(a: seq<Option<string>>, b: seq<Option<string>>)
    ensures PagesText(a + b) == PagesText(a) + PagesText(b)
    decreases |b|
  {
    if b == [] {
      assert a + b == a;
    } else {
      PagesTextConcat(a, b[..|b| - 1]);
      PagesTextConcatStep(a, b);
    }
  }

  lemma PagesTextConcatStep(a: seq<Option<string>>, b: seq<Option<string>>)
    requires b != [] && PagesText(a + b[..|b| - 1]) == PagesText(a) + PagesText(b[..|b| - 1])
    ensures PagesText(a + b) == PagesText(a) + PagesText(b)
  {
    var init, p := b[..|b| - 1], b[|b| - 1];
    SnocSplit(a, b);
    PagesTextSnoc(a + init, p);
    assert PagesText(b) == PagesText(init) + PageContribution(p);
    calc {
      PagesText(a + b);
      PagesText((a + init) + [p]);
      PagesText(a + init) + PageContribution(p);
      (PagesText(a) + PagesText(init)) + PageContribution(p);
      { Assoc(PagesText(a), PagesText(init), PageContribution(p)); }
      PagesText(a) + (PagesText(init) + PageContribution(p));
      PagesText(a) + PagesText(b);
    }
  }

  lemma PagesTextSnoc(pages: seq<Option<string>>, p: Option<string>)
    ensures PagesText(pages + [p]) == PagesText(pages) + PageContribution(p)
  {
    assert (pages + [p])[..|pages|] == pages;
  }

  /** A file's text is empty exactly when none of its pages has text. */
  lemma {:induction false} PagesTextEmpty(pages: seq<Option<string>>)
    ensures PagesText(pages) == "" <==> forall i :: 0 <= i < |pages| ==> pages[i] == None || pages[i] == Some("")
  {
    if pages != [] {
      var init := pages[..|pages| - 1];
      PagesTextEmpty(init);
      var last := pages[|pages| - 1];
      assert forall i :: 0 <= i < |init| ==> init[i] == pages[i];
      if last.Some? && last.value != "" {
        assert |PageContribution(last)| > 0;
      }
    }
  }

  // ---------------------------------------------------------------------
  // Properties of the extracted dict
  // ---------------------------------------------------------------------

  /** The dict's keys are exactly the files' basenames, each once. */
  lemma ExtractedNames(files: seq<PdfSource>)
    ensures UniqueNames(Extracted(files))
    ensures forall n :: n in Names(Extracted(files)) <==> n in BaseNames(files)
  {
    ExtractedUnique(files);
    forall n ensures n in Names(Extracted(files)) <==> n in BaseNames(files) {
      ExtractedHas(files, n);
    }
  }

  lemma {:induction false} ExtractedUnique(files: seq<PdfSource>)
    ensures UniqueNames(Extracted(files))
  {
    if files != [] {
      var last := files[|files| - 1];
      ExtractedUnique(files[..|files| - 1]);
      PutUnique(Extracted(files[..|files| - 1]), last.basename, FileText(last));
    }
  }

  lemma {:induction false} ExtractedHas(files: seq<PdfSource>, n: string)
    ensures n in Names(Extracted(files)) <==> n in BaseNames(files)
  {
    if files != [] {
      var init := files[..|files| - 1];
      ExtractedHas(init, n);
      BaseNamesSnoc(files);
    }
  }

  lemma BaseNamesSnoc(files: seq<PdfSource>)
    requires files != []
    ensures BaseNames(files) == BaseNames(files[..|files| - 1]) + [files[|files| - 1].basename]
  {
  }

  /** A name no file has is not a key. */
  lemma ExtractedAbsent(files: seq<PdfSource>, n: string)
    requires n !in BaseNames(files)
    ensures Lookup(Extracted(files), n) == None
  {
    ExtractedNames(files);
    LookupFound(Extracted(files), n);
  }

  /** A basename is stored with the text of the LAST file that has it. */
  lemma {:induction false} ExtractedLast(files: seq<PdfSource>, i: nat)
    requires i < |files|
    requires forall j :: i < j < |files| ==> files[j].basename != files[i].basename
    ensures Lookup(Extracted(files), files[i].basename) == Some(FileText(files[i]))
  {
    var init := files[..|files| - 1];
    if i < |files| - 1 {
      ExtractedLast(init, i);
    }
  }

  lemma BaseNamesInit(files: seq<PdfSource>)
    requires files != [] && NoDuplicates(BaseNames(files))
    ensures NoDuplicates(BaseNames(files[..|files| - 1]))
    ensures files[|files| - 1].basename !in BaseNames(files[..|files| - 1])
  {
    var init := files[..|files| - 1];
    forall a, b | 0 <= a < b < |init| ensures BaseNames(init)[a] != BaseNames(init)[b] {
      assert BaseNames(files)[a] != BaseNames(files)[b];
    }
    forall a | 0 <= a < |init| ensures BaseNames(init)[a] != files[|files| - 1].basename {
      assert BaseNames(files)[a] != BaseNames(files)[|files| - 1];
    }
  }

  /** One entry per file, in the files' order. */
  function FileEntries(files: seq<PdfSource>): seq<Entry>
  {
    seq(|files|, i requires 0 <= i < |files| => Entry(files[i].basename, FileText(files[i])))
  }

  /** With distinct basenames the dict holds one entry per file, in the files' order. */
  lemma {:induction false} ExtractedDistinct(files: seq<PdfSource>)
    requires NoDuplicates(BaseNames(files))
    ensures Extracted(files) == FileEntries(files)
  {
    if files != [] {
      var init := files[..|files| - 1];
      var last := files[|files| - 1];
      assert last.basename !in Names(Extracted(init)) && NoDuplicates(BaseNames(init)) by {
        BaseNamesInit(files);
        ExtractedNames(init);
      }
      ExtractedDistinct(init);
      PutNew(Extracted(init), last.basename, FileText(last));
      FileEntriesSnoc(files);
    }
  }

  lemma FileEntriesSnoc(files: seq<PdfSource>)
    requires files != []
    ensures FileEntries(files) == FileEntries(files[..|files| - 1]) + [Entry(files[|files| - 1].basename, FileText(files[|files| - 1]))]
  {
  }

  /**
   * Fault isolation: what one file yields (text or failure) changes only the
   * value stored under its own name. The keys, their order and every other
   * value stay the same.
   */
  lemma ExtractedIsolation(files: seq<PdfSource>, i: nat, g: PdfSource)
    requires i < |files| && g.basename == files[i].basename
    ensures Names(Extracted(files[i := g])) == Names(Extracted(files))
    ensures forall n :: n != g.basename ==> Lookup(Extracted(files[i := g]), n) == Lookup(Extracted(files), n)
  {
    IsolationNames(files, i, g);
    forall n | n != g.basename ensures Lookup(Extracted(files[i := g]), n) == Lookup(Extracted(files), n) {
      IsolationLookup(files, i, g, n);
    }
  }

  lemma {:induction false} IsolationNames(files: seq<PdfSource>, i: nat, g: PdfSource)
    requires i < |files| && g.basename == files[i].basename
    ensures Names(Extracted(files[i := g])) == Names(Extracted(files))
  {
    var files' := files[i := g];
    var init, init' := files[..|files| - 1], files'[..|files| - 1];
    if i < |files| - 1 {
      assert init' == init[i := g];
      IsolationNames(init, i, g);
    } else {
      assert init' == init;
    }
  }

  lemma {:induction false} IsolationLookup(files: seq<PdfSource>, i: nat, g: PdfSource, n: string)
    requires i < |files| && g.basename == files[i].basename && n != g.basename
    ensures Lookup(Extracted(files[i := g]), n) == Lookup(Extracted(files), n)
  {
    var files' := files[i := g];
    var init, init' := files[..|files| - 1], files'[..|files| - 1];
    if i < |files| - 1 {
      assert init' == init[i := g];
      IsolationLookup(init, i, g, n);
    } else {
      assert init' == init;
    }
  }
}
