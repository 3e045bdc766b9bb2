/** `_convert_pdf`: one `## Page <n>` section per page that yields text,
    numbered by the page's position in the document; a placeholder when no
    page yields any; a three-entry frontmatter. */
module Pdf {
  import opened Wrappers
  import opened Strings
  import opened Frontmatter

  /** The PDF libraries the converter tries, in order of preference. */
  datatype Library = Pdfplumber | PyPdf2 | NoLibrary

  const PdfFailurePrefix := "Failed to convert PDF: "
  const NoLibraryText := "No PDF library available. Install: pip install pdfplumber"
  const PlaceholderText := "*PDF content could not be extracted as text*"

  /** What `page.extract_text()` returned for one page: nothing (`None`) or a
      string, possibly empty. */
  type PageText = Option<string>

  /** Whether the extracted text is truthy, i.e. present and non-empty. */
  predicate HasText(t: PageText) {
    t.Some? && t.value != ""
  }

  /** The section of page number `n` (counting from 1). */
  function PageSection(n: nat, text: string): (r: string)
    ensures |r| > 0 && r[0] == '#'
  {
    "## Page " + NatToString(n) + "\n\n" + text + "\n\n"
  }

  /** The pages that yield text, each with its page number, in document
      order; `first` is the number of `pages[0]`. */
  function TextPages(pages: seq<PageText>, first: nat): (r: seq<(nat, string)>)
    ensures |r| <= |pages|
  {
    if pages == [] then []
    else
      var rest := TextPages(pages[1..], first + 1);
      if HasText(pages[0]) then [(first, pages[0].value)] + rest else rest
  }

  /** Every listed page has text, and is listed under its own number with
      its own text. */
  lemma {:induction false} TextPagesSound(pages: seq<PageText>, first: nat)
    ensures forall k :: 0 <= k < |TextPages(pages, first)| ==>
      var e := TextPages(pages, first)[k];
      && first <= e.0 < first + |pages|
      && HasText(pages[e.0 - first])
      && e.1 == pages[e.0 - first].value
  {
    if pages != [] {
      TextPagesSound(pages[1..], first + 1);
    }
  }

  /** The pages are listed in increasing page order. */
  lemma {:induction false} TextPagesOrdered(pages: seq<PageText>, first: nat)
    ensures forall j, k :: 0 <= j < k < |TextPages(pages, first)| ==>
      TextPages(pages, first)[j].0 < TextPages(pages, first)[k].0
  {
    if pages != [] {
      TextPagesSound(pages[1..], first + 1);
      TextPagesOrdered(pages[1..], first + 1);
    }
  }

  /** Every page with text is listed. */
  lemma {:induction false} TextPagesComplete(pages: seq<PageText>, first: nat)
    ensures forall i :: 0 <= i < |pages| && HasText(pages[i]) ==> (first + i, pages[i].value) in TextPages(pages, first)
  {
    if pages != [] {
      TextPagesComplete(pages[1..], first + 1);
      forall i | 0 < i < |pages| && HasText(pages[i])
        ensures (first + i, pages[i].value) in TextPages(pages, first)
      {
        assert pages[1..][i - 1] == pages[i];
      }
    }
  }

  /** The sections of the listed pages. */
  function SectionsOf(tp: seq<(nat, string)>): (r: seq<string>)
    ensures |r| == |tp| && forall k :: 0 <= k < |tp| ==> r[k] == PageSection(tp[k].0, tp[k].1)
  {
    seq(|tp|, k requires 0 <= k < |tp| => PageSection(tp[k].0, tp[k].1))
  }

  /** The text the page loop is meant to produce: the sections of the pages
      with text, in order, numbered from 1. */
  function PagesText(pages: seq<PageText>): string {
    Concat(SectionsOf(TextPages(pages, 1)))
  }

  lemma {:induction false} TextPagesAppend(pages: seq<PageText>, x: PageText, first: nat)
    ensures TextPages(pages + [x], first) == TextPages(pages, first) + (if HasText(x) then [(first + |pages|, x.value)] else [])
  {
    if pages != [] {
      assert (pages + [x])[1..] == pages[1..] + [x];
      TextPagesAppend(pages[1..], x, first + 1);
    }
  }

  /** The page loop, accumulating into a string as `markdown_content +=`
      does: it produces the sections of exactly the pages with text. */
  method ExtractPagesText(pages: seq<PageText>) returns (content: string)
    ensures content == PagesText(pages)
  {
    content := "";
    var i := 0;
    while i < |pages|
      invariant 0 <= i <= |pages|
      invariant content == PagesText(pages[..i])
    {
      var text := pages[i];
      var before := TextPages(pages[..i], 1);
      assert pages[..i + 1] == pages[..i] + [text];
      TextPagesAppend(pages[..i], text, 1);
      if text.Some? && text.value != "" {
        assert SectionsOf(before + [(i + 1, text.value)]) == SectionsOf(before) + [PageSection(i + 1, text.value)];
        ConcatAppend(SectionsOf(before), PageSection(i + 1, text.value));
        content := content + PageSection(i + 1, text.value);
      } else {
        assert before + [] == before;
      }
      i := i + 1;
    }
    assert pages[..|pages|] == pages;
  }

  /** The page text is empty, and so all whitespace, exactly when no page
      yields text; otherwise it starts with a `#` and so has visible text. */
  lemma PagesTextBlank(pages: seq<PageText>)
    ensures AllSpace(PagesText(pages)) <==> forall i :: 0 <= i < |pages| ==> !HasText(pages[i])
    ensures PagesText(pages) == "" <==> forall i :: 0 <= i < |pages| ==> !HasText(pages[i])
  {
    var tp := TextPages(pages, 1);
    SectionsStart(tp);
    if tp == [] {
      TextPagesComplete(pages, 1);
    } else {
      TextPagesSound(pages, 1);
      var e := tp[0];
      assert HasText(pages[e.0 - 1]);
      assert !IsSpace(PagesText(pages)[0]);
    }
  }

  /** The sections of no page are empty; those of some pages start with `#`. */
  lemma SectionsStart(tp: seq<(nat, string)>)
    ensures tp == [] ==> Concat(SectionsOf(tp)) == ""
    ensures tp != [] ==> |Concat(SectionsOf(tp))| > 0 && Concat(SectionsOf(tp))[0] == '#'
  {
    var parts := SectionsOf(tp);
    if tp == [] {
      assert parts == [];
    } else {
      assert Concat(parts) == parts[0] + Concat(parts[1..]);
      assert parts[0] == PageSection(tp[0].0, tp[0].1);
    }
  }

  /** The text written when no page yields any. */
  function Placeholder(stem: string): (r: string)
    ensures |r| > 0 && r[0] == '#'
  {
    "# " + stem + "\n\n" + PlaceholderText + "\n"
  }

  /** `markdown_content.strip()` is empty exactly when no page has text. */
  lemma BlankIffNoText(pages: seq<PageText>)
    ensures Strip(PagesText(pages)) == "" <==> forall i :: 0 <= i < |pages| ==> !HasText(pages[i])
  {
    PagesTextBlank(pages);
    StripSpec(PagesText(pages));
  }

  /** A text that starts with `#` does not strip to nothing. */
  lemma BodyVisible(body: string)
    requires |body| > 0 && body[0] == '#'
    ensures Strip(body) != ""
  {
    StripSpec(body);
    assert !IsSpace(body[0]);
  }

  /** What the handler writes and reports. */
  datatype PdfOutput = PdfOutput(markdown: string, metadata: Metadata, pagesProcessed: nat)

  /** `_convert_pdf`. `read` is what the chosen library makes of the file:
      the text of each page, or the message of the exception it raised. Every
      failure is re-raised with the `Failed to convert PDF: ` prefix. The body
      is the page sections, or the placeholder when they are blank; since
      neither is ever blank, `extracted_text` is always `True`. */
  function ConvertPdf(library: Library, read: Result<seq<PageText>, string>, stem: string,
                      now: string, quote: Value -> string): (r: Result<PdfOutput, string>)
    ensures r.Success? <==> library != NoLibrary && read.Success?
    ensures library == NoLibrary ==> r == Failure(PdfFailurePrefix + NoLibraryText)
    ensures library != NoLibrary && read.Failure? ==> r == Failure(PdfFailurePrefix + read.error)
    ensures r.Success? ==>
      var pages := read.value;
      var noText := forall i :: 0 <= i < |pages| ==> !HasText(pages[i]);
      var md := [("file_type", Str("pdf")), ("pages", Int(|pages|)), ("extracted_text", Bool(true))];
      && r.value.pagesProcessed == |pages|
      && r.value.metadata == md
      && r.value.markdown == AddFrontmatter(if noText then Placeholder(stem) else PagesText(pages), md, now, quote)
  {
    if library == NoLibrary then Failure(PdfFailurePrefix + NoLibraryText)
    else if read.Failure? then Failure(PdfFailurePrefix + read.error)
    else
      var pages := read.value;
      var content := PagesText(pages);
      var body := if Strip(content) == "" then Placeholder(stem) else content;
      var md := [("file_type", Str("pdf")), ("pages", Int(|pages|)), ("extracted_text", Bool(Strip(body) != ""))];
      BlankIffNoText(pages);
      BodyVisible(body);
      Success(PdfOutput(AddFrontmatter(body, md, now, quote), md, |pages|))
  }
}
