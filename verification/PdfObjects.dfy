/**
 * The six objects of the one-page document, and a viewer: it follows startxref to the trailer,
 * the trailer to the catalog, and the references from there to the page's stream and fonts.
 */
module PdfObjects {
  import opened Common
  import opened Decimal
  import opened PdfForm
  import opened PdfFile

  const HELVETICA := "<< /Type /Font /Subtype /Type1 /BaseFont /Helvetica /Encoding /WinAnsiEncoding >>"
  const HELVETICA_BOLD := "<< /Type /Font /Subtype /Type1 /BaseFont /Helvetica-Bold /Encoding /WinAnsiEncoding >>"
  const HEADER := "%PDF-1.4\n"

  const LENGTH_KEY := "<< /Length "
  const STREAM_KEY := " >>\nstream\n"
  const END_STREAM := "\nendstream"

  function ContentBody(stream: string): string {
    LENGTH_KEY + Render(|stream|) + STREAM_KEY + stream + END_STREAM
  }

  /** Parent, the two fonts, and the contents. */
  const PAGE := [PAGE_HEAD, BOX, SECOND_FONT, CONTENTS, CLOSE]
  const PAGE_HEAD := "<< /Type /Page /Parent "
  const BOX := MEDIA_BOX + " /Resources << /Font << /F1 "
  const MEDIA_BOX := " 0 R /MediaBox [0 0 595.28 841.89]"
  const SECOND_FONT := " 0 R /F2 "
  const CONTENTS := " 0 R >> >> /Contents "
  const CLOSE := " 0 R >>"

  const PAGES := ["<< /Type /Pages /Kids [", " 0 R] /Count 1 >>"]
  const CATALOG := ["<< /Type /Catalog /Pages ", " 0 R >>"]

  function PageBody(parent: nat, font1: nat, font2: nat,
                    contents: nat): string { Fill(PAGE, [parent, font1, font2, contents]) }

  function PagesBody(kid: nat): string { Fill(PAGES, [kid]) }

  function CatalogBody(pages: nat): string { Fill(CATALOG, [pages]) }

  /** The objects in file order; a reference to object `n` means the `n`-th of them. */
  function Objects(stream: string): seq<string> {
    [HELVETICA, HELVETICA_BOLD, ContentBody(stream), PageBody(5, 1, 2, 3), PagesBody(4), CatalogBody(5)]
  }

  // ---------- Reading objects ----------

  /** Reads a stream at the head of `s` by its stated length (section 7.3.8.2 of ISO 32000-1). */
  function ReadStream(s: string): Option<string> {
    if !StartsWith(s, LENGTH_KEY) then None
    else
      var digits := LeadingDigits(s[|LENGTH_KEY|..]);
      var at := |LENGTH_KEY| + |digits| + |STREAM_KEY|;
      var end := at + Value(digits);
      if end <= |s| && s[at - |STREAM_KEY|..at] == STREAM_KEY && StartsWith(s[end..], END_STREAM) then Some(s[at..end])
      else None
  }

  /**
   * The stated length is the stream's byte count: reading by it gives the stream, whatever it contains
   * and whatever follows.
   */
  lemma StreamReadsBack(stream: string, rest: string)
    ensures ReadStream(ContentBody(stream) + rest) == Some(stream)
  {
    var digits := Render(|stream|);
    RenderRoundTrip(|stream|);
    LeadingDigitsAre(digits, STREAM_KEY + stream + (END_STREAM + rest));
    StreamSlices(LENGTH_KEY, digits, STREAM_KEY, stream, END_STREAM, rest);
  }

  lemma StreamSlices(key: string, digits: string, open: string, stream: string, end: string, rest: string)
    ensures var s := key + digits + open + stream + end + rest; var at := |key| + |digits| + |open|;
      && s[..|key|] == key && s[|key|..] == digits + (open + stream + (end + rest))
      && s[at - |open|..at] == open && s[at..at + |stream|] == stream && StartsWith(s[at + |stream|..], end)
  {
    var s := key + digits + open + stream + end + rest;
    assert s[|key| + |digits| + |open| + |stream|..] == end + rest;
    assert (end + rest)[..|end|] == end;
  }

  lemma PageIsForm()
    ensures IsForm(PAGE)
  {
    assert BOX[0] == MEDIA_BOX[0] == ' ';
    assert SECOND_FONT[0] == ' ';
    assert CONTENTS[0] == ' ';
    assert CLOSE[0] == ' ';
    IsFormOfFive(PAGE_HEAD, BOX, SECOND_FONT, CONTENTS, CLOSE);
  }

  lemma TreesAreForms()
    ensures IsForm(PAGES) && IsForm(CATALOG)
  {
    assert PAGES[1][0] == CATALOG[1][0] == ' ';
  }

  lemma IsFormOfFive(a: string, b: string, c: string, d: string, e: string)
    requires b != "" && c != "" && d != "" && e != ""
    requires !IsDigit(b[0]) && !IsDigit(c[0]) && !IsDigit(d[0]) && !IsDigit(e[0])
    ensures IsForm([a, b, c, d, e])
  {
  }

  /** The references of object `n`, read as a form. */
  function References(form: seq<string>, pdf: string, n: nat): (r: Option<seq<nat>>)
    requires form != []
    ensures r.Some? ==> |r.value| == |form| - 1
  {
    match ObjectAt(pdf, n)
    case Some(text) => ReadNumbers(form, text)
    case None => None
  }

  // ---------- A viewer ----------

  /** The page's stream, and what its two font names stand for. */
  datatype View = View(stream: string, regular: string, bold: string)

  function ViewOf(pdf: string): Option<View> {
    match ReadTrailer(pdf)
    case None => None
    case Some((_, root)) =>
      match References(CATALOG, pdf, root)
      case None => None
      case Some(catalog) =>
        match References(PAGES, pdf, catalog[0])
        case None => None
        case Some(pages) => PageView(pdf, catalog[0], pages[0])
  }

  /** A page counts only under the parent that lists it. */
  function PageView(pdf: string, parent: nat, page: nat): Option<View> {
    match References(PAGE, pdf, page)
    case None => None
    case Some(numbers) =>
      if numbers[0] != parent then None
      else
        match (ObjectAt(pdf, numbers[1]), ObjectAt(pdf, numbers[2]), ObjectAt(pdf, numbers[3]))
        case (Some(regular), Some(bold), Some(contents)) =>
          (match ReadStream(contents) case Some(stream) => Some(View(stream, regular, bold)) case None => None)
        case _ => None
  }

  /** A viewer gets this stream, with Helvetica and its bold face as the fonts. */
  predicate Shows(pdf: string, stream: string) {
    var view := ViewOf(pdf);
    && view.Some? && view.value.stream == stream
    && StartsWith(view.value.regular, HELVETICA) && StartsWith(view.value.bold, HELVETICA_BOLD)
  }

  lemma ReferencesReadBack(form: seq<string>, numbers: seq<nat>, objects: seq<string>, root: nat, n: nat)
    requires |form| == |numbers| + 1 && IsForm(form)
    requires 1 <= n <= |objects| && objects[n - 1] == Fill(form, numbers)
    requires |FileUpTo(HEADER, objects, |objects|)| < 10_000_000_000
    ensures References(form, FileText(HEADER, objects, root), n) == Some(numbers)
  {
    ObjectReadsBack(HEADER, objects, root, n);
    var text := ObjectAt(FileText(HEADER, objects, root), n).value;
    HeadAndRest(text, objects[n - 1]);
    NumbersReadBack(form, numbers, text[|objects[n - 1]|..]);
  }

  lemma HeadAndRest(text: string, head: string)
    requires StartsWith(text, head)
    ensures text == head + text[|head|..]
  {
  }

  /**
   * The numbers the objects were given resolve: the catalog's to the page tree, the tree's to
   * the page, the page's parent, written before it exists, to that tree, and its fonts and
   * contents to theirs.
   */
  lemma ReferencesResolve(stream: string)
    requires |FileUpTo(HEADER, Objects(stream), 6)| < 10_000_000_000
    ensures var pdf := FileText(HEADER, Objects(stream), 6);
      && ReadTrailer(pdf) == Some((7, 6))
      && References(CATALOG, pdf, 6) == Some([5]) && References(PAGES, pdf, 5) == Some([4])
      && References(PAGE, pdf, 4) == Some([5, 1, 2, 3])
  {
    var objects := Objects(stream);
    PageIsForm();
    TreesAreForms();
    TrailerReadsBack(HEADER, objects, 6);
    ReferencesReadBack(CATALOG, [5], objects, 6, 6);
    ReferencesReadBack(PAGES, [4], objects, 6, 5);
    ReferencesReadBack(PAGE, [5, 1, 2, 3], objects, 6, 4);
  }

  lemma StreamIsStored(stream: string)
    requires |FileUpTo(HEADER, Objects(stream), 6)| < 10_000_000_000
    ensures var contents := ObjectAt(FileText(HEADER, Objects(stream), 6), 3);
      contents.Some? && ReadStream(contents.value) == Some(stream)
  {
    ObjectReadsBack(HEADER, Objects(stream), 6, 3);
    var contents := ObjectAt(FileText(HEADER, Objects(stream), 6), 3).value;
    HeadAndRest(contents, ContentBody(stream));
    StreamReadsBack(stream, contents[|ContentBody(stream)|..]);
  }

  lemma ArrivesAtPage(pdf: string, size: nat, root: nat, parent: nat, page: nat)
    requires ReadTrailer(pdf) == Some((size, root))
    requires References(CATALOG, pdf, root) == Some([parent]) && References(PAGES, pdf, parent) == Some([page])
    ensures ViewOf(pdf) == PageView(pdf, parent, page)
  {
  }

  lemma SeesPage(pdf: string, parent: nat, page: nat, font1: nat, font2: nat, contents: nat, stream: string)
    requires References(PAGE, pdf, page) == Some([parent, font1, font2, contents])
    requires ObjectAt(pdf, font1).Some? && ObjectAt(pdf, font2).Some?
    requires ObjectAt(pdf, contents).Some? && ReadStream(ObjectAt(pdf, contents).value) == Some(stream)
    ensures PageView(pdf, parent, page) == Some(View(stream, ObjectAt(pdf, font1).value, ObjectAt(pdf, font2).value))
  {
  }

  /** From nothing but the file, a viewer arrives at the stream and the two fonts. */
  lemma ViewerSeesStream(stream: string)
    requires |FileUpTo(HEADER, Objects(stream), 6)| < 10_000_000_000
    ensures Shows(FileText(HEADER, Objects(stream), 6), stream)
  {
    var pdf := FileText(HEADER, Objects(stream), 6);
    ReferencesResolve(stream);
    ArrivesAtPage(pdf, 7, 6, 5, 4);
    ObjectReadsBack(HEADER, Objects(stream), 6, 1);
    ObjectReadsBack(HEADER, Objects(stream), 6, 2);
    StreamIsStored(stream);
    SeesPage(pdf, 5, 4, 1, 2, 3, stream);
  }
}
