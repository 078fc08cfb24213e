/**
 * Building the one-page document: a y cursor that moves down the page, drawing
 * operators, six objects with a forward reference, and the file around them.
 * Lengths on the page are hundredths of a point.
 */
module MiniPdf {
  import opened Common
  import opened Decimal
  import opened PdfText
  import opened PdfForm
  import opened PdfPage
  import opened PdfFile
  import opened PdfObjects

  const PAGE_HEIGHT := 84189
  const MARGIN := 5600

  datatype Line = Plain(text: string) | Styled(text: string, bold: bool, size: nat, gap: nat)

  // ---------- Drawing operators ----------

  /** `toFixed(2)` of a length. */
  function Fixed2(hundredths: int): string
    decreases hundredths < 0
  {
    if hundredths < 0 then "-" + Fixed2(-hundredths)
    else Render(hundredths / 100) + "." + PadStart(Render(hundredths % 100), 2)
  }

  function TextHead(bold: bool, size: nat, y: int): string {
    "BT /" + (if bold then "F2" else "F1") + " " + Render(size) + " Tf 1 0 0 1 56 " + Fixed2(y) + " Tm "
  }

  function ShowText(head: string, text: string): string {
    head + "(" + EscapeText(ToWinAnsi(text)) + ([')'] + " Tj ET")
  }

  const FOOTER_HEAD := "BT /F1 8 Tf 1 0 0 1 56 38 Tm " + "0.45 0.45 0.45 rg "

  function RuleOp(y: int): string {
    "0.6 w 0.35 0.35 0.35 RG 56 " + Fixed2(y) + " m 539.28 " + Fixed2(y) + " l S"
  }

  /** What a viewer reads behind the operands of a text operator is the folded text, whatever parentheses it holds. */
  lemma OperatorShowsText(head: string, text: string)
    ensures ReadLiteral(ShowText(head, text)[|head| + 1..], 0) == Some((ToWinAnsi(text), " Tj ET"))
  {
    var inside := EscapeText(ToWinAnsi(text)) + ([')'] + " Tj ET");
    assert ShowText(head, text)[|head| + 1..] == inside;
    ShownReadsBack(text, " Tj ET");
  }

  // ---------- Layout ----------

  /** The strip of the page one line of text takes, from its baseline up. */
  datatype Strip = Strip(bottom: int, top: int)

  /** The cursor, the operators so far, and the strips they occupy. */
  datatype Page = Page(y: int, ops: seq<string>, strips: seq<Strip>)

  const BLANK: Page := Page(PAGE_HEIGHT - MARGIN, [], [])

  /** A line that would run past the bottom margin is dropped. */
  function Written(page: Page, text: string, bold: bool, size: nat, gap: nat): Page {
    var lineHeight := 100 * (size + gap);
    if page.y - lineHeight < MARGIN then page
    else
      var y := page.y - lineHeight;
      Page(y, page.ops + [ShowText(TextHead(bold, size, y), text)], page.strips + [Strip(y, page.y)])
  }

  function WithTitle(title: string): Page {
    if title == "" then BLANK
    else
      var page := Written(BLANK, title, true, 16, 10);
      var ruled := page.y - 600;
      page.(y := ruled - 1000, ops := page.ops + [RuleOp(ruled)])
  }

  function WithLine(page: Page, line: Line): Page {
    match line
    case Plain(text) => if text == "" then page.(y := page.y - 800) else Written(page, text, false, 10, 4)
    case Styled(text, bold, size, gap) => Written(page, text, bold, size, gap)
  }

  function WithLines(page: Page, lines: seq<Line>): Page {
    if lines == [] then page else WithLine(WithLines(page, lines[..|lines| - 1]), lines[|lines| - 1])
  }

  function WithFooter(ops: seq<string>, footer: string): seq<string> {
    if footer == "" then ops else ops + [ShowText(FOOTER_HEAD, footer)]
  }

  function ContentOps(title: string, lines: seq<Line>, footer: string): seq<string> {
    WithFooter(WithLines(WithTitle(title), lines).ops, footer)
  }

  /** Text stays inside the margins, and every line lies below the one before it. */
  ghost predicate Orderly(page: Page) {
    && page.y <= PAGE_HEIGHT - MARGIN
    && (forall i :: 0 <= i < |page.strips| ==>
          MARGIN <= page.strips[i].bottom <= page.strips[i].top <= PAGE_HEIGHT - MARGIN
              && page.y <= page.strips[i].bottom)
    && (forall i, j :: 0 <= i < j < |page.strips| ==> page.strips[j].top <= page.strips[i].bottom)
  }

  /** No two lines of any document overlap, and none crosses into a margin. */
  lemma {:induction false} LinesNeverOverlap(title: string, lines: seq<Line>)
    ensures Orderly(WithLines(WithTitle(title), lines))
  {
    if lines == [] {
      WrittenKeepsOrder(BLANK, title, true, 16, 10);
    } else {
      var n := |lines| - 1;
      LinesNeverOverlap(title, lines[..n]);
      var page := WithLines(WithTitle(title), lines[..n]);
      match lines[n]
      case Plain(text) => WrittenKeepsOrder(page, text, false, 10, 4);
      case Styled(text, bold, size, gap) => WrittenKeepsOrder(page, text, bold, size, gap);
    }
  }

  lemma WrittenKeepsOrder(page: Page, text: string, bold: bool, size: nat, gap: nat)
    requires Orderly(page)
    ensures Orderly(Written(page, text, bold, size, gap))
  {
  }

  // ---------- What the page shows ----------

  function HeightOf(line: Line): nat {
    match line
    case Plain(_) => 1400
    case Styled(_, _, size, gap) => 100 * (size + gap)
  }

  /** Where the cursor stands below these lines: an empty line is a gap, and one that would not fit moves nothing. */
  function CursorBelow(title: string, lines: seq<Line>): (y: int)
    ensures y <= 78589
  {
    if lines == [] then (if title == "" then 78589 else 74389)
    else
      var line := lines[|lines| - 1];
      var y := CursorBelow(title, lines[..|lines| - 1]);
      if line == Plain("") then y - 800 else if y - HeightOf(line) < 5600 then y else y - HeightOf(line)
  }

  /** The text of a line below `y`, at its baseline, if it fits. */
  function LineShown(y: int, line: Line): seq<Drawn> {
    var baseline := y - HeightOf(line);
    if line == Plain("") || baseline < 5600 then []
    else
      match line
      case Plain(text) => [Drawn(false, 10, baseline, ToWinAnsi(text))]
      case Styled(text, bold, size, _) => [Drawn(bold, size, baseline, ToWinAnsi(text))]
  }

  function LinesShown(title: string, lines: seq<Line>): seq<Drawn> {
    if lines == [] then []
    else
      var n := |lines| - 1;
      LinesShown(title, lines[..n]) + LineShown(CursorBelow(title, lines[..n]), lines[n])
  }

  function TitleShown(title: string): seq<Drawn> {
    if title == "" then [] else [Drawn(true, 16, 75989, ToWinAnsi(title))]
  }

  function FooterShown(footer: string): seq<Drawn> {
    if footer == "" then [] else [Drawn(false, 8, 3800, ToWinAnsi(footer))]
  }

  /** The texts of a document in the order they stand on its page, by heights alone. */
  function Layout(title: string, lines: seq<Line>, footer: string): seq<Drawn> {
    TitleShown(title) + LinesShown(title, lines) + FooterShown(footer)
  }

  /** The drawn operators show the title, the lines that fit and the footer, each folded, and nothing else. */
  lemma PageShowsDocument(title: string, lines: seq<Line>, footer: string)
    ensures ReadOps(ContentOps(title, lines, footer)) == Layout(title, lines, footer)
    ensures ReadContents(Join(ContentOps(title, lines, footer), "\n")) == Layout(title, lines, footer)
  {
    var ops := WithLines(WithTitle(title), lines).ops;
    LinesReadBack(title, lines);
    FooterAppends(ops, TitleShown(title) + LinesShown(title, lines), footer);
    ShowingReads(WithFooter(ops, footer), Layout(title, lines, footer));
    ContentsAreOps(WithFooter(ops, footer));
  }

  lemma FooterAppends(ops: seq<string>, texts: seq<Drawn>, footer: string)
    requires Showing(ops, texts)
    ensures Showing(WithFooter(ops, footer), texts + FooterShown(footer))
  {
    if footer == "" {
      assert texts + [] == texts;
    } else {
      FooterReadsBack(footer);
      ShowingMore(ops, texts, ShowText(FOOTER_HEAD, footer), FooterShown(footer));
    }
  }

  lemma {:induction false} LinesReadBack(title: string, lines: seq<Line>)
    ensures var page := WithLines(WithTitle(title), lines);
      page.y == CursorBelow(title, lines) && Showing(page.ops, TitleShown(title) + LinesShown(title, lines))
  {
    if lines == [] {
      TitleReadsBack(title);
      assert TitleShown(title) + [] == TitleShown(title);
    } else {
      var n := |lines| - 1;
      LinesReadBack(title, lines[..n]);
      var page := WithLines(WithTitle(title), lines[..n]);
      LineReadsBack(page, TitleShown(title) + LinesShown(title, lines[..n]), lines[n], WithLine(page, lines[n]));
      AppendAssociates(TitleShown(title), LinesShown(title, lines[..n]), LineShown(page.y, lines[n]));
    }
  }

  lemma TitleReadsBack(title: string)
    ensures WithTitle(title).y == CursorBelow(title, []) && Showing(WithTitle(title).ops, TitleShown(title))
  {
    NothingShows();
    if title != "" {
      var page := Written(BLANK, title, true, 16, 10);
      TitleIs(title, page);
      TitleShows(title, page, WithTitle(title).ops);
    }
  }

  lemma TitleShows(title: string, page: Page, next: seq<string>)
    requires title != "" && page == Written(BLANK, title, true, 16, 10) && next == page.ops + [RuleOp(75389)]
    ensures Showing(next, TitleShown(title))
  {
    var first := TitleShown(title)[0];
    NothingShows();
    WrittenShows(BLANK, [], title, true, 16, 10, 75989, first, page);
    RuledShows(page.ops, [] + [first], 75389, next, TitleShown(title));
  }

  lemma RuledShows(ops: seq<string>, texts: seq<Drawn>, y: nat, next: seq<string>, same: seq<Drawn>)
    requires Showing(ops, texts) && next == ops + [RuleOp(y)] && same == texts
    ensures Showing(next, same)
  {
    RuleShowsNoText(y);
    ShowingMore(ops, texts, RuleOp(y), []);
    assert texts + [] == same;
  }

  lemma TitleIs(title: string, page: Page)
    requires title != "" && page == Written(BLANK, title, true, 16, 10)
    ensures WithTitle(title).y == 74389 && WithTitle(title).ops == page.ops + [RuleOp(75389)]
  {
  }

  lemma LineReadsBack(page: Page, texts: seq<Drawn>, line: Line, next: Page)
    requires Showing(page.ops, texts) && next == WithLine(page, line)
    ensures Showing(next.ops, texts + LineShown(page.y, line))
    ensures next.y == if line == Plain("") then page.y - 800
                      else if page.y - HeightOf(line) < 5600 then page.y else page.y - HeightOf(line)
  {
    var shown := LineShown(page.y, line);
    if shown == [] {
      assert texts + shown == texts;
    } else {
      LineFits(page, line, shown[0]);
      match line
      case Plain(text) => WrittenShows(page, texts, text, false, 10, 4, shown[0].y, shown[0], next);
      case Styled(text, bold, size, gap) => WrittenShows(page, texts, text, bold, size, gap, shown[0].y, shown[0],
          next);
    }
  }

  lemma LineFits(page: Page, line: Line, drawn: Drawn)
    requires LineShown(page.y, line) != [] && drawn == LineShown(page.y, line)[0]
    ensures LineShown(page.y, line) == [drawn] && drawn.y == page.y - HeightOf(line) >= 5600 && line != Plain("")
    ensures match line
            case Plain(text) =>
              && drawn == Drawn(false, 10, drawn.y, ToWinAnsi(text))
              && WithLine(page, line) == Written(page, text, false, 10, 4)
            case Styled(text, bold, size, gap) =>
              && drawn == Drawn(bold, size, drawn.y, ToWinAnsi(text))
              && WithLine(page, line) == Written(page, text, bold, size, gap)
  {
  }

  lemma WrittenShows(page: Page, texts: seq<Drawn>, text: string, bold: bool, size: nat, gap: nat, y: nat,
                     drawn: Drawn, next: Page)
    requires Showing(page.ops, texts) && y == page.y - 100 * (size + gap) >= 5600
    requires next == Written(page, text, bold, size, gap) && drawn == Drawn(bold, size, y, ToWinAnsi(text))
    ensures next.y == y && Showing(next.ops, texts + [drawn])
  {
    var op := ShowText(TextHead(bold, size, y), text);
    WrittenTextAdds(bold, size, y, text);
    WrittenIs(page, text, bold, size, gap, y, op);
    ShowingNext(page.ops, texts, op, [drawn], next.ops);
  }

  lemma WrittenIs(page: Page, text: string, bold: bool, size: nat, gap: nat, y: nat, op: string)
    requires y == page.y - 100 * (size + gap) >= 5600 && op == ShowText(TextHead(bold, size, y), text)
    ensures Written(page, text, bold, size, gap).y == y && Written(page, text, bold, size, gap).ops == page.ops + [op]
  {
  }

  lemma ShowingNext(ops: seq<string>, texts: seq<Drawn>, op: string, added: seq<Drawn>, next: seq<string>)
    requires Showing(ops, texts) && Adds(op, added) && next == ops + [op]
    ensures Showing(next, texts + added)
  {
    ShowingMore(ops, texts, op, added);
  }

  lemma WrittenTextAdds(bold: bool, size: nat, y: nat, text: string)
    ensures Adds(ShowText(TextHead(bold, size, y), text), [Drawn(bold, size, y, ToWinAnsi(text))])
  {
    WrittenTextReadsBack(bold, size, y, text);
    ReadAdds(ShowText(TextHead(bold, size, y), text), Drawn(bold, size, y, ToWinAnsi(text)));
  }

  lemma WrittenTextReadsBack(bold: bool, size: nat, y: nat, text: string)
    ensures ReadOp(ShowText(TextHead(bold, size, y), text)) == Some(Drawn(bold, size, y, ToWinAnsi(text)))
    ensures '\n' !in ShowText(TextHead(bold, size, y), text)
  {
    var font := if bold then "2" else "1";
    var rest := EscapeText(ToWinAnsi(text)) + ([')'] + " Tj ET");
    ShownReadsBack(text, " Tj ET");
    TextReadsBack(font, size, y, rest);
    DrawnTextReads(font, size, y, ToWinAnsi(text), rest);
    TextOpIsForm(bold, size, y, text);
    HeadUnbroken(bold, size, y);
    TextUnbroken(TextHead(bold, size, y), text);
  }

  lemma TextOpIsForm(bold: bool, size: nat, y: nat, text: string)
    ensures ShowText(TextHead(bold, size, y), text)
         == Weave(TEXT_FORM, [if bold then "2" else "1", Render(size), Render(y / 100), PadStart(Render(y % 100), 2)])
            + (EscapeText(ToWinAnsi(text)) + ([')'] + " Tj ET"))
  {
    var font := if bold then "2" else "1";
    var whole, frac := Render(y / 100), PadStart(Render(y % 100), 2);
    WeaveOfFive("BT /F", " ", " Tf 1 0 0 1 56 ", ".", " Tm (", font, Render(size), whole, frac);
    OpIsForm(font, Render(size), whole, frac, EscapeText(ToWinAnsi(text)) + ([')'] + " Tj ET"));
    HeadIs(bold, size, y);
  }

  lemma HeadIs(bold: bool, size: nat, y: nat)
    ensures TextHead(bold, size, y)
         == "BT /F" + (if bold then "2" else "1") + " " + Render(size) + " Tf 1 0 0 1 56 "
            + (Render(y / 100) + "." + PadStart(Render(y % 100), 2)) + " Tm "
  {
    assert "BT /" + "F2" == "BT /F" + "2" && "BT /" + "F1" == "BT /F" + "1";
  }

  lemma HeadUnbroken(bold: bool, size: nat, y: nat)
    ensures '\n' !in TextHead(bold, size, y)
  {
    PaddedRoundTrip(y % 100, 2);
    assert '\n' !in Fixed2(y);
    assert '\n' !in "BT /" && '\n' !in " Tf 1 0 0 1 56 " && '\n' !in " Tm ";
  }

  lemma OpIsForm(font: string, size: string, whole: string, frac: string, inside: string)
    ensures "BT /F" + font + " " + size + " Tf 1 0 0 1 56 " + (whole + "." + frac) + " Tm " + "(" + inside
        == "BT /F" + (font + (" " + (size + (" Tf 1 0 0 1 56 " + (whole + ("." + (frac + " Tm (")))))))  + inside
  {
    assert " Tm " + "(" == " Tm (";
  }

  /** A folded text holds no line break, escaped or not. */
  lemma TextUnbroken(head: string, text: string)
    requires '\n' !in head
    ensures '\n' !in ShowText(head, text)
  {
    FoldedIsWinAnsi(text);
    EscapedUnbroken(ToWinAnsi(text));
  }

  lemma {:induction false} EscapedUnbroken(s: string)
    requires '\n' !in s
    ensures '\n' !in EscapeText(s)
  {
    if s != "" {
      EscapedUnbroken(s[1..]);
      EscapeStep(s[0], s[1..]);
      assert [s[0]] + s[1..] == s;
    }
  }

  lemma RuleShowsNoText(y: nat)
    ensures Adds(RuleOp(y), [])
  {
    RuleBegins(y, RuleOp(y));
    NoText(RuleOp(y));
    UnreadAdds(RuleOp(y));
  }

  lemma RuleBegins(y: nat, op: string)
    requires op == RuleOp(y)
    ensures op[..1] == "0" && '\n' !in op
  {
    var digits := Fixed2(y);
    PaddedRoundTrip(y % 100, 2);
    RuleIsUnbroken(digits, op);
  }

  lemma RuleIsUnbroken(digits: string, op: string)
    requires op == "0.6 w 0.35 0.35 0.35 RG 56 " + digits + " m 539.28 " + digits + " l S" && '\n' !in digits
    ensures op[..1] == "0" && '\n' !in op
  {
    assert "0.6 w 0.35 0.35 0.35 RG 56 "[0] == '0' && op[0] == '0';
    assert '\n' !in "0.6 w 0.35 0.35 0.35 RG 56 " && '\n' !in " m 539.28 " && '\n' !in " l S";
  }

  lemma FooterReadsBack(footer: string)
    requires footer != ""
    ensures Adds(ShowText(FOOTER_HEAD, footer), FooterShown(footer))
  {
    var rest := EscapeText(ToWinAnsi(footer)) + ([')'] + " Tj ET");
    ShownReadsBack(footer, " Tj ET");
    GreyReadsBack("1", 8, 38, rest);
    DrawnTextReads("1", 8, 3800, ToWinAnsi(footer), rest);
    FooterOpIsForm(footer);
    FooterUnbroken();
    TextUnbroken(FOOTER_HEAD, footer);
    ReadAdds(ShowText(FOOTER_HEAD, footer), Drawn(false, 8, 3800, ToWinAnsi(footer)));
  }

  lemma FooterOpIsForm(footer: string)
    ensures ShowText(FOOTER_HEAD, footer)
         == Weave(GREY_FORM, ["1", Render(8), Render(38)]) + (EscapeText(ToWinAnsi(footer)) + ([')'] + " Tj ET"))
  {
    WeaveOfFour("BT /F", " ", " Tf 1 0 0 1 56 ", " Tm 0.45 0.45 0.45 rg (", "1", Render(8), Render(38));
    assert Render(8) == "8" && Render(38) == "38" by {
      assert Render(3) == "3" && DIGITS[3] == '3' && DIGITS[8] == '8';
    }
    FooterHeadIs();
  }

  lemma FooterHeadIs()
    ensures FOOTER_HEAD + "("
         == "BT /F" + ("1" + (" " + ("8" + (" Tf 1 0 0 1 56 " + ("38" + " Tm 0.45 0.45 0.45 rg (")))))
  {
    FooterLiterals();
    FooterRegroups("BT /F", "1", " ", "8", " Tf 1 0 0 1 56 ", "38", " Tm ", "0.45 0.45 0.45 rg ", "(");
  }

  lemma FooterLiterals()
    ensures " Tm 0.45 0.45 0.45 rg (" == " Tm " + ("0.45 0.45 0.45 rg " + "(")
    ensures "BT /F1 8 Tf 1 0 0 1 56 38 Tm " == "BT /F" + ("1" + (" " + ("8" + (" Tf 1 0 0 1 56 " + ("38" + " Tm ")))))
  {
  }

  lemma FooterUnbroken()
    ensures '\n' !in FOOTER_HEAD
  {
    assert '\n' !in "BT /F1 8 Tf 1 0 0 1 56 38 Tm " && '\n' !in "0.45 0.45 0.45 rg ";
  }

  lemma FooterRegroups(a: string, b: string, c: string, d: string, e: string, f: string,
                       move: string, grey: string, open: string)
    ensures (a + (b + (c + (d + (e + (f + move)))))) + grey + open
         == a + (b + (c + (d + (e + (f + (move + (grey + open)))))))
  {
  }

  // ---------- The file ----------

  /**
   * The whole file. In every file whose objects take less than ten billion bytes, a viewer that
   * follows startxref, the trailer and the references from object to object gets the drawn stream,
   * and reads from it the folded title, the folded lines that fit, each at its baseline, and the footer.
   */
  method BuildPdf(title: string, lines: seq<Line>, footer: string) returns (pdf: string)
    ensures var stream := Join(ContentOps(title, lines, footer), "\n");
      && pdf == FileText(HEADER, Objects(stream), 6)
      && (|FileUpTo(HEADER, Objects(stream), 6)| < 10_000_000_000
          ==> && AllFound(pdf, Objects(stream)) && Shows(pdf, stream)
              && ReadContents(ViewOf(pdf).value.stream) == Layout(title, lines, footer))
  {
    var ops := Draw(title, lines, footer);
    pdf := Assemble(Join(ops, "\n"));
    PageShowsDocument(title, lines, footer);
  }

  method Draw(title: string, lines: seq<Line>, footer: string) returns (ops: seq<string>)
    ensures ops == ContentOps(title, lines, footer)
    ensures ReadOps(ops) == Layout(title, lines, footer)
  {
    ops := DrawBody(title, lines);
    if footer != "" {
      ops := ops + [ShowText(FOOTER_HEAD, footer)];
    }
    PageShowsDocument(title, lines, footer);
  }

  method DrawBody(title: string, lines: seq<Line>) returns (ops: seq<string>)
    ensures ops == WithLines(WithTitle(title), lines).ops
  {
    var y := PAGE_HEIGHT - MARGIN;
    ops := [];
    if title != "" {
      y, ops := Write(y, ops, BLANK, title, true, 16, 10);
      y := y - 600;
      ops := ops + [RuleOp(y)];
      y := y - 1000;
    }
    ghost var start := WithTitle(title);
    assert start.y == y && start.ops == ops;
    for k := 0 to |lines|
      invariant y == WithLines(start, lines[..k]).y && ops == WithLines(start, lines[..k]).ops
    {
      assert lines[..k + 1][..k] == lines[..k];
      ghost var page := WithLines(start, lines[..k]);
      match lines[k]
      case Plain(text) =>
        if text == "" {
          y := y - 800;
        } else {
          y, ops := Write(y, ops, page, text, false, 10, 4);
        }
      case Styled(text, bold, size, gap) =>
        y, ops := Write(y, ops, page, text, bold, size, gap);
    }
    assert lines[..|lines|] == lines;
  }

  method Write(y: int, ops: seq<string>, ghost page: Page, text: string, bold: bool, size: nat, gap: nat)
    returns (newY: int, newOps: seq<string>)
    requires y == page.y && ops == page.ops
    ensures newY == Written(page, text, bold, size, gap).y && newOps == Written(page, text, bold, size, gap).ops
  {
    var lineHeight := 100 * (size + gap);
    if y - lineHeight < MARGIN {
      return y, ops;
    }
    newY := y - lineHeight;
    newOps := ops + [ShowText(TextHead(bold, size, newY), text)];
  }

  method Assemble(stream: string) returns (pdf: string)
    ensures pdf == FileText(HEADER, Objects(stream), 6)
    ensures |FileUpTo(HEADER, Objects(stream), 6)| < 10_000_000_000
        ==> AllFound(pdf, Objects(stream)) && Shows(pdf, stream)
  {
    var objects: seq<string> := [];
    objects := objects + [HELVETICA];
    var font1 := |objects|;
    objects := objects + [HELVETICA_BOLD];
    var font2 := |objects|;
    objects := objects + [ContentBody(stream)];
    var content := |objects|;
    // The page names its parent before the parent exists.
    var pagesNum := |objects| + 2;
    objects := objects + [PageBody(pagesNum, font1, font2, content)];
    var page := |objects|;
    objects := objects + [PagesBody(page)];
    var pages := |objects|;
    assert pages == pagesNum;
    objects := objects + [CatalogBody(pages)];
    var catalog := |objects|;
    assert objects == Objects(stream);
    pdf := WriteFile(objects, catalog);
    if |FileUpTo(HEADER, objects, 6)| < 10_000_000_000 {
      FindsAll(HEADER, objects, catalog);
      ViewerSeesStream(stream);
    }
  }

  method WriteFile(objects: seq<string>, root: nat) returns (pdf: string)
    ensures pdf == FileText(HEADER, objects, root)
  {
    var offsets;
    pdf, offsets := WriteObjects(HEADER, objects);
    var xrefOffset := |pdf|;
    var table := WriteTable(offsets);
    pdf := pdf + table + Trailer(|objects| + 1, root) + Render(xrefOffset) + END_OF_FILE;
  }

  method WriteObjects(header: string, objects: seq<string>) returns (pdf: string, offsets: seq<nat>)
    ensures pdf == FileUpTo(header, objects, |objects|) && offsets == Offsets(header, objects)
  {
    pdf := header;
    offsets := [];
    for k := 0 to |objects|
      invariant pdf == FileUpTo(header, objects, k)
      invariant |offsets| == k && forall i :: 0 <= i < k ==> offsets[i] == OffsetOf(header, objects, i + 1)
    {
      offsets := offsets + [|pdf|];
      pdf := pdf + ObjectText(k + 1, objects[k]);
    }
  }

  method WriteTable(offsets: seq<nat>) returns (table: string)
    ensures table == Table(offsets)
  {
    table := AppendEntries(TABLE_HEAD + Render(|offsets| + 1) + "\n" + FREE_ENTRY, offsets);
  }

  lemma EntriesStep(head: string, offsets: seq<nat>, k: nat)
    requires k < |offsets|
    ensures head + Entries(offsets[..k + 1]) == (head + Entries(offsets[..k])) + Entry(offsets[k])
  {
    assert offsets[..k + 1][..k] == offsets[..k];
    AppendAssociates(head, Entries(offsets[..k]), Entry(offsets[k]));
  }

  method AppendEntries(head: string, offsets: seq<nat>) returns (table: string)
    ensures table == head + Entries(offsets)
  {
    table := head;
    for k := 0 to |offsets|
      invariant table == head + Entries(offsets[..k])
    {
      EntriesStep(head, offsets, k);
      table := table + Entry(offsets[k]);
    }
    assert offsets[..|offsets|] == offsets;
  }
}
