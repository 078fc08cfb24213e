/**
 * Reading the drawing operators of a page: each text operator gives its font, size, baseline
 * and the text of its literal string; an operator that shows no text gives nothing.
 */
module PdfPage {
  import opened Common
  import opened Decimal
  import opened PdfText
  import opened PdfForm

  /** A text on the page; the baseline is in hundredths of a point from the bottom. */
  datatype Drawn = Drawn(bold: bool, size: nat, y: nat, text: string)

  const TEXT_FORM := ["BT /F", " ", " Tf 1 0 0 1 56 ", ".", " Tm ("]
  const GREY_FORM := ["BT /F", " ", " Tf 1 0 0 1 56 ", " Tm 0.45 0.45 0.45 rg ("]

  function ReadOp(op: string): Option<Drawn> { ReadAs(TEXT_FORM, GREY_FORM, op) }

  /** A baseline in points with two places, or in whole points. */
  function ReadAs(placed: seq<string>, whole: seq<string>, op: string): Option<Drawn>
    requires |placed| == 5 && |whole| == 4
  {
    match ReadNumerals(placed, op)
    case Some((n, rest)) =>
      if |n[3]| == 2 then DrawnText(n[0], n[1], 100 * Value(n[2]) + Value(n[3]), rest) else None
    case None =>
      match ReadNumerals(whole, op)
      case Some((n, rest)) => DrawnText(n[0], n[1], 100 * Value(n[2]), rest)
      case None => None
  }

  function DrawnText(font: string, size: string, y: nat, rest: string): Option<Drawn>
    requires AllDigits(size)
  {
    match ReadLiteral(rest, 0)
    case Some((text, after)) =>
      if font in ["1", "2"] && after == " Tj ET" then Some(Drawn(font == "2", Value(size), y, text)) else None
    case None => None
  }

  function ReadOps(ops: seq<string>): seq<Drawn> { Flatten(Map(Viewer(), ops)) }

  function Viewer(): string -> seq<Drawn> { (op: string) => ShownBy(op) }

  function ShownBy(op: string): seq<Drawn> {
    match ReadOp(op) case Some(drawn) => [drawn] case None => []
  }

  /** The texts of a content stream, one operator a line, in the order they are drawn. */
  function ReadContents(stream: string): seq<Drawn> { ReadOps(SplitLines(stream)) }

  lemma ReadOpsConcat(ops: seq<string>, more: seq<string>)
    ensures ReadOps(ops + more) == ReadOps(ops) + ReadOps(more)
  {
    MapConcat(Viewer(), ops, more);
    FlattenConcat(Map(Viewer(), ops), Map(Viewer(), more));
  }

  lemma ReadOne(op: string)
    ensures ReadOps([op]) == ShownBy(op) && ReadOps([]) == []
  {
    var shown := ShownBy(op);
    assert Map(Viewer(), [op]) == [shown];
    assert [shown][1..] == [] && Flatten([shown]) == shown + Flatten([]);
  }

  lemma ReadOpsAppend(ops: seq<string>, op: string)
    ensures ReadOps(ops + [op]) == ReadOps(ops) + ShownBy(op)
  {
    ReadOpsConcat(ops, [op]);
    ReadOne(op);
  }

  /** Behind any operators, this one shows just these texts. */
  ghost predicate Adds(op: string, texts: seq<Drawn>) {
    '\n' !in op && forall ops :: ReadOps(ops + [op]) == ReadOps(ops) + texts
  }

  /** In front of any operators, these show just these texts. */
  ghost predicate Showing(ops: seq<string>, texts: seq<Drawn>) {
    Unbroken(ops) && forall more :: ReadOps(ops + more) == texts + ReadOps(more)
  }

  lemma ReadAdds(op: string, drawn: Drawn)
    requires ReadOp(op) == Some(drawn) && '\n' !in op
    ensures Adds(op, [drawn])
  {
    forall ops ensures ReadOps(ops + [op]) == ReadOps(ops) + [drawn] { ReadOpsAppend(ops, op); }
  }

  lemma UnreadAdds(op: string)
    requires ReadOp(op) == None && '\n' !in op
    ensures Adds(op, [])
  {
    forall ops ensures ReadOps(ops + [op]) == ReadOps(ops) + [] { ReadOpsAppend(ops, op); }
  }

  lemma NothingShows()
    ensures Showing([], [])
  {
    forall more: seq<string> ensures ReadOps([] + more) == [] + ReadOps(more) { assert [] + more == more; }
  }

  lemma ShowingMore(ops: seq<string>, texts: seq<Drawn>, op: string, added: seq<Drawn>)
    requires Showing(ops, texts) && Adds(op, added)
    ensures Showing(ops + [op], texts + added)
  {
    var single := [op];
    assert ReadOps(single) == added by {
      assert [] + [op] == single && ReadOps([] + [op]) == ReadOps([]) + added;
      ReadOne(op);
    }
    forall more ensures ReadOps(ops + [op] + more) == texts + added + ReadOps(more) {
      ReadOpsConcat(single, more);
      AppendAssociates(ops, single, more);
      assert ReadOps(ops + (single + more)) == texts + ReadOps(single + more);
      AppendAssociates(texts, added, ReadOps(more));
    }
  }

  lemma ShowingReads(ops: seq<string>, texts: seq<Drawn>)
    requires Showing(ops, texts)
    ensures ReadOps(ops) == texts
  {
    assert ops + [] == ops && ReadOps(ops + []) == texts + ReadOps([]);
  }

  ghost predicate Unbroken(ops: seq<string>) { forall i :: 0 <= i < |ops| ==> '\n' !in ops[i] }

  lemma ContentsAreOps(ops: seq<string>)
    requires Unbroken(ops)
    ensures ReadContents(Join(ops, "\n")) == ReadOps(ops)
  {
    if ops == [] {
      assert SplitLines("") == [""];
      ReadOne("");
      NoText("");
    } else {
      JoinedSplits(ops);
    }
  }

  /** Only an operator that begins in B can show text. */
  lemma NoText(op: string)
    requires op == "" || op[0] != 'B'
    ensures ReadOp(op) == None
  {
    assert TEXT_FORM[0][0] == 'B' && GREY_FORM[0][0] == 'B';
    OtherBeginning(op, TEXT_FORM[0]);
    OtherBeginning(op, GREY_FORM[0]);
  }

  lemma OtherBeginning(s: string, prefix: string)
    requires prefix != "" && (s == "" || s[0] != prefix[0])
    ensures !StartsWith(s, prefix)
  {
    assert |s| >= |prefix| ==> s[..|prefix|][0] == s[0];
  }

  lemma FormsAreForms()
    ensures IsForm(TEXT_FORM) && IsForm(GREY_FORM)
  {
    assert TEXT_FORM[1][0] == ' ' && TEXT_FORM[2][0] == ' ' && TEXT_FORM[3][0] == '.' && TEXT_FORM[4][0] == ' ';
    assert GREY_FORM[1][0] == ' ' && GREY_FORM[2][0] == ' ' && GREY_FORM[3][0] == ' ';
  }

  lemma WeaveFirst(text: string, texts: seq<string>, numeral: string, numerals: seq<string>)
    requires |texts| == |numerals| + 1
    ensures Weave([text] + texts, [numeral] + numerals) == text + (numeral + Weave(texts, numerals))
  {
    assert ([text] + texts)[1..] == texts && ([numeral] + numerals)[1..] == numerals;
  }

  lemma WeaveOfFour(a: string, b: string, c: string, d: string, k: string, m: string, n: string)
    ensures Weave([a, b, c, d], [k, m, n]) == a + (k + (b + (m + (c + (n + d)))))
  {
    WeaveFirst(a, [b, c, d], k, [m, n]);
    WeaveFirst(b, [c, d], m, [n]);
    WeaveFirst(c, [d], n, []);
    assert [a] + [b, c, d] == [a, b, c, d] && [k] + [m, n] == [k, m, n];
    assert [b] + [c, d] == [b, c, d] && [m] + [n] == [m, n] && [c] + [d] == [c, d] && [n] + [] == [n];
  }

  lemma WeaveOfFive(a: string, b: string, c: string, d: string, e: string, j: string, k: string, m: string, n: string)
    ensures Weave([a, b, c, d, e], [j, k, m, n]) == a + (j + (b + (k + (c + (m + (d + (n + e)))))))
  {
    WeaveFirst(a, [b, c, d, e], j, [k, m, n]);
    WeaveOfFour(b, c, d, e, k, m, n);
    assert [a] + [b, c, d, e] == [a, b, c, d, e] && [j] + [k, m, n] == [j, k, m, n];
  }

  lemma PlacedReads(placed: seq<string>, whole: seq<string>, n: seq<string>, rest: string)
    requires |placed| == 5 && |whole| == 4 && IsForm(placed) && |n| == 4 && |n[3]| == 2
    requires forall i :: 0 <= i < |n| ==> n[i] != "" && AllDigits(n[i])
    ensures ReadAs(placed, whole, Weave(placed, n) + rest)
            == DrawnText(n[0], n[1], 100 * Value(n[2]) + Value(n[3]), rest)
  {
    NumeralsReadBack(placed, n, rest);
  }

  lemma WholeReads(placed: seq<string>, whole: seq<string>, n: seq<string>, rest: string)
    requires |placed| == 5 && |whole| == 4 && IsForm(whole) && |n| == 3
    requires forall i :: 0 <= i < |n| ==> n[i] != "" && AllDigits(n[i])
    requires ReadNumerals(placed, Weave(whole, n) + rest) == None
    ensures ReadAs(placed, whole, Weave(whole, n) + rest) == DrawnText(n[0], n[1], 100 * Value(n[2]), rest)
  {
    NumeralsReadBack(whole, n, rest);
  }

  lemma TwoPlaces(y: nat)
    ensures var frac := PadStart(Render(y % 100), 2);
      && |frac| == 2 && AllDigits(frac) && 100 * Value(Render(y / 100)) + Value(frac) == y
  {
    PaddedRoundTrip(y % 100, 2);
    RenderLength(y % 100, 2);
    assert Pow10(2) == 100;
    RenderRoundTrip(y / 100);
  }

  lemma DrawnTextReads(font: string, size: nat, y: nat, text: string, rest: string)
    requires font in ["1", "2"] && ReadLiteral(rest, 0) == Some((text, " Tj ET"))
    ensures DrawnText(font, Render(size), y, rest) == Some(Drawn(font == "2", size, y, text))
  {
    RenderRoundTrip(size);
  }

  /** The operator of a text, written as a form. */
  lemma TextReadsBack(font: string, size: nat, y: nat, rest: string)
    requires font in ["1", "2"]
    ensures ReadOp(Weave(TEXT_FORM, [font, Render(size), Render(y / 100), PadStart(Render(y % 100), 2)]) + rest)
         == DrawnText(font, Render(size), y, rest)
  {
    TwoPlaces(y);
    FormsAreForms();
    PlacedReads(TEXT_FORM, GREY_FORM, [font, Render(size), Render(y / 100), PadStart(Render(y % 100), 2)], rest);
  }

  lemma GreyReadsBack(font: string, size: nat, y: nat, rest: string)
    requires font in ["1", "2"]
    ensures ReadOp(Weave(GREY_FORM, [font, Render(size), Render(y)]) + rest)
         == DrawnText(font, Render(size), 100 * y, rest)
  {
    FormsAreForms();
    RenderRoundTrip(y);
    NotTextForm([font, Render(size), Render(y)], rest);
    WholeReads(TEXT_FORM, GREY_FORM, [font, Render(size), Render(y)], rest);
  }

  /** A grey text is not read as a black one: no point follows its baseline. */
  lemma NotTextForm(n: seq<string>, rest: string)
    requires |n| == 3 && forall i :: 0 <= i < 3 ==> n[i] != "" && AllDigits(n[i])
    ensures ReadNumerals(TEXT_FORM, Weave(GREY_FORM, n) + rest) == None
  {
    var tail := Weave(GREY_FORM[1..], n[1..]) + rest;
    FormsAreForms();
    ReadPastFirst(TEXT_FORM, GREY_FORM, n, rest);
    ReadPastFirst(TEXT_FORM[1..], GREY_FORM[1..], n[1..], rest);
    ReadPastFirst(TEXT_FORM[2..], GREY_FORM[2..], n[2..], rest);
    assert TEXT_FORM[1..][1..] == TEXT_FORM[2..] && TEXT_FORM[2..][1..] == TEXT_FORM[3..];
    assert GREY_FORM[1..][1..] == GREY_FORM[2..] && GREY_FORM[2..][1..] == GREY_FORM[3..];
    assert n[1..][1..] == n[2..] && n[2..][1..] == n[3..] == [];
    assert (Weave(GREY_FORM[3..], []) + rest)[0] == ' ';
    OtherBeginning(Weave(GREY_FORM[3..], []) + rest, TEXT_FORM[3]);
  }

  /** Two forms that begin alike: reading one where the other was written goes on behind the first number. */
  lemma ReadPastFirst(form: seq<string>, written: seq<string>, n: seq<string>, rest: string)
    requires |form| > 1 && |written| == |n| + 1 > 1 && form[0] == written[0] && IsForm(written)
    requires n[0] != "" && AllDigits(n[0])
    ensures ReadNumerals(form[1..], Weave(written[1..], n[1..]) + rest) == None
        ==> ReadNumerals(form, Weave(written, n) + rest) == None
  {
    var inner := Weave(written[1..], n[1..]) + rest;
    WeaveBegins(written[1..], n[1..]);
    HeadDigitsTail(written[0], n[0], Weave(written[1..], n[1..]), rest);
    assert inner[0] == written[1][0];
    LeadingDigitsAre(n[0], inner);
    assert (n[0] + inner)[|n[0]|..] == inner;
  }
}
