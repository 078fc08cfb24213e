/**
 * Text in a PDF content stream: folding to WinAnsi, escaping into a literal string, and
 * the literal-string reader of section 7.3.4.2 of ISO 32000-1 that undoes the escaping.
 */
module PdfText {
  import opened Common

  /** `s.replace(/[...]/g, by)` for a class of single characters. */
  function Replace(s: string, matches: char -> bool, with: string): string {
    if s == "" then "" else (if matches(s[0]) then with else [s[0]]) + Replace(s[1..], matches, with)
  }

  lemma {:induction false} ReplaceConcat(a: string, b: string, matches: char -> bool, with: string)
    ensures Replace(a + b, matches, with) == Replace(a, matches, with) + Replace(b, matches, with)
  {
    if a == "" {
      assert a + b == b;
    } else {
      assert (a + b)[0] == a[0] && (a + b)[1..] == a[1..] + b;
      ReplaceConcat(a[1..], b, matches, with);
    }
  }

  function Is(c: char): char -> bool { (d: char) => d == c }

  function OneOf(c: char, d: char): char -> bool { (e: char) => e == c || e == d }

  predicate IsWinAnsi(c: char) {
    '\U{20}' <= c <= '\U{7E}' || '\U{A0}' <= c <= '\U{FF}'
  }

  predicate AllWinAnsi(s: string) { forall i :: 0 <= i < |s| ==> IsWinAnsi(s[i]) }

  function Undrawable(): char -> bool { (c: char) => !IsWinAnsi(c) }

  /** Curly quotes, dashes, the ellipsis and the no-break space become ASCII. */
  function FoldPunctuation(s: string): string {
    var quotes := Replace(s, OneOf('\U{2018}', '\U{2019}'), "'");
    var doubles := Replace(quotes, OneOf('\U{201C}', '\U{201D}'), "\"");
    var dashes := Replace(doubles, OneOf('\U{2013}', '\U{2014}'), "-");
    var dots := Replace(dashes, Is('\U{2026}'), "...");
    Replace(dots, Is('\U{A0}'), " ")
  }

  function ToWinAnsi(s: string): string {
    Replace(FoldPunctuation(s), Undrawable(), "?")
  }

  /** What a character is drawn as. */
  function Glyphs(c: char): string {
    if c == '\U{2018}' || c == '\U{2019}' then "'"
    else if c == '\U{201C}' || c == '\U{201D}' then "\""
    else if c == '\U{2013}' || c == '\U{2014}' then "-"
    else if c == '\U{2026}' then "..."
    else if c == '\U{A0}' then " "
    else if '\U{20}' <= c <= '\U{7E}' || '\U{A0}' < c <= '\U{FF}' then [c]
    else "?"
  }

  /** The six passes fold each character on its own, and the empty text is left empty. */
  lemma FoldStep(c: char, s: string)
    ensures ToWinAnsi([c] + s) == Glyphs(c) + ToWinAnsi(s) && ToWinAnsi("") == ""
  {
    FoldConcat([c], s);
    FoldOne(c);
  }

  lemma FoldConcat(a: string, b: string)
    ensures ToWinAnsi(a + b) == ToWinAnsi(a) + ToWinAnsi(b)
  {
    var a1, b1 := Replace(a, OneOf('\U{2018}', '\U{2019}'), "'"), Replace(b, OneOf('\U{2018}', '\U{2019}'), "'");
    var a2, b2 := Replace(a1, OneOf('\U{201C}', '\U{201D}'), "\""), Replace(b1, OneOf('\U{201C}', '\U{201D}'), "\"");
    var a3, b3 := Replace(a2, OneOf('\U{2013}', '\U{2014}'), "-"), Replace(b2, OneOf('\U{2013}', '\U{2014}'), "-");
    var a4, b4 := Replace(a3, Is('\U{2026}'), "..."), Replace(b3, Is('\U{2026}'), "...");
    ReplaceConcat(a, b, OneOf('\U{2018}', '\U{2019}'), "'");
    ReplaceConcat(a1, b1, OneOf('\U{201C}', '\U{201D}'), "\"");
    ReplaceConcat(a2, b2, OneOf('\U{2013}', '\U{2014}'), "-");
    ReplaceConcat(a3, b3, Is('\U{2026}'), "...");
    ReplaceConcat(a4, b4, Is('\U{A0}'), " ");
    ReplaceConcat(Replace(a4, Is('\U{A0}'), " "), Replace(b4, Is('\U{A0}'), " "), Undrawable(), "?");
  }

  lemma FoldOne(c: char)
    ensures ToWinAnsi([c]) == Glyphs(c)
  {
    PassesOne(c);
    PassesOne(Glyphs(c)[0]);
    Untouched("...", Is('\U{A0}'), " ");
    Untouched("...", Undrawable(), "?");
  }

  lemma PassesOne(c: char)
    ensures Replace([c], OneOf('\U{2018}', '\U{2019}'), "'") == if c == '\U{2018}' || c == '\U{2019}' then "'" else [c]
    ensures Replace([c], OneOf('\U{201C}', '\U{201D}'), "\"")
         == if c == '\U{201C}' || c == '\U{201D}' then "\"" else [c]
    ensures Replace([c], OneOf('\U{2013}', '\U{2014}'), "-") == if c == '\U{2013}' || c == '\U{2014}' then "-" else [c]
    ensures Replace([c], Is('\U{2026}'), "...") == if c == '\U{2026}' then "..." else [c]
    ensures Replace([c], Is('\U{A0}'), " ") == if c == '\U{A0}' then " " else [c]
    ensures Replace([c], Undrawable(), "?") == if IsWinAnsi(c) then [c] else "?"
  {
    ReplaceOne(c, OneOf('\U{2018}', '\U{2019}'), "'");
    ReplaceOne(c, OneOf('\U{201C}', '\U{201D}'), "\"");
    ReplaceOne(c, OneOf('\U{2013}', '\U{2014}'), "-");
    ReplaceOne(c, Is('\U{2026}'), "...");
    ReplaceOne(c, Is('\U{A0}'), " ");
    ReplaceOne(c, Undrawable(), "?");
  }

  /** Every byte of a folded text is one a WinAnsi font can draw; none is a control character. */
  lemma FoldedIsWinAnsi(s: string)
    ensures AllWinAnsi(ToWinAnsi(s))
  {
    UnmatchedRemain(FoldPunctuation(s));
  }

  lemma {:induction false} UnmatchedRemain(s: string)
    ensures AllWinAnsi(Replace(s, Undrawable(), "?"))
  {
    if s != "" {
      UnmatchedRemain(s[1..]);
      var first := if Undrawable()(s[0]) then "?" else [s[0]];
      assert |first| == 1 && IsWinAnsi(first[0]);
      assert Replace(s, Undrawable(), "?") == first + Replace(s[1..], Undrawable(), "?");
    }
  }

  /** Text that WinAnsi draws as it stands is not touched, but for the no-break space. */
  lemma {:induction false} DrawableUntouched(s: string)
    requires AllWinAnsi(s) && '\U{A0}' !in s
    ensures ToWinAnsi(s) == s
  {
    Untouched(s, OneOf('\U{2018}', '\U{2019}'), "'");
    Untouched(s, OneOf('\U{201C}', '\U{201D}'), "\"");
    Untouched(s, OneOf('\U{2013}', '\U{2014}'), "-");
    Untouched(s, Is('\U{2026}'), "...");
    Untouched(s, Is('\U{A0}'), " ");
    Untouched(s, Undrawable(), "?");
  }

  lemma {:induction false} Untouched(s: string, matches: char -> bool, with: string)
    requires forall i :: 0 <= i < |s| ==> !matches(s[i])
    ensures Replace(s, matches, with) == s
  {
    if s != "" { Untouched(s[1..], matches, with); }
  }

  /** Backslashes first, then each parenthesis: three passes over the whole text. */
  function EscapeText(s: string): string {
    Replace(Replace(Replace(s, Is('\\'), ['\\', '\\']), Is('('), ['\\', '(']), Is(')'), ['\\', ')'])
  }

  function EscapedChar(c: char): string {
    if c == '\\' || c == '(' || c == ')' then ['\\', c] else [c]
  }

  /** The three passes escape each character on its own; none escapes an escape. */
  lemma EscapeStep(c: char, s: string)
    ensures EscapeText([c] + s) == EscapedChar(c) + EscapeText(s)
  {
    var one := Replace([c], Is('\\'), ['\\', '\\']);
    var rest := Replace(s, Is('\\'), ['\\', '\\']);
    ReplaceConcat([c], s, Is('\\'), ['\\', '\\']);
    ReplaceConcat(one, rest, Is('('), ['\\', '(']);
    var two := Replace(one, Is('('), ['\\', '(']);
    ReplaceConcat(two, Replace(rest, Is('('), ['\\', '(']), Is(')'), ['\\', ')']);
    EscapeOne(c);
  }

  lemma EscapeOne(c: char)
    ensures EscapeText([c]) == EscapedChar(c)
  {
    ReplaceOne(c, Is('\\'), ['\\', '\\']);
    if c == '\\' {
      ReplaceTwo('\\', '\\', Is('('), ['\\', '(']);
      ReplaceTwo('\\', '\\', Is(')'), ['\\', ')']);
    } else {
      ReplaceOne(c, Is('('), ['\\', '(']);
      if c == '(' {
        ReplaceTwo('\\', '(', Is(')'), ['\\', ')']);
      } else {
        ReplaceOne(c, Is(')'), ['\\', ')']);
      }
    }
  }

  lemma ReplaceOne(c: char, matches: char -> bool, with: string)
    ensures Replace([c], matches, with) == if matches(c) then with else [c]
  {
    assert Replace([], matches, with) == [];
    assert [c][1..] == [];
  }

  lemma ReplaceTwo(c: char, d: char, matches: char -> bool, with: string)
    requires !matches(c) && !matches(d)
    ensures Replace([c, d], matches, with) == [c, d]
  {
    ReplaceOne(d, matches, with);
    assert [c, d][1..] == [d];
  }

  // ---------- Reading a literal string ----------

  predicate IsOctal(c: char) { '0' <= c <= '7' }

  /** How many octal digits, three at most, an escape takes. */
  function OctalLength(s: string): nat {
    if s == "" || !IsOctal(s[0]) then 0
    else if |s| == 1 || !IsOctal(s[1]) then 1
    else if |s| == 2 || !IsOctal(s[2]) then 2
    else 3
  }

  function OctalValue(s: string): nat
    requires forall i :: 0 <= i < |s| ==> IsOctal(s[i])
  {
    if s == "" then 0
    else
      assert IsOctal(s[|s| - 1]);
      8 * OctalValue(s[..|s| - 1]) + (s[|s| - 1] - '0') as nat
  }

  /** Reads on from inside a literal string: the text up to its closing parenthesis, and what follows. */
  function ReadLiteral(s: string, depth: nat): Option<(string, string)>
    decreases |s|
  {
    if s == "" then None
    else if s[0] == ')' then (if depth == 0 then Some(("", s[1..])) else Prepend([')'], ReadLiteral(s[1..], depth - 1)))
    else if s[0] == '(' then Prepend(['('], ReadLiteral(s[1..], depth + 1))
    else if s[0] == '\\' then
      if |s| == 1 then None
      else if s[1] == 'n' then Prepend(['\n'], ReadLiteral(s[2..], depth))
      else if s[1] == 'r' then Prepend(['\r'], ReadLiteral(s[2..], depth))
      else if s[1] == 't' then Prepend(['\t'], ReadLiteral(s[2..], depth))
      else if s[1] == 'b' then Prepend(['\U{8}'], ReadLiteral(s[2..], depth))
      else if s[1] == 'f' then Prepend(['\U{C}'], ReadLiteral(s[2..], depth))
      else if IsOctal(s[1]) then
        var n := OctalLength(s[1..]);
        Prepend([(OctalValue(s[1..1 + n]) % 256) as char], ReadLiteral(s[1 + n..], depth))
      else if s[1] == '\r' && |s| > 2 && s[2] == '\n' then ReadLiteral(s[3..], depth)
      else if s[1] == '\r' || s[1] == '\n' then ReadLiteral(s[2..], depth)
      else Prepend([s[1]], ReadLiteral(s[2..], depth))
    else if s[0] == '\r' && |s| > 1 && s[1] == '\n' then Prepend(['\n'], ReadLiteral(s[2..], depth))
    else if s[0] == '\r' then Prepend(['\n'], ReadLiteral(s[1..], depth))
    else Prepend([s[0]], ReadLiteral(s[1..], depth))
  }

  function Prepend(text: string, r: Option<(string, string)>): Option<(string, string)> {
    match r case Some((more, rest)) => Some((text + more, rest)) case None => None
  }

  /** Unescaping inverts escaping, and the closing parenthesis is the one the writer put there. */
  lemma {:induction false} EscapedReadsBack(text: string, rest: string)
    requires '\r' !in text
    ensures ReadLiteral(EscapeText(text) + ([')'] + rest), 0) == Some((text, rest))
  {
    var tail := [')'] + rest;
    var s := EscapeText(text) + tail;
    if text == "" {
      assert s == tail && tail[1..] == rest;
    } else {
      var more := EscapeText(text[1..]) + tail;
      EscapedReadsBack(text[1..], rest);
      EscapeStep(text[0], text[1..]);
      assert [text[0]] + text[1..] == text;
      assert s == EscapedChar(text[0]) + more;
      if text[0] == '\\' || text[0] == '(' || text[0] == ')' {
        assert s[0] == '\\' && s[1] == text[0] && s[2..] == more;
      } else {
        assert s[0] == text[0] && s[1..] == more;
      }
    }
  }

  /** What a page shows is the folded text, for every text. */
  lemma ShownReadsBack(text: string, rest: string)
    ensures ReadLiteral(EscapeText(ToWinAnsi(text)) + ([')'] + rest), 0) == Some((ToWinAnsi(text), rest))
  {
    FoldedIsWinAnsi(text);
    EscapedReadsBack(ToWinAnsi(text), rest);
  }
}
