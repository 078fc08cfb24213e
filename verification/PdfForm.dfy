/**
 * Reading what a PDF writer puts between fixed texts: runs of digits, and forms, which
 * are texts with numbers between them.
 */
module PdfForm {
  import opened Common
  import opened Decimal

  // ---------- Digits inside a file ----------

  function TrailingDigits(s: string): (d: string)
    ensures AllDigits(d) && |d| <= |s|
  {
    if s == "" || !IsDigit(s[|s| - 1]) then "" else TrailingDigits(s[..|s| - 1]) + [s[|s| - 1]]
  }

  lemma {:induction false} TrailingDigitsAre(head: string, d: string)
    requires AllDigits(d) && head != "" && !IsDigit(head[|head| - 1])
    ensures TrailingDigits(head + d) == d
  {
    var n := |d| - 1;
    if d == "" {
      assert head + d == head;
    } else {
      assert (head + d)[|head| + n] == d[n] && (head + d)[..|head| + n] == head + d[..n];
      TrailingDigitsAre(head, d[..n]);
    }
  }

  // ---------- Beginnings ----------

  predicate StartsWith(s: string, prefix: string) { |s| >= |prefix| && s[..|prefix|] == prefix }

  lemma StartsWithMore(s: string, more: string, prefix: string)
    requires StartsWith(s, prefix)
    ensures StartsWith(s + more, prefix)
  {
    assert (s + more)[..|prefix|] == s[..|prefix|];
  }

  lemma StartsWithPart(s: string, prefix: string, part: string)
    requires StartsWith(s, prefix) && StartsWith(prefix, part)
    ensures StartsWith(s, part)
  {
    assert s[..|part|] == s[..|prefix|][..|part|];
  }

  // ---------- Forms ----------

  /** The texts with the numerals between them. */
  function Weave(texts: seq<string>, numerals: seq<string>): string
    requires |texts| == |numerals| + 1
  {
    if numerals == [] then texts[0] else texts[0] + (numerals[0] + Weave(texts[1..], numerals[1..]))
  }

  /** The texts with the numbers between them. */
  function Fill(texts: seq<string>, numbers: seq<nat>): string
    requires |texts| == |numbers| + 1
  {
    Weave(texts, Rendered(numbers))
  }

  function Rendered(numbers: seq<nat>): (r: seq<string>)
    ensures |r| == |numbers| && forall i :: 0 <= i < |r| ==> r[i] != "" && AllDigits(r[i])
  {
    if numbers == [] then [] else [Render(numbers[0])] + Rendered(numbers[1..])
  }

  /** After every number comes a text that does not begin in a digit. */
  predicate IsForm(texts: seq<string>) {
    texts != [] && forall i :: 1 <= i < |texts| ==> texts[i] != "" && !IsDigit(texts[i][0])
  }

  /** The numerals of a form at the head of `s`, and what follows the form. */
  function ReadNumerals(texts: seq<string>, s: string): (r: Option<(seq<string>, string)>)
    requires texts != []
    ensures r.Some? ==> |r.value.0| == |texts| - 1 && forall i :: 0 <= i < |r.value.0| ==> AllDigits(r.value.0[i])
  {
    if !StartsWith(s, texts[0]) then None
    else if |texts| == 1 then Some(([], s[|texts[0]|..]))
    else
      var rest := s[|texts[0]|..];
      var digits := LeadingDigits(rest);
      if digits == "" then None
      else
        match ReadNumerals(texts[1..], rest[|digits|..])
        case Some((more, after)) => Some(([digits] + more, after))
        case None => None
  }

  function Values(numerals: seq<string>): (r: seq<nat>)
    requires forall i :: 0 <= i < |numerals| ==> AllDigits(numerals[i])
    ensures |r| == |numerals|
  {
    if numerals == [] then [] else [Value(numerals[0])] + Values(numerals[1..])
  }

  /** The numbers of a form at the head of `s`. */
  function ReadNumbers(texts: seq<string>, s: string): (r: Option<seq<nat>>)
    requires texts != []
    ensures r.Some? ==> |r.value| == |texts| - 1
  {
    match ReadNumerals(texts, s) case Some((numerals, _)) => Some(Values(numerals)) case None => None
  }

  lemma {:induction false} NumeralsReadBack(texts: seq<string>, numerals: seq<string>, rest: string)
    requires |texts| == |numerals| + 1 && IsForm(texts)
    requires forall i :: 0 <= i < |numerals| ==> numerals[i] != "" && AllDigits(numerals[i])
    ensures ReadNumerals(texts, Weave(texts, numerals) + rest) == Some((numerals, rest))
  {
    var s := Weave(texts, numerals) + rest;
    if numerals == [] {
      assert s[..|texts[0]|] == texts[0] && s[|texts[0]|..] == rest;
    } else {
      var inner := Weave(texts[1..], numerals[1..]) + rest;
      NumeralsReadBack(texts[1..], numerals[1..], rest);
      WeaveBegins(texts[1..], numerals[1..]);
      HeadDigitsTail(texts[0], numerals[0], Weave(texts[1..], numerals[1..]), rest);
      assert inner != "" && inner[0] == texts[1][0];
      LeadingDigitsAre(numerals[0], inner);
      assert (numerals[0] + inner)[|numerals[0]|..] == inner;
      assert [numerals[0]] + numerals[1..] == numerals;
    }
  }

  lemma NumbersReadBack(texts: seq<string>, numbers: seq<nat>, rest: string)
    requires |texts| == |numbers| + 1 && IsForm(texts)
    ensures ReadNumbers(texts, Fill(texts, numbers) + rest) == Some(numbers)
  {
    NumeralsReadBack(texts, Rendered(numbers), rest);
    RenderedValues(numbers);
  }

  lemma {:induction false} RenderedValues(numbers: seq<nat>)
    ensures Values(Rendered(numbers)) == numbers
  {
    if numbers != [] {
      RenderedValues(numbers[1..]);
      RenderRoundTrip(numbers[0]);
      assert Rendered(numbers)[1..] == Rendered(numbers[1..]);
      assert [numbers[0]] + numbers[1..] == numbers;
    }
  }

  lemma HeadDigitsTail(head: string, digits: string, tail: string, rest: string)
    ensures var s := head + (digits + tail) + rest; s[..|head|] == head && s[|head|..] == digits + (tail + rest)
  {
  }

  lemma WeaveBegins(texts: seq<string>, numerals: seq<string>)
    requires |texts| == |numerals| + 1 && texts[0] != ""
    ensures Weave(texts, numerals) != "" && Weave(texts, numerals)[0] == texts[0][0]
  {
  }

  lemma {:induction false} WeaveEnds(texts: seq<string>, numerals: seq<string>)
    requires |texts| == |numerals| + 1 && texts[|numerals|] != ""
    ensures Weave(texts, numerals) != ""
    ensures Weave(texts, numerals)[|Weave(texts, numerals)| - 1] == texts[|numerals|][|texts[|numerals|]| - 1]
  {
    if numerals != [] { WeaveEnds(texts[1..], numerals[1..]); }
  }
}
