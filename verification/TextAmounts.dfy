/**
 * What adding to a decimal column does when the driver hands the column over as text: `+`
 * joins, and the column reads the joined text back.
 */
module TextAmounts {
  import opened Common
  import opened Decimal

  /** What a column of `scale` digits keeps of a text, and whether what it drops rounds the last kept digit up. */
  datatype Kept = Kept(whole: nat, fraction: nat, up: bool)

  /** The amount in units of the last kept digit. */
  function Units(kept: Kept, scale: nat): nat {
    kept.whole * Pow10(scale) + kept.fraction + if kept.up then 1 else 0
  }

  /** A text the column hands over: digits, a point, and `scale` digits. */
  function ColumnText(whole: string, fraction: string): string { whole + (['.'] + fraction) }

  /** Digits with one point among them; anything else is refused. */
  function ReadColumn(text: string, scale: nat): Option<Kept> {
    var whole := LeadingDigits(text);
    if whole == "" || |whole| == |text| || text[|whole|] != '.' then None
    else ReadFraction(Value(whole), text[|whole| + 1..], scale)
  }

  function ReadFraction(whole: nat, after: string, scale: nat): Option<Kept> {
    if !AllDigits(after) || |after| < scale then None
    else Some(Kept(whole, Value(after[..scale]), |after| > scale && after[scale] >= '5'))
  }

  lemma WholeAndRest(whole: string, after: string)
    requires AllDigits(whole)
    ensures var text := whole + (['.'] + after);
      LeadingDigits(text) == whole && |text| > |whole| && text[|whole|] == '.' && text[|whole| + 1..] == after
  {
    LeadingDigitsAre(whole, ['.'] + after);
  }

  /** Digits joined to a column's text are lost, but for the first one's say in rounding. */
  lemma JoinedReadsAs(whole: string, fraction: string, digits: string)
    requires AllDigits(whole) && whole != "" && AllDigits(fraction) && AllDigits(digits)
    ensures ReadColumn(ColumnText(whole, fraction) + digits, |fraction|)
         == Some(Kept(Value(whole), Value(fraction), digits != "" && digits[0] >= '5'))
  {
    WholeAndRest(whole, fraction + digits);
    AppendAssociates(whole, ['.'] + fraction, digits);
    AppendAssociates(['.'], fraction, digits);
    FractionReadsAs(Value(whole), fraction, digits);
  }

  lemma FractionReadsAs(whole: nat, fraction: string, digits: string)
    requires AllDigits(fraction) && AllDigits(digits)
    ensures ReadFraction(whole, fraction + digits, |fraction|)
         == Some(Kept(whole, Value(fraction), digits != "" && digits[0] >= '5'))
  {
    Cut(fraction, digits);
    AllDigitsJoined(fraction, digits);
  }

  lemma Cut(a: string, b: string)
    ensures (a + b)[..|a|] == a
    ensures b != "" ==> (a + b)[|a|] == b[0]
  {
  }

  lemma AllDigitsJoined(a: string, b: string)
    requires AllDigits(a) && AllDigits(b)
    ensures AllDigits(a + b)
  {
  }

  lemma FirstDigit(n: nat)
    ensures n == 0 ==> Render(n) == "0"
  {
  }

  lemma HigherByTen(credits: nat, unit: nat)
    requires credits > 0 && unit >= 10
    ensures credits * unit >= 10
  {
  }

  /**
   * A top-up of whole credits onto a balance that came back as text: the new balance is the
   * old one, or one unit of the last digit more, so it is right exactly when nothing is added.
   */
  lemma TopUpOntoTextIff(whole: string, fraction: string, credits: nat)
    requires AllDigits(whole) && whole != "" && AllDigits(fraction) && fraction != ""
    ensures var scale := |fraction|;
      var before, after := ReadColumn(ColumnText(whole, fraction), scale),
                           ReadColumn(ColumnText(whole, fraction) + Render(credits), scale);
      && before.Some? && after.Some?
      && Units(before.value, scale) <= Units(after.value, scale) <= Units(before.value, scale) + 1
      && (Units(after.value, scale) == Units(before.value, scale) + credits * Pow10(scale) <==> credits == 0)
  {
    JoinedReadsAs(whole, fraction, "");
    assert ColumnText(whole, fraction) + "" == ColumnText(whole, fraction);
    JoinedReadsAs(whole, fraction, Render(credits));
    FirstDigit(credits);
    Pow10Grows(|fraction|);
    if credits > 0 { HigherByTen(credits, Pow10(|fraction|)); }
  }

  /** An amount with a point of its own makes a text with two, which the column refuses. */
  lemma SecondPointRefused(whole: string, fraction: string, digits: string, rest: string, scale: nat)
    requires AllDigits(whole) && AllDigits(fraction) && AllDigits(digits)
    ensures ReadColumn(ColumnText(whole, fraction) + (digits + (['.'] + rest)), scale) == None
  {
    var after := fraction + (digits + (['.'] + rest));
    WholeAndRest(whole, after);
    assert ColumnText(whole, fraction) + (digits + (['.'] + rest)) == whole + (['.'] + after);
    assert after[|fraction| + |digits|] == '.';
  }
}
