/**
 * Greedy word wrap and truncation against an additive width: every character has a
 * non-negative width, and the width of a text is their sum.
 */
module WordWrap {
  import opened Common

  type Font = char -> nat

  function WidthOf(font: Font, s: string): nat {
    if s == "" then 0 else font(s[0]) + WidthOf(font, s[1..])
  }

  lemma {:induction false} WidthConcat(font: Font, a: string, b: string)
    ensures WidthOf(font, a + b) == WidthOf(font, a) + WidthOf(font, b)
  {
    if a == "" {
      assert a + b == b;
    } else {
      assert (a + b)[0] == a[0] && (a + b)[1..] == a[1..] + b;
      WidthConcat(font, a[1..], b);
    }
  }

  /** Every character counts with its own width. */
  lemma WidthOfOne(font: Font, c: char)
    ensures WidthOf(font, "") == 0 && WidthOf(font, [c]) == font(c)
  {
    assert WidthOf(font, [c]) == font(c) + WidthOf(font, [c][1..]) && [c][1..] == "";
  }

  // ---------- Splitting ----------

  predicate IsSpace(c: char) { c == ' ' || c == '\t' || c == '\n' || c == '\U{B}' || c == '\U{C}' || c == '\r' }

  function SpaceRun(s: string): (n: nat)
    ensures n <= |s| && (n < |s| ==> !IsSpace(s[n]))
  {
    if s == "" || !IsSpace(s[0]) then 0 else 1 + SpaceRun(s[1..])
  }

  function WordLength(s: string): (n: nat)
    ensures n <= |s| && (n < |s| ==> IsSpace(s[n])) && forall i :: 0 <= i < n ==> !IsSpace(s[i])
  {
    if s == "" || IsSpace(s[0]) then 0 else 1 + WordLength(s[1..])
  }

  /** `split(/\s+/)`: white space at either end leaves an empty word there. */
  function SplitSpaces(s: string): seq<string>
    decreases |s|
  {
    var n := WordLength(s);
    if n == |s| then [s] else [s[..n]] + SplitSpaces(s[n + SpaceRun(s[n..])..])
  }

  ghost predicate NonEmptyWords(words: seq<string>) { forall i :: 0 <= i < |words| ==> words[i] != "" }

  /** A paragraph has no empty word exactly when it begins and ends in something other than white space. */
  lemma {:induction false} NoEmptyWordsIff(s: string)
    ensures SplitSpaces(s) != []
    ensures NonEmptyWords(SplitSpaces(s)) <==> s != "" && !IsSpace(s[0]) && !IsSpace(s[|s| - 1])
    decreases |s|
  {
    var n := WordLength(s);
    if n < |s| {
      var m := n + SpaceRun(s[n..]);
      var rest := s[m..];
      var words := SplitSpaces(s);
      assert words == [s[..n]] + SplitSpaces(rest);
      FirstWord(s[..n], SplitSpaces(rest));
      if n > 0 {
        NoEmptyWordsIff(rest);
        RunIsSpace(s[n..]);
        if rest == "" {
          assert s[|s| - 1] == s[n..][|s| - n - 1];
        } else {
          assert rest[0] == s[n..][m - n] && rest[|rest| - 1] == s[|s| - 1];
        }
      }
    } else {
      assert NonEmptyWords([s]) <==> s != "" by { assert [s][0] == s; }
    }
  }

  function NonEmpty(): string -> bool { (word: string) => word != "" }

  /** The words of a paragraph, without the empty ones that white space at its ends leaves. */
  function Words(paragraph: string): seq<string> { Filter(NonEmpty(), SplitSpaces(paragraph)) }

  predicate LeadsInSpace(s: string) { s != "" && IsSpace(s[0]) }

  predicate EndsInSpace(s: string) { s != "" && IsSpace(s[|s| - 1]) }

  function EmptyWordIf(there: bool): seq<string> { if there then [""] else [] }

  predicate Blank(s: string) { forall i :: 0 <= i < |s| ==> IsSpace(s[i]) }

  /** What follows the first word and the white space after it. */
  function AfterFirst(s: string): (rest: string)
    requires WordLength(s) < |s|
    ensures |rest| < |s|
  {
    var n := WordLength(s);
    s[n + SpaceRun(s[n..])..]
  }

  lemma AfterFirstEnds(s: string)
    requires WordLength(s) < |s|
    ensures var n, rest := WordLength(s), AfterFirst(s);
      && !LeadsInSpace(rest) && (LeadsInSpace(s) <==> n == 0)
      && (EndsInSpace(s) <==> rest == "" || EndsInSpace(rest))
      && (Blank(s) <==> n == 0 && rest == "")
  {
    var word, gap := Cut(s);
    SpaceBetween(word, gap, AfterFirst(s));
  }

  /** The first word, the white space after it, and the rest. */
  lemma Cut(s: string) returns (word: string, gap: string)
    requires WordLength(s) < |s|
    ensures word == s[..WordLength(s)] && s == word + gap + AfterFirst(s)
    ensures (forall i :: 0 <= i < |word| ==> !IsSpace(word[i])) && gap != "" && Blank(gap)
    ensures !LeadsInSpace(AfterFirst(s))
  {
    var n := WordLength(s);
    var tail := s[n..];
    assert tail[0] == s[n];
    GapThenRest(tail);
    word, gap := s[..n], tail[..SpaceRun(tail)];
    ThreeParts(s, n, SpaceRun(tail));
  }

  lemma ThreeParts(s: string, n: nat, k: nat)
    requires n + k <= |s|
    ensures s == s[..n] + s[n..][..k] + s[n..][k..] && s[n..][k..] == s[n + k..]
  {
    assert s == s[..n] + s[n..];
    assert s[n..] == s[n..][..k] + s[n..][k..];
  }

  lemma GapThenRest(tail: string)
    requires LeadsInSpace(tail)
    ensures var k := SpaceRun(tail); k > 0 && Blank(tail[..k]) && !LeadsInSpace(tail[k..])
  {
    RunIsSpace(tail);
  }

  lemma SpaceBetween(word: string, gap: string, rest: string)
    requires forall i :: 0 <= i < |word| ==> !IsSpace(word[i])
    requires gap != "" && Blank(gap) && !LeadsInSpace(rest)
    ensures LeadsInSpace(word + gap + rest) <==> word == ""
    ensures EndsInSpace(word + gap + rest) <==> rest == "" || EndsInSpace(rest)
    ensures Blank(word + gap + rest) <==> word == "" && rest == ""
  {
    var s := word + gap + rest;
    assert word != "" ==> s[0] == word[0];
    assert word == "" ==> s[0] == gap[0];
    assert s[|word| + |gap| - 1] == gap[|gap| - 1];
    assert rest != "" ==> s[|word| + |gap|] == rest[0] && s[|s| - 1] == rest[|rest| - 1];
    assert word == "" && rest == "" ==> s == gap;
  }

  /** Words with gaps between them. */
  ghost function Interleaved(words: seq<string>, gaps: seq<string>): string
    requires |words| == |gaps| + 1
  {
    if gaps == [] then words[0] else words[0] + gaps[0] + Interleaved(words[1..], gaps[1..])
  }

  ghost predicate IsGap(s: string) { s != "" && forall i :: 0 <= i < |s| ==> s[i] in " \t\n\U{B}\U{C}\r" }

  ghost predicate IsUnbroken(s: string) { forall i :: 0 <= i < |s| ==> s[i] !in " \t\n\U{B}\U{C}\r" }

  /** The words hold no white space, and the text is these words with nothing but white space between each two. */
  ghost predicate IsSplit(s: string, words: seq<string>, gaps: seq<string>) {
    && |words| == |gaps| + 1 && s == Interleaved(words, gaps)
    && (forall i :: 0 <= i < |gaps| ==> IsGap(gaps[i]))
    && (forall i :: 0 <= i < |words| ==> IsUnbroken(words[i]))
  }

  lemma {:induction false} SplitSpacesMeans(s: string) returns (gaps: seq<string>)
    ensures IsSplit(s, SplitSpaces(s), gaps)
    decreases |s|
  {
    if WordLength(s) == |s| {
      gaps := [];
      WordIsUnbroken(s);
    } else {
      var word, gap := Cut(s);
      var more := SplitSpacesMeans(AfterFirst(s));
      gaps := [gap] + more;
      WordIsUnbroken(word);
      GapIsGap(gap);
      AfterFirstWords(s);
      SplitFirst(s, word, gap, AfterFirst(s), SplitSpaces(AfterFirst(s)), more);
    }
  }

  lemma SplitFirst(s: string, word: string, gap: string, rest: string, words: seq<string>, gaps: seq<string>)
    requires s == word + gap + rest && IsSplit(rest, words, gaps) && IsUnbroken(word) && IsGap(gap)
    ensures IsSplit(s, [word] + words, [gap] + gaps)
  {
    InterleavedFirst(word, words, gap, gaps);
  }

  lemma WordIsUnbroken(word: string)
    requires forall i :: 0 <= i < |word| ==> !IsSpace(word[i])
    ensures IsUnbroken(word)
  {
  }

  lemma GapIsGap(gap: string)
    requires gap != "" && Blank(gap)
    ensures IsGap(gap)
  {
  }

  lemma InterleavedFirst(word: string, words: seq<string>, gap: string, gaps: seq<string>)
    requires |words| == |gaps| + 1
    ensures Interleaved([word] + words, [gap] + gaps) == word + gap + Interleaved(words, gaps)
  {
    assert ([word] + words)[1..] == words && ([gap] + gaps)[1..] == gaps;
  }

  lemma AfterFirstWords(s: string)
    requires WordLength(s) < |s|
    ensures SplitSpaces(s) == [s[..WordLength(s)]] + SplitSpaces(AfterFirst(s))
    ensures Words(s) == (if WordLength(s) > 0 then [s[..WordLength(s)]] else []) + Words(AfterFirst(s))
  {
    var first := s[..WordLength(s)];
    FilterConcat(NonEmpty(), [first], SplitSpaces(AfterFirst(s)));
    OneWord(first);
  }

  /** Empty words are at the ends only, one for each end in white space; a paragraph of white space has no others. */
  lemma {:induction false} WordsBetweenSpaces(s: string)
    ensures Words(s) == [] <==> Blank(s)
    ensures Words(s) == [] ==> SplitSpaces(s) == if s == "" then [""] else ["", ""]
    ensures Words(s) != [] ==> SplitSpaces(s) == EmptyWordIf(LeadsInSpace(s)) + Words(s) + EmptyWordIf(EndsInSpace(s))
    decreases |s|
  {
    if WordLength(s) == |s| {
      OneWord(s);
    } else {
      var first, rest := s[..WordLength(s)], AfterFirst(s);
      WordsBetweenSpaces(rest);
      AfterFirstEnds(s);
      AfterFirstWords(s);
      WordPutFirst(first, Words(rest), EmptyWordIf(EndsInSpace(rest)));
    }
  }

  lemma WordPutFirst(first: string, words: seq<string>, ending: seq<string>)
    ensures [first] + ([] + words + ending)
         == EmptyWordIf(first == "") + ((if first == "" then [] else [first]) + words) + ending
    ensures [first] + [""] == EmptyWordIf(first == "") + (if first == "" then [] else [first]) + [""]
  {
  }

  lemma OneWord(word: string)
    ensures Filter(NonEmpty(), [word]) == if word != "" then [word] else []
  {
  }

  lemma FirstWord(word: string, words: seq<string>)
    ensures NonEmptyWords([word] + words) <==> word != "" && NonEmptyWords(words)
  {
    assert ([word] + words)[0] == word;
    assert forall i :: 0 <= i < |words| ==> ([word] + words)[i + 1] == words[i];
  }

  lemma {:induction false} RunIsSpace(s: string)
    ensures forall i :: 0 <= i < SpaceRun(s) ==> IsSpace(s[i])
  {
    if s != "" && IsSpace(s[0]) { RunIsSpace(s[1..]); }
  }

  // ---------- Wrapping ----------

  /** The lines from an unfinished line and the words still to come. */
  function WrapWords(font: Font, maxWidth: int, line: string, words: seq<string>): seq<string>
    decreases |words|
  {
    if words == [] then [line]
    else
      var candidate := if line != "" then line + " " + words[0] else words[0];
      if WidthOf(font, candidate) <= maxWidth || line == "" then WrapWords(font, maxWidth, candidate, words[1..])
      else [line] + WrapWords(font, maxWidth, words[0], words[1..])
  }

  function WrapParagraph(font: Font, maxWidth: int, paragraph: string): seq<string> {
    WrapWords(font, maxWidth, "", SplitSpaces(paragraph))
  }

  function WrapParagraphs(font: Font, maxWidth: int, paragraphs: seq<string>): seq<string> {
    if paragraphs == [] then []
    else
      WrapParagraphs(font, maxWidth, paragraphs[..|paragraphs| - 1])
      + WrapParagraph(font, maxWidth, paragraphs[|paragraphs| - 1])
  }

  /** The paragraphs are what stands between line breaks. */
  ghost predicate AreParagraphs(text: string, paragraphs: seq<string>) {
    && paragraphs != [] && Join(paragraphs, "\n") == text
    && forall i :: 0 <= i < |paragraphs| ==> '\n' !in paragraphs[i]
  }

  /** The lines of each paragraph, one paragraph after the other. */
  ghost predicate AreWrapped(out: seq<string>, font: Font, maxWidth: int, paragraphs: seq<string>) {
    exists pieces: seq<seq<string>> :: |pieces| == |paragraphs| && out == Flatten(pieces)
      && forall i :: 0 <= i < |pieces| ==> pieces[i] == WrapParagraph(font, maxWidth, paragraphs[i])
  }

  lemma {:induction false} WrapsEach(font: Font, maxWidth: int, paragraphs: seq<string>)
    ensures AreWrapped(WrapParagraphs(font, maxWidth, paragraphs), font, maxWidth, paragraphs)
  {
    var pieces := seq(|paragraphs|, i requires 0 <= i < |paragraphs| => WrapParagraph(font, maxWidth, paragraphs[i]));
    PiecesInOrder(font, maxWidth, paragraphs, pieces);
  }

  lemma {:induction false} PiecesInOrder(font: Font, maxWidth: int, paragraphs: seq<string>, pieces: seq<seq<string>>)
    requires |pieces| == |paragraphs|
    requires forall i :: 0 <= i < |pieces| ==> pieces[i] == WrapParagraph(font, maxWidth, paragraphs[i])
    ensures WrapParagraphs(font, maxWidth, paragraphs) == Flatten(pieces)
  {
    if pieces != [] {
      var n := |pieces| - 1;
      PiecesInOrder(font, maxWidth, paragraphs[..n], pieces[..n]);
      assert pieces == pieces[..n] + [pieces[n]];
      FlattenConcat(pieces[..n], [pieces[n]]);
      assert Flatten([pieces[n]]) == pieces[n] + [];
    }
  }

  method Wrap(text: string, font: Font, maxWidth: int) returns (out: seq<string>)
    ensures out == if text == "" then [""] else WrapParagraphs(font, maxWidth, SplitLines(text))
    ensures exists paragraphs :: AreParagraphs(text, paragraphs) && AreWrapped(out, font, maxWidth, paragraphs)
  {
    if text == "" {
      out := [""];
    } else {
      out := WrapEach(SplitLines(text), font, maxWidth);
    }
    WrappedParagraphs(text, font, maxWidth, out);
  }

  lemma WrappedParagraphs(text: string, font: Font, maxWidth: int, out: seq<string>)
    requires out == if text == "" then [""] else WrapParagraphs(font, maxWidth, SplitLines(text))
    ensures exists paragraphs :: AreParagraphs(text, paragraphs) && AreWrapped(out, font, maxWidth, paragraphs)
  {
    var paragraphs := SplitLines(text);
    SplitLinesMeans(text);
    WrapsEach(font, maxWidth, paragraphs);
    if text == "" {
      BlankParagraph(font, maxWidth, "");
      assert WrapParagraphs(font, maxWidth, [""]) == [] + [""];
    }
    assert AreParagraphs(text, paragraphs) && AreWrapped(out, font, maxWidth, paragraphs);
  }

  method WrapEach(paragraphs: seq<string>, font: Font, maxWidth: int) returns (out: seq<string>)
    ensures out == WrapParagraphs(font, maxWidth, paragraphs)
  {
    out := [];
    for k := 0 to |paragraphs|
      invariant out == WrapParagraphs(font, maxWidth, paragraphs[..k])
    {
      var words := SplitSpaces(paragraphs[k]);
      ghost var before := out;
      var line := "";
      for m := 0 to |words|
        invariant out + WrapWords(font, maxWidth, line, words[m..])
               == before + WrapWords(font, maxWidth, "", words)
      {
        var candidate := if line != "" then line + " " + words[m] else words[m];
        assert words[m..][1..] == words[m + 1..];
        if WidthOf(font, candidate) <= maxWidth || line == "" {
          line := candidate;
        } else {
          out := out + [line];
          line := words[m];
        }
      }
      out := out + [line];
      assert paragraphs[..k + 1][..k] == paragraphs[..k];
    }
    assert paragraphs[..|paragraphs|] == paragraphs;
  }

  // ---------- Splits of the words into lines ----------

  function Spaced(group: seq<string>): string { Join(group, " ") }

  function Lines(groups: seq<seq<string>>): seq<string> { Map((g: seq<string>) => Spaced(g), groups) }

  predicate Fits(font: Font, maxWidth: int, group: seq<string>) { WidthOf(font, Spaced(group)) <= maxWidth }

  /** An order-preserving split of the words into non-empty groups. */
  ghost predicate Splits(groups: seq<seq<string>>, words: seq<string>) {
    Flatten(groups) == words && forall i :: 0 <= i < |groups| ==> groups[i] != []
  }

  ghost predicate AllFit(font: Font, maxWidth: int, groups: seq<seq<string>>) {
    forall i :: 0 <= i < |groups| ==> Fits(font, maxWidth, groups[i])
  }

  ghost predicate AllFitOrSingle(font: Font, maxWidth: int, groups: seq<seq<string>>) {
    forall i :: 0 <= i < |groups| ==> Fits(font, maxWidth, groups[i]) || |groups[i]| == 1
  }

  lemma {:induction false} SpacedAppend(group: seq<string>, word: string)
    requires group != []
    ensures Spaced(group + [word]) == Spaced(group) + " " + word
  {
    if |group| == 1 {
      assert group == [group[0]] && group + [word] == [group[0], word];
      assert Spaced([word]) == word && [group[0], word][1..] == [word];
    } else {
      SpacedAppend(group[1..], word);
      assert (group + [word])[1..] == group[1..] + [word];
    }
  }

  /** Appending a word to a line never makes it narrower, and neither does what a line follows. */
  lemma AppendWidens(font: Font, group: seq<string>, word: string)
    requires group != []
    ensures WidthOf(font, Spaced(group + [word])) == WidthOf(font, Spaced(group)) + font(' ') + WidthOf(font, word)
  {
    SpacedAppend(group, word);
    WidthConcat(font, Spaced(group) + " ", word);
    WidthConcat(font, Spaced(group), " ");
    assert WidthOf(font, " ") == font(' ') + WidthOf(font, "");
  }

  lemma {:induction false} PrefixFits(font: Font, maxWidth: int, group: seq<string>, more: seq<string>)
    requires group != [] && Fits(font, maxWidth, group + more)
    ensures Fits(font, maxWidth, group)
    decreases |more|
  {
    if more == [] {
      assert group + more == group;
    } else {
      var n := |more| - 1;
      assert group + more == (group + more[..n]) + [more[n]];
      AppendWidens(font, group + more[..n], more[n]);
      PrefixFits(font, maxWidth, group, more[..n]);
    }
  }

  lemma {:induction false} SuffixFits(font: Font, maxWidth: int, before: seq<string>, group: seq<string>)
    requires group != [] && Fits(font, maxWidth, before + group)
    ensures Fits(font, maxWidth, group)
    decreases |before|
  {
    if before == [] {
      assert before + group == group;
    } else {
      var s := before + group;
      assert s[1..] == before[1..] + group;
      WidthConcat(font, s[0] + " ", Spaced(s[1..]));
      SuffixFits(font, maxWidth, before[1..], group);
    }
  }

  lemma {:induction false} SpacedNonEmpty(group: seq<string>)
    requires group != [] && NonEmptyWords(group)
    ensures Spaced(group) != ""
  {
  }

  /** The groups behind the lines, from an unfinished group and the words still to come. */
  ghost function Greedy(font: Font, maxWidth: int, line: seq<string>, words: seq<string>): (groups: seq<seq<string>>)
    ensures |groups| >= 1
    decreases |words|
  {
    if words == [] then [line]
    else if Fits(font, maxWidth, line + [words[0]]) then Greedy(font, maxWidth, line + [words[0]], words[1..])
    else [line] + Greedy(font, maxWidth, [words[0]], words[1..])
  }

  lemma {:induction false} LinesAreGroups(font: Font, maxWidth: int, line: seq<string>, words: seq<string>)
    requires line != [] && NonEmptyWords(line) && NonEmptyWords(words)
    ensures WrapWords(font, maxWidth, Spaced(line), words) == Lines(Greedy(font, maxWidth, line, words))
    decreases |words|
  {
    if words != [] {
      SpacedNonEmpty(line);
      SpacedAppend(line, words[0]);
      if Fits(font, maxWidth, line + [words[0]]) {
        LinesAreGroups(font, maxWidth, line + [words[0]], words[1..]);
      } else {
        LinesAreGroups(font, maxWidth, [words[0]], words[1..]);
      }
    }
  }

  lemma {:induction false} GreedySplits(font: Font, maxWidth: int, line: seq<string>, words: seq<string>)
    requires line != [] && (Fits(font, maxWidth, line) || |line| == 1)
    ensures Splits(Greedy(font, maxWidth, line, words), line + words)
    ensures AllFitOrSingle(font, maxWidth, Greedy(font, maxWidth, line, words))
    decreases |words|
  {
    if words != [] {
      if Fits(font, maxWidth, line + [words[0]]) {
        GreedySplits(font, maxWidth, line + [words[0]], words[1..]);
        assert line + words == line + [words[0]] + words[1..];
      } else {
        GreedySplits(font, maxWidth, [words[0]], words[1..]);
        assert words == [words[0]] + words[1..];
      }
    } else {
      assert Flatten([line]) == line + [] == line + words;
    }
  }

  /**
   * Greedy stays ahead: while its unfinished line is the end of the rival's unfinished
   * line, it needs no more lines than the rival.
   */
  lemma {:induction false} Ahead(font: Font, maxWidth: int, line: seq<string>, before: seq<string>,
                                 words: seq<string>, rest: seq<string>, groups: seq<seq<string>>)
    requires line != [] && words == rest + Flatten(groups)
    requires Fits(font, maxWidth, before + line + rest)
    requires AllFit(font, maxWidth, groups) && forall i :: 0 <= i < |groups| ==> groups[i] != []
    ensures |Greedy(font, maxWidth, line, words)| <= 1 + |groups|
    decreases |words|
  {
    if rest != [] {
      assert before + line + rest == (before + (line + [rest[0]])) + rest[1..];
      PrefixFits(font, maxWidth, before + (line + [rest[0]]), rest[1..]);
      SuffixFits(font, maxWidth, before, line + [rest[0]]);
      assert words[0] == rest[0] && words[1..] == rest[1..] + Flatten(groups);
      assert before + (line + [rest[0]]) + rest[1..] == before + line + rest;
      Ahead(font, maxWidth, line + [rest[0]], before, words[1..], rest[1..], groups);
    } else if groups != [] {
      NextGroup(words, groups);
      assert rest + Flatten(groups) == Flatten(groups);
      var g := groups[0];
      if Fits(font, maxWidth, line + [words[0]]) {
        assert [words[0]] + g[1..] == g;
        OneBehind(font, maxWidth, line + [words[0]], [words[0]], words[1..], g[1..], groups[1..]);
      } else {
        assert [] + [words[0]] + g[1..] == g;
        Ahead(font, maxWidth, [words[0]], [], words[1..], g[1..], groups[1..]);
      }
    } else {
      assert words == [];
    }
  }

  /** Wherever its unfinished line started, greedy needs at most one line more than a rival in mid-line. */
  lemma {:induction false} OneBehind(font: Font, maxWidth: int, line: seq<string>, rival: seq<string>,
                                     words: seq<string>, rest: seq<string>, groups: seq<seq<string>>)
    requires line != [] && rival != [] && words == rest + Flatten(groups)
    requires Fits(font, maxWidth, rival + rest)
    requires AllFit(font, maxWidth, groups) && forall i :: 0 <= i < |groups| ==> groups[i] != []
    ensures |Greedy(font, maxWidth, line, words)| <= 2 + |groups|
    decreases |words|
  {
    if rest != [] {
      assert words[0] == rest[0] && words[1..] == rest[1..] + Flatten(groups);
      assert rival + rest == (rival + [rest[0]]) + rest[1..];
      if Fits(font, maxWidth, line + [words[0]]) {
        OneBehind(font, maxWidth, line + [words[0]], rival + [rest[0]], words[1..], rest[1..], groups);
      } else {
        Ahead(font, maxWidth, [words[0]], rival, words[1..], rest[1..], groups);
      }
    } else if groups != [] {
      assert rest + Flatten(groups) == Flatten(groups);
      NextGroup(words, groups);
      var g := groups[0];
      if Fits(font, maxWidth, line + [words[0]]) {
        assert [words[0]] + g[1..] == g;
        OneBehind(font, maxWidth, line + [words[0]], [words[0]], words[1..], g[1..], groups[1..]);
      } else {
        assert [] + [words[0]] + g[1..] == g;
        Ahead(font, maxWidth, [words[0]], [], words[1..], g[1..], groups[1..]);
      }
    } else {
      assert words == [];
    }
  }

  lemma NextGroup(words: seq<string>, groups: seq<seq<string>>)
    requires words == Flatten(groups) && groups != [] && groups[0] != []
    ensures words != [] && words[0] == groups[0][0] && words[1..] == groups[0][1..] + Flatten(groups[1..])
  {
  }

  /**
   * Wrapping keeps the words in order; every line fits unless it is a single word; and no
   * other split of the words into lines that fit uses fewer lines.
   */
  lemma WrapSoundAndOptimal(font: Font, maxWidth: int, words: seq<string>) returns (groups: seq<seq<string>>)
    requires words != [] && NonEmptyWords(words)
    ensures WrapWords(font, maxWidth, "", words) == Lines(groups)
    ensures Splits(groups, words) && AllFitOrSingle(font, maxWidth, groups)
    ensures forall others :: Splits(others, words) && AllFit(font, maxWidth, others) ==>
      |WrapWords(font, maxWidth, "", words)| <= |others|
  {
    var first := [words[0]];
    groups := Greedy(font, maxWidth, first, words[1..]);
    LinesAreGroups(font, maxWidth, first, words[1..]);
    assert Spaced(first) == words[0];
    GreedySplits(font, maxWidth, first, words[1..]);
    assert first + words[1..] == words;
    forall others | Splits(others, words) && AllFit(font, maxWidth, others) ensures |groups| <= |others| {
      var g := others[0];
      NextGroup(words, others);
      assert [] + first + g[1..] == g;
      Ahead(font, maxWidth, first, [], words[1..], g[1..], others[1..]);
    }
  }

  /**
   * What one more empty word does to the lines: it stays on the last one as a space if that fits, and
   * is a line of its own if not.
   */
  function WithEmptyWord(font: Font, maxWidth: int, lines: seq<string>): seq<string>
    requires lines != []
  {
    var last := lines[|lines| - 1];
    if WidthOf(font, last + " ") <= maxWidth then lines[..|lines| - 1] + [last + " "] else lines + [""]
  }

  lemma {:induction false} TrailingEmptyWord(font: Font, maxWidth: int, line: string, words: seq<string>)
    requires line != "" && NonEmptyWords(words)
    ensures WrapWords(font, maxWidth, line, words) != []
    ensures WrapWords(font, maxWidth, line, words + [""])
        == WithEmptyWord(font, maxWidth, WrapWords(font, maxWidth, line, words))
    decreases |words|
  {
    if words == [] {
      assert words + [""] == [""];
      assert line + " " + "" == line + " ";
    } else {
      assert (words + [""])[0] == words[0] && (words + [""])[1..] == words[1..] + [""];
      TrailingEmptyWord(font, maxWidth, line + " " + words[0], words[1..]);
      TrailingEmptyWord(font, maxWidth, words[0], words[1..]);
    }
  }

  lemma LeadingEmptyWord(font: Font, maxWidth: int, words: seq<string>)
    ensures WrapWords(font, maxWidth, "", [""] + words) == WrapWords(font, maxWidth, "", words)
  {
    assert ([""] + words)[1..] == words;
  }

  lemma WrapsWithTrailing(font: Font, maxWidth: int, words: seq<string>, trailing: bool)
    requires words != [] && NonEmptyWords(words)
    ensures WrapWords(font, maxWidth, "", words) != []
    ensures WrapWords(font, maxWidth, "", words + EmptyWordIf(trailing))
         == if trailing then WithEmptyWord(font, maxWidth, WrapWords(font, maxWidth, "", words))
            else WrapWords(font, maxWidth, "", words)
  {
    TrailingEmptyWord(font, maxWidth, words[0], words[1..]);
    assert (words + [""])[0] == words[0] && (words + [""])[1..] == words[1..] + [""];
    assert words + [] == words;
  }

  lemma ParagraphIsItsWords(font: Font, maxWidth: int, paragraph: string)
    requires !Blank(paragraph)
    ensures var words := Words(paragraph);
      && words != [] && NonEmptyWords(words) && WrapWords(font, maxWidth, "", words) != []
      && WrapParagraph(font, maxWidth, paragraph)
         == if EndsInSpace(paragraph) then WithEmptyWord(font, maxWidth, WrapWords(font, maxWidth, "", words))
            else WrapWords(font, maxWidth, "", words)
  {
    var words := Words(paragraph);
    WordsBetweenSpaces(paragraph);
    FilterMembers(NonEmpty(), SplitSpaces(paragraph));
    assert forall i :: 0 <= i < |words| ==> words[i] in words;
    var ending := words + EmptyWordIf(EndsInSpace(paragraph));
    WrapsWithTrailing(font, maxWidth, words, EndsInSpace(paragraph));
    LeadingEmptyWord(font, maxWidth, ending);
    assert SplitSpaces(paragraph) == EmptyWordIf(LeadsInSpace(paragraph)) + ending;
    assert [] + ending == ending;
  }

  /**
   * The same for every paragraph with a word in it. White space before the first word is harmless;
   * after the last it costs one empty line exactly when a space no longer fits on the last line.
   */
  lemma ParagraphSoundAndOptimal(font: Font, maxWidth: int, paragraph: string) returns (groups: seq<seq<string>>)
    requires !Blank(paragraph)
    ensures Splits(groups, Words(paragraph)) && AllFitOrSingle(font, maxWidth, groups) && groups != []
    ensures forall others :: Splits(others, Words(paragraph)) && AllFit(font, maxWidth, others) ==> |groups| <= |others|
    ensures var last := Spaced(groups[|groups| - 1]);
      && WrapParagraph(font, maxWidth, paragraph)
         == (if EndsInSpace(paragraph) then WithEmptyWord(font, maxWidth, Lines(groups)) else Lines(groups))
      && |WrapParagraph(font, maxWidth, paragraph)|
         == |groups| + if EndsInSpace(paragraph) && WidthOf(font, last + " ") > maxWidth then 1 else 0
  {
    ParagraphIsItsWords(font, maxWidth, paragraph);
    groups := WrapSoundAndOptimal(font, maxWidth, Words(paragraph));
  }

  /** A paragraph of white space alone is one empty line. */
  lemma BlankParagraph(font: Font, maxWidth: int, paragraph: string)
    requires Blank(paragraph)
    ensures WrapParagraph(font, maxWidth, paragraph) == [""]
  {
    WordsBetweenSpaces(paragraph);
    LeadingEmptyWord(font, maxWidth, [""]);
    LeadingEmptyWord(font, maxWidth, []);
    assert [""] + [""] == ["", ""] && [""] + [] == [""];
  }

  // ---------- Truncation ----------

  const ELLIPSIS := "..."

  /** A text that does not fit is cut to its longest beginning that fits with the ellipsis, one character at least. */
  method Truncate(text: string, font: Font, maxWidth: int) returns (r: string)
    ensures WidthOf(font, text) <= maxWidth ==> r == text
    ensures WidthOf(font, text) > maxWidth ==>
      exists n :: 0 <= n <= |text| && r == text[..n] + "..."
        && (text != "" ==> n >= 1)
        && (n <= 1 || WidthOf(font, r) <= maxWidth)
        && forall m :: n < m <= |text| ==> WidthOf(font, text[..m] + "...") > maxWidth
  {
    if WidthOf(font, text) <= maxWidth {
      return text;
    }
    var cut := text;
    WidthConcat(font, text, ELLIPSIS);
    while |cut| > 1 && WidthOf(font, cut + ELLIPSIS) > maxWidth
      invariant |cut| <= |text| && cut == text[..|cut|] && (text != "" ==> |cut| >= 1)
      invariant forall m :: |cut| < m <= |text| ==> WidthOf(font, text[..m] + ELLIPSIS) > maxWidth
    {
      cut := cut[..|cut| - 1];
    }
    return cut + ELLIPSIS;
  }
}
