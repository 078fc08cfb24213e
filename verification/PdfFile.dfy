/**
 * The one-page PDF file: layout of the lines, the objects, and the cross-reference table
 * of section 7.5.4 of ISO 32000-1, with a reader that finds every object through it.
 * A character is a byte: the text is folded to Latin-1 before it is counted.
 */
module PdfFile {
  import opened Common
  import opened Decimal
  import opened PdfForm

  // ---------- Objects in a file ----------

  function ObjectText(number: nat, body: string): string {
    Render(number) + " 0 obj\n" + body + "\nendobj\n"
  }

  /** The header and the first `n` objects. */
  function FileUpTo(header: string, objects: seq<string>, n: nat): string
    requires n <= |objects|
  {
    if n == 0 then header else FileUpTo(header, objects, n - 1) + ObjectText(n, objects[n - 1])
  }

  /** Where object `n`, counted from one, begins. */
  function OffsetOf(header: string, objects: seq<string>, n: nat): nat
    requires 1 <= n <= |objects|
  {
    |FileUpTo(header, objects, n - 1)|
  }

  function Entry(offset: nat): string { PadStart(Render(offset), 10) + IN_USE }

  function Entries(offsets: seq<nat>): string {
    if offsets == [] then "" else Entries(offsets[..|offsets| - 1]) + Entry(offsets[|offsets| - 1])
  }

  const FREE_ENTRY := "0000000000 65535 f \n"

  const TABLE_HEAD := "xref\n0 "
  const IN_USE := " 00000 n \n"

  function Table(offsets: seq<nat>): string {
    TableText(TABLE_HEAD, Render(|offsets| + 1), FREE_ENTRY, Entries(offsets))
  }

  function TableText(head: string, digits: string, free: string, entries: string): string {
    head + digits + "\n" + free + entries
  }

  const TRAILER := ["trailer\n<< /Size ", " /Root ", " 0 R >>\nstartxref\n"]

  function Trailer(size: nat, root: nat): string { Fill(TRAILER, [size, root]) }

  const END_OF_FILE := "\n%%EOF\n"

  function Offsets(header: string, objects: seq<string>): seq<nat> {
    seq(|objects|, i requires 0 <= i < |objects| => OffsetOf(header, objects, i + 1))
  }

  function FileText(header: string, objects: seq<string>, root: nat): string {
    var body := FileUpTo(header, objects, |objects|);
    body + Table(Offsets(header, objects)) + Trailer(|objects| + 1, root) + Render(|body|) + END_OF_FILE
  }

  // ---------- Reading a file ----------

  function StartXref(pdf: string): Option<nat> {
    var n := |pdf| - |END_OF_FILE|;
    if n >= 0 && pdf[n..] == END_OF_FILE then Some(Value(TrailingDigits(pdf[..n]))) else None
  }

  /** The offset in entry `k` of the table at the head of `s`; every entry takes 20 bytes. */
  function ReadEntry(s: string, k: nat): Option<nat> { ReadEntryAs(TABLE_HEAD, IN_USE, s, k) }

  function ReadEntryAs(head: string, inUse: string, s: string, k: nat): Option<nat> {
    if !StartsWith(s, head) then None
    else
      var first := |head| + |LeadingDigits(s[|head|..])| + 1;
      var at := first + 20 * k;
      if at + 20 <= |s| && AllDigits(s[at..at + 10]) && s[at + 10..at + 20] == inUse
      then Some(Value(s[at..at + 10]))
      else None
  }

  /** The file from object `n` on, found through startxref and the table. */
  function FindObject(pdf: string, n: nat): (r: Option<string>)
    ensures r.Some? ==> StartsWith(r.value, Render(n) + " 0 obj\n")
  {
    match StartXref(pdf)
    case None => None
    case Some(x) =>
      if x > |pdf| then None
      else
        match ReadEntry(pdf[x..], n)
        case None => None
        case Some(offset) =>
          if offset <= |pdf| && StartsWith(pdf[offset..], Render(n) + " 0 obj\n") then Some(pdf[offset..]) else None
  }

  /** What object `n` is, from behind its header on. */
  function ObjectAt(pdf: string, n: nat): Option<string> {
    match FindObject(pdf, n)
    case None => None
    case Some(text) => Some(text[|Render(n) + " 0 obj\n"|..])
  }

  /** The size and the root in the trailer, which follows as many entries as the table says it has. */
  function ReadTrailer(pdf: string): Option<(nat, nat)> {
    match StartXref(pdf)
    case None => None
    case Some(x) => if x <= |pdf| then ReadTrailerAfter(TABLE_HEAD, pdf[x..]) else None
  }

  function ReadTrailerAfter(head: string, s: string): Option<(nat, nat)> {
    if !StartsWith(s, head) then None
    else
      var digits := LeadingDigits(s[|head|..]);
      var at := |head| + |digits| + 1 + 20 * Value(digits);
      if at > |s| then None
      else
        match ReadNumbers(TRAILER, s[at..])
        case Some(numbers) => Some((numbers[0], numbers[1]))
        case None => None
  }

  // ---------- Every entry is right ----------

  lemma {:induction false} ObjectLands(header: string, objects: seq<string>, n: nat, m: nat)
    requires 1 <= n <= m <= |objects|
    ensures OffsetOf(header, objects, n) + |ObjectText(n, objects[n - 1])| <= |FileUpTo(header, objects, m)|
    ensures StartsWith(FileUpTo(header, objects, m)[OffsetOf(header, objects, n)..], ObjectText(n, objects[n - 1]))
  {
    var at := OffsetOf(header, objects, n);
    if n < m {
      ObjectLands(header, objects, n, m - 1);
      var shorter := FileUpTo(header, objects, m - 1);
      assert FileUpTo(header, objects, m)[at..][..|shorter| - at] == shorter[at..];
    }
  }

  /** An entry takes 20 bytes exactly when its offset is below ten digits. */
  lemma EntryIsTwentyBytes(offset: nat)
    ensures |Entry(offset)| == 20 <==> offset < 10_000_000_000
  {
    RenderLength(offset, 10);
    assert Pow10(10) == 10_000_000_000;
  }

  lemma EntryParts(offset: nat)
    requires offset < 10_000_000_000
    ensures |Entry(offset)| == 20 && Entry(offset)[10..] == IN_USE
    ensures AllDigits(Entry(offset)[..10]) && Value(Entry(offset)[..10]) == offset
  {
    EntryIsTwentyBytes(offset);
    PaddedRoundTrip(offset, 10);
    assert Entry(offset)[..10] == PadStart(Render(offset), 10);
  }

  lemma {:induction false} EntriesLength(offsets: seq<nat>)
    requires forall i :: 0 <= i < |offsets| ==> offsets[i] < 10_000_000_000
    ensures |Entries(offsets)| == 20 * |offsets|
  {
    if offsets != [] {
      EntriesLength(offsets[..|offsets| - 1]);
      EntryIsTwentyBytes(offsets[|offsets| - 1]);
    }
  }

  lemma {:induction false} EntriesLand(offsets: seq<nat>, k: nat)
    requires k < |offsets| && forall i :: 0 <= i < |offsets| ==> offsets[i] < 10_000_000_000
    ensures |Entries(offsets)| == 20 * |offsets|
    ensures Entries(offsets)[20 * k..20 * k + 20] == Entry(offsets[k])
  {
    var n := |offsets| - 1;
    EntriesLength(offsets);
    EntriesLength(offsets[..n]);
    EntryIsTwentyBytes(offsets[n]);
    AppendBlock(Entries(offsets[..n]), Entry(offsets[n]), k, n);
    if k < n {
      EntriesLand(offsets[..n], k);
    }
  }

  lemma AppendBlock(blocks: string, block: string, k: nat, n: nat)
    requires |blocks| == 20 * n && |block| == 20 && k <= n
    ensures (blocks + block)[20 * k..20 * k + 20] == if k < n then blocks[20 * k..20 * k + 20] else block
  {
  }

  lemma TableReadsBack(offsets: seq<nat>, k: nat, rest: string)
    requires k < |offsets| && forall i :: 0 <= i < |offsets| ==> offsets[i] < 10_000_000_000
    ensures ReadEntry(Table(offsets) + rest, k + 1) == Some(offsets[k])
  {
    EntriesLand(offsets, k);
    EntryParts(offsets[k]);
    ReadThrough(TABLE_HEAD, Render(|offsets| + 1), FREE_ENTRY, IN_USE, Entries(offsets), rest, k);
  }

  /** Where the reader looks for entry `k + 1`, after the free one, is where the writer put it. */
  lemma ReadThrough(head: string, digits: string, free: string, inUse: string, entries: string, rest: string, k: nat)
    requires AllDigits(digits) && |free| == 20 && 20 * k + 20 <= |entries|
    requires var entry := entries[20 * k..20 * k + 20]; AllDigits(entry[..10]) && entry[10..] == inUse
    ensures ReadEntryAs(head, inUse, TableText(head, digits, free, entries) + rest, k + 1)
         == Some(Value(entries[20 * k..20 * k + 20][..10]))
  {
    var s := TableText(head, digits, free, entries) + rest;
    var entry, at := entries[20 * k..20 * k + 20], |head| + |digits| + 1 + 20 * (k + 1);
    SliceAfter(head + digits + "\n" + free, entries, rest, 20 * k);
    assert s[at..at + 10] == entry[..10] && s[at + 10..at + 20] == entry[10..];
    var tail := "\n" + free + entries + rest;
    assert StartsWith(s, head) && s[|head|..] == digits + tail;
    LeadingDigitsAre(digits, tail);
  }

  lemma SliceAfter(before: string, entries: string, rest: string, at: nat)
    requires at + 20 <= |entries|
    ensures (before + entries + rest)[|before| + at..|before| + at + 20] == entries[at..at + 20]
  {
  }

  /** Following startxref and the table finds every object of every file shorter than ten billion bytes. */
  lemma FindsEveryObject(header: string, objects: seq<string>, root: nat, n: nat)
    requires 1 <= n <= |objects| && |FileUpTo(header, objects, |objects|)| < 10_000_000_000
    ensures var pdf := FileText(header, objects, root);
      && StartXref(pdf) == Some(|FileUpTo(header, objects, |objects|)|)
      && FindObject(pdf, n).Some? && StartsWith(FindObject(pdf, n).value, ObjectText(n, objects[n - 1]))
  {
    var body, offsets := FileUpTo(header, objects, |objects|), Offsets(header, objects);
    forall i | 0 <= i < |offsets| ensures offsets[i] < 10_000_000_000 {
      ObjectLands(header, objects, i + 1, |objects|);
    }
    ObjectLands(header, objects, n, |objects|);
    TrailerEndsInNewline(|objects| + 1, root);
    var text, rest := body[offsets[n - 1]..], Table(offsets) + (Trailer(|objects| + 1,
        root) + Render(|body|) + END_OF_FILE);
    FindsWithin(body, Table(offsets), Trailer(|objects| + 1, root), offsets, n - 1);
    FindsAt(FileText(header, objects, root), |body|, offsets[n - 1], n, text, rest, objects[n - 1]);
  }

  /** Every object is found through startxref and the table. */
  ghost predicate AllFound(pdf: string, objects: seq<string>) {
    forall n :: 1 <= n <= |objects| ==>
      FindObject(pdf, n).Some? && StartsWith(FindObject(pdf, n).value, ObjectText(n, objects[n - 1]))
  }

  lemma FindsAll(header: string, objects: seq<string>, root: nat)
    requires |FileUpTo(header, objects, |objects|)| < 10_000_000_000
    ensures AllFound(FileText(header, objects, root), objects)
  {
    var pdf := FileText(header, objects, root);
    forall n | 1 <= n <= |objects|
      ensures FindObject(pdf, n).Some? && StartsWith(FindObject(pdf, n).value, ObjectText(n, objects[n - 1]))
    {
      FindsEveryObject(header, objects, root, n);
    }
  }

  lemma FindsAt(pdf: string, x: nat, offset: nat, n: nat, text: string, rest: string, stored: string)
    requires StartXref(pdf) == Some(x) && x <= |pdf| && ReadEntry(pdf[x..], n) == Some(offset)
    requires offset <= |pdf| && pdf[offset..] == text + rest && StartsWith(text, ObjectText(n, stored))
    ensures FindObject(pdf, n).Some? && StartsWith(FindObject(pdf, n).value, ObjectText(n, stored))
  {
    BeginsWithObject(text, rest, n, stored);
  }

  lemma BeginsWithObject(text: string, rest: string, n: nat, body: string)
    requires StartsWith(text, ObjectText(n, body))
    ensures StartsWith(text + rest, ObjectText(n, body)) && StartsWith(text + rest, Render(n) + " 0 obj\n")
  {
    StartsWithMore(text, rest, ObjectText(n, body));
    ObjectHasHeader(n, body);
    StartsWithPart(text + rest, ObjectText(n, body), Render(n) + " 0 obj\n");
  }

  lemma TrailerEndsInNewline(size: nat, root: nat)
    ensures Trailer(size, root) != "" && !IsDigit(Trailer(size, root)[|Trailer(size, root)| - 1])
  {
    WeaveEnds(TRAILER, Rendered([size, root]));
  }

  lemma TrailerIsForm()
    ensures IsForm(TRAILER)
  {
    assert TRAILER[1][0] == ' ' && TRAILER[2][0] == ' ';
  }

  /** Behind the table, the trailer gives the number of objects and the root. */
  lemma TrailerReadsBack(header: string, objects: seq<string>, root: nat)
    requires |FileUpTo(header, objects, |objects|)| < 10_000_000_000
    ensures ReadTrailer(FileText(header, objects, root)) == Some((|objects| + 1, root))
  {
    var body, offsets := FileUpTo(header, objects, |objects|), Offsets(header, objects);
    forall i | 0 <= i < |offsets| ensures offsets[i] < 10_000_000_000 {
      ObjectLands(header, objects, i + 1, |objects|);
    }
    EntriesLength(offsets);
    TrailerBehind(body, |objects| + 1, Entries(offsets), root);
  }

  lemma TrailerBehind(body: string, size: nat, entries: string, root: nat)
    requires |FREE_ENTRY| + |entries| == 20 * size
    ensures var table := TableText(TABLE_HEAD, Render(size), FREE_ENTRY, entries);
      ReadTrailer(body + table + Trailer(size, root) + Render(|body|) + END_OF_FILE) == Some((size, root))
  {
    var table, trailer := TableText(TABLE_HEAD, Render(size), FREE_ENTRY, entries), Trailer(size, root);
    var rest := trailer + Render(|body|) + END_OF_FILE;
    TrailerEndsInNewline(size, root);
    LastOf(body + table, trailer);
    StartXrefReadsBack(body + table + trailer, |body|);
    Slices(body, table, trailer, Render(|body|), END_OF_FILE, 0);
    AfterTheTable(TABLE_HEAD, size, FREE_ENTRY, entries, rest);
    ThreeTexts(trailer, Render(|body|), END_OF_FILE);
    TrailerIsForm();
    NumbersReadBack(TRAILER, [size, root], Render(|body|) + END_OF_FILE);
  }

  lemma LastOf(a: string, b: string)
    requires b != ""
    ensures a + b != "" && (a + b)[|a + b| - 1] == b[|b| - 1]
  {
  }

  lemma ThreeTexts(a: string, b: string, c: string)
    ensures a + b + c == a + (b + c)
  {
  }

  lemma AfterTheTable(head: string, size: nat, free: string, entries: string, rest: string)
    requires |free| + |entries| == 20 * size
    ensures ReadTrailerAfter(head, TableText(head, Render(size), free, entries) + rest)
         == match ReadNumbers(TRAILER, rest) case Some(numbers) => Some((numbers[0], numbers[1])) case None => None
  {
    var s := TableText(head, Render(size), free, entries) + rest;
    var tail := "\n" + free + entries + rest;
    assert s[..|head|] == head && s[|head|..] == Render(size) + tail;
    LeadingDigitsAre(Render(size), tail);
    RenderRoundTrip(size);
    assert s[|head| + |Render(size)| + 1 + 20 * size..] == rest;
  }

  /** Every object of such a file is there behind its header. */
  lemma ObjectReadsBack(header: string, objects: seq<string>, root: nat, n: nat)
    requires 1 <= n <= |objects| && |FileUpTo(header, objects, |objects|)| < 10_000_000_000
    ensures var r := ObjectAt(FileText(header, objects, root), n);
      r.Some? && StartsWith(r.value, objects[n - 1])
  {
    FindsEveryObject(header, objects, root, n);
    BehindHeader(FindObject(FileText(header, objects, root), n).value, Render(n) + " 0 obj\n", objects[n - 1],
        "\nendobj\n");
  }

  lemma BehindHeader(text: string, head: string, body: string, end: string)
    requires StartsWith(text, head + body + end)
    ensures StartsWith(text[|head|..], body)
  {
    var whole := head + body + end;
    assert text[|head|..][..|body|] == text[..|whole|][|head|..|head| + |body|];
  }

  /** From the end of a file back to its table, and from there to the offset of an object. */
  lemma FindsWithin(body: string, table: string, trailer: string, offsets: seq<nat>, k: nat)
    requires table == Table(offsets) && k < |offsets| && offsets[k] <= |body|
    requires forall i :: 0 <= i < |offsets| ==> offsets[i] < 10_000_000_000
    requires trailer != "" && !IsDigit(trailer[|trailer| - 1])
    ensures var pdf := body + table + trailer + Render(|body|) + END_OF_FILE;
      && StartXref(pdf) == Some(|body|) && |body| <= |pdf|
      && ReadEntry(pdf[|body|..], k + 1) == Some(offsets[k])
      && pdf[offsets[k]..] == body[offsets[k]..] + (table + (trailer + Render(|body|) + END_OF_FILE))
  {
    StartXrefReadsBack(body + table + trailer, |body|);
    Slices(body, table, trailer, Render(|body|), END_OF_FILE, offsets[k]);
    TableReadsBack(offsets, k, trailer + Render(|body|) + END_OF_FILE);
  }

  lemma Slices(body: string, table: string, trailer: string, digits: string, end: string, at: nat)
    requires at <= |body|
    ensures var pdf := body + table + trailer + digits + end;
      && pdf[|body|..] == table + (trailer + digits + end)
      && pdf[at..] == body[at..] + (table + (trailer + digits + end))
  {
  }

  lemma StartXrefReadsBack(head: string, x: nat)
    requires head != "" && !IsDigit(head[|head| - 1])
    ensures StartXref(head + Render(x) + END_OF_FILE) == Some(x)
  {
    var pdf := head + Render(x) + END_OF_FILE;
    var n := |pdf| - |END_OF_FILE|;
    assert pdf[..n] == head + Render(x) && pdf[n..] == END_OF_FILE;
    TrailingDigitsAre(head, Render(x));
    RenderRoundTrip(x);
  }

  lemma ObjectHasHeader(n: nat, body: string)
    ensures StartsWith(ObjectText(n, body), Render(n) + " 0 obj\n")
  {
    assert ObjectText(n, body) == (Render(n) + " 0 obj\n") + (body + "\nendobj\n");
  }
}
