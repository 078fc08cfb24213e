/**
 * Invoice numbering by count-then-plus-one, as interleaved steps of concurrent
 * sessions: the count and the commit of the invoice are two separate steps.
 */
module InvoiceNumbers {
  import opened Decimal

  /** One tenant's steps in the order the database sees them. */
  datatype Step = CountInvoices(session: nat) | CommitInvoice(session: nat)

  function Commits(log: seq<Step>): nat {
    if log == [] then 0
    else Commits(log[..|log| - 1]) + if log[|log| - 1].CommitInvoice? then 1 else 0
  }

  /** `INV-`, eight characters of tenant id, year and month. */
  function Head(tenantId: string, yearMonth: string): string {
    "INV-" + (if |tenantId| < 8 then tenantId else tenantId[..8]) + "-" + yearMonth + "-"
  }

  function InvoiceNumber(tenantId: string, yearMonth: string, count: nat): string {
    Head(tenantId, yearMonth) + PadStart(Render(count + 1), 6)
  }

  /** Behind the tenant and the month come at least six digits, which are the count plus one. */
  lemma InvoiceNumberReads(tenantId: string, yearMonth: string, count: nat)
    ensures exists digits ::
      && AllDigits(digits) && |digits| >= 6 && Value(digits) == count + 1
      && InvoiceNumber(tenantId, yearMonth, count)
         == "INV-" + (if |tenantId| <= 8 then tenantId else tenantId[..8]) + "-" + yearMonth + "-" + digits
  {
    PaddedRoundTrip(count + 1, 6);
    var digits := PadStart(Render(count + 1), 6);
    assert InvoiceNumber(tenantId, yearMonth, count) == Head(tenantId, yearMonth) + digits;
    assert |tenantId| == 8 ==> tenantId[..8] == tenantId;
  }

  /** The number drawn by the session that counts at step `i`. */
  function DrawnAt(tenantId: string, yearMonth: string, log: seq<Step>, i: nat): string
    requires i < |log|
  {
    InvoiceNumber(tenantId, yearMonth, Commits(log[..i]))
  }

  lemma PaddedAfterHead(head: string, m: nat, n: nat)
    requires head + PadStart(Render(m), 6) == head + PadStart(Render(n), 6)
    ensures m == n
  {
    var x, y := PadStart(Render(m), 6), PadStart(Render(n), 6);
    assert (head + x)[|head|..] == x && (head + y)[|head|..] == y;
    PaddedRoundTrip(m, 6);
    PaddedRoundTrip(n, 6);
  }

  lemma InvoiceNumberInjective(tenantId: string, yearMonth: string, m: nat, n: nat)
    requires InvoiceNumber(tenantId, yearMonth, m) == InvoiceNumber(tenantId, yearMonth, n)
    ensures m == n
  {
    PaddedAfterHead(Head(tenantId, yearMonth), m + 1, n + 1);
  }

  lemma {:induction false} CommitsGrow(log: seq<Step>, i: nat, j: nat)
    requires i <= j <= |log|
    ensures Commits(log[..i]) <= Commits(log[..j])
    ensures Commits(log[..i]) == Commits(log[..j]) <==> forall k :: i <= k < j ==> !log[k].CommitInvoice?
  {
    if i < j {
      CommitsGrow(log, i, j - 1);
      assert log[..j][..j - 1] == log[..j - 1];
      if Commits(log[..i]) == Commits(log[..j - 1]) && !log[j - 1].CommitInvoice? {
        assert forall k :: i <= k < j ==> !log[k].CommitInvoice?;
      }
    }
  }

  /** Two sessions draw the same number exactly when no invoice commits between their counts. */
  lemma SameNumberIff(tenantId: string, yearMonth: string, log: seq<Step>, i: nat, j: nat)
    requires i < j < |log| && log[i].CountInvoices? && log[j].CountInvoices?
    ensures DrawnAt(tenantId, yearMonth, log, i) == DrawnAt(tenantId, yearMonth, log, j)
       <==> forall k :: i < k < j ==> !log[k].CommitInvoice?
  {
    CommitsGrow(log, i, j);
    if DrawnAt(tenantId, yearMonth, log, i) == DrawnAt(tenantId, yearMonth, log, j) {
      InvoiceNumberInjective(tenantId, yearMonth, Commits(log[..i]), Commits(log[..j]));
    }
  }

  /** The race: both sessions count before either commits, and both commits carry one number. */
  lemma RaceDrawsDuplicate(tenantId: string, yearMonth: string)
    ensures var log := [CountInvoices(0), CountInvoices(1), CommitInvoice(0), CommitInvoice(1)];
      DrawnAt(tenantId, yearMonth, log, 0) == DrawnAt(tenantId, yearMonth, log, 1)
  {
    SameNumberIff(tenantId, yearMonth, [CountInvoices(0), CountInvoices(1), CommitInvoice(0), CommitInvoice(1)], 0, 1);
  }
}
