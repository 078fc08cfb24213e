/** A row of the payments table, as fee expansion, manual entry and settlement share it. */
module PaymentRows {
  import opened Common

  datatype Status = Pending | Paid | Failed | Refunded | Cancelled

  datatype Direction = Inbound | Outbound

  datatype FeeKind = Government | Firm | Disbursement

  /** Rows are numbered by their place in the table. */
  datatype Payment = Payment(
    entityId: Option<string>,
    clientId: Option<string>,
    payee: Option<string>,
    direction: Direction,
    amountMinor: int,
    currency: string,
    status: Status,
    paidAt: Option<int>,
    reference: Option<string>,
    dueDate: Option<int>,
    feeKind: Option<FeeKind>,
    feeKey: Option<string>,
    planKey: Option<string>,
    atStep: Option<string>)

  function UpperChar(c: char): char { if 'a' <= c <= 'z' then ((c as int) - 32) as char else c }

  function Upper(s: string): string { Map(UpperChar, s) }

  /** Letters become capitals, each the one of its place in the alphabet, and nothing else changes. */
  lemma UpperMeans(s: string, i: nat)
    requires i < |s|
    ensures |Upper(s)| == |s| && !('a' <= Upper(s)[i] <= 'z')
    ensures 'a' <= s[i] <= 'z' ==> 'A' <= Upper(s)[i] <= 'Z' && Upper(s)[i] - 'A' == s[i] - 'a'
    ensures !('a' <= s[i] <= 'z') ==> Upper(s)[i] == s[i]
  {
  }
}
