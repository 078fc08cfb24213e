/**
 * One subscription's credit ledger, usage and invoices. Amounts are exact reals; the
 * ledger is kept in the order of `createdAt`, which the balance query sorts by.
 */
module Billing {
  import opened Common

  datatype CreditKind = Purchase | Usage

  datatype CreditRow = CreditRow(kind: CreditKind, amount: real, balance: real, description: string)

  datatype UsageRecord = UsageRecord(id: nat, amount: real, timestamp: int, invoiced: bool, invoiceId: Option<nat>)

  datatype Item = BaseItem(amount: real) | MeteredItem(amount: real, usageRecordId: nat)

  datatype Invoice = Invoice(
    id: nat,
    items: seq<Item>,
    subtotal: real,
    taxAmount: real,
    total: real,
    creditApplied: real,
    amountDue: real)

  /** Rates in percent; either may be absent. */
  datatype TaxConfig = TaxConfig(taxable: bool, vatRate: real, gstRate: real)

  datatype Plan = Plan(basePrice: real, tax: TaxConfig)

  datatype BillingError = InsufficientCredit | NotActive

  // ---------- Sums ----------

  function SumAmounts(ledger: seq<CreditRow>): real {
    if ledger == [] then 0.0 else SumAmounts(ledger[..|ledger| - 1]) + ledger[|ledger| - 1].amount
  }

  function SumItems(items: seq<Item>): real {
    if items == [] then 0.0 else SumItems(items[..|items| - 1]) + items[|items| - 1].amount
  }

  lemma SumAmountsAppend(ledger: seq<CreditRow>, row: CreditRow)
    ensures SumAmounts(ledger + [row]) == SumAmounts(ledger) + row.amount
  {
    assert (ledger + [row])[..|ledger|] == ledger;
  }

  lemma SumItemsAppend(items: seq<Item>, item: Item)
    ensures SumItems(items + [item]) == SumItems(items) + item.amount
  {
    assert (items + [item])[..|items|] == items;
  }

  function Balance(ledger: seq<CreditRow>): real {
    if ledger == [] then 0.0 else ledger[|ledger| - 1].balance
  }

  /** VAT and GST are each charged on the whole subtotal. */
  function Tax(subtotal: real, config: TaxConfig): real {
    if !config.taxable then 0.0 else subtotal * (config.vatRate / 100.0) + subtotal * (config.gstRate / 100.0)
  }

  // ---------- What holds at all times ----------

  /** Every row's balance is the sum of the amounts up to it, and is never negative. */
  ghost predicate LedgerBalanced(ledger: seq<CreditRow>) {
    forall i :: 0 <= i < |ledger| ==> ledger[i].balance == SumAmounts(ledger[..i + 1]) && ledger[i].balance >= 0.0
  }

  /** The identities of one invoice. */
  ghost predicate InvoiceAdds(invoice: Invoice) {
    && invoice.total == invoice.subtotal + invoice.taxAmount
    && invoice.amountDue + invoice.creditApplied == invoice.total
    && SumItems(invoice.items) == invoice.subtotal
  }

  /** The usage records an invoice bills, one metered item each. */
  function Billed(invoice: Invoice): seq<nat> { BilledBy(invoice.items) }

  function BilledBy(items: seq<Item>): seq<nat> {
    if items == [] then []
    else
      BilledBy(items[..|items| - 1])
      + match items[|items| - 1] case MeteredItem(_, id) => [id] case BaseItem(_) => []
  }

  ghost predicate UsageIds(usage: seq<UsageRecord>) {
    forall i :: 0 <= i < |usage| ==> usage[i].id == i
  }

  ghost predicate BilledTo(usage: seq<UsageRecord>, u: nat, k: nat) { u < |usage| && usage[u].invoiceId == Some(k) }

  /** A usage record carries the invoice that bills it, if any; so no record is on two invoices, or twice on one. */
  ghost predicate BilledOnce(usage: seq<UsageRecord>, invoices: seq<Invoice>) {
    && UsageIds(usage)
    && (forall u: nat :: u < |usage| ==> (usage[u].invoiced <==> usage[u].invoiceId.Some?))
    && (forall u: nat :: u < |usage| && usage[u].invoiced ==>
          usage[u].invoiceId.value < |invoices| && u in Billed(invoices[usage[u].invoiceId.value]))
    && (forall k: nat, u: nat :: k < |invoices| && u in Billed(invoices[k]) ==>
          BilledTo(usage, u, k))
    && (forall k :: 0 <= k < |invoices| ==> Distinct(Billed(invoices[k])))
  }

  ghost predicate Distinct(ids: seq<nat>) {
    forall i, j :: 0 <= i < j < |ids| ==> ids[i] != ids[j]
  }

  /** What that is for: no usage record is on two invoices. */
  lemma UsageOnOneInvoice(usage: seq<UsageRecord>, invoices: seq<Invoice>, u: nat, j: nat, k: nat)
    requires BilledOnce(usage, invoices)
    requires j < |invoices| && k < |invoices| && u in Billed(invoices[j]) && u in Billed(invoices[k])
    ensures j == k
  {
    assert BilledTo(usage, u, j) && BilledTo(usage, u, k);
  }

  /** Item by item: two items that bill one usage record are the same item of the same invoice. */
  lemma UsageOnOneItem(usage: seq<UsageRecord>, invoices: seq<Invoice>, j: nat, a: nat, k: nat, b: nat)
    requires BilledOnce(usage, invoices) && j < |invoices| && k < |invoices|
    requires a < |invoices[j].items| && b < |invoices[k].items|
    requires invoices[j].items[a].MeteredItem? && invoices[k].items[b].MeteredItem?
    requires invoices[j].items[a].usageRecordId == invoices[k].items[b].usageRecordId
    ensures j == k && a == b
  {
    ItemIsBilled(invoices[j].items, a);
    ItemIsBilled(invoices[k].items, b);
    UsageOnOneInvoice(usage, invoices, invoices[j].items[a].usageRecordId, j, k);
    if a < b {
      DistinctItems(invoices[j].items, a, b);
    } else if b < a {
      DistinctItems(invoices[j].items, b, a);
    }
  }

  lemma {:induction false} ItemIsBilled(items: seq<Item>, a: nat)
    requires a < |items| && items[a].MeteredItem?
    ensures items[a].usageRecordId in BilledBy(items)
  {
    var n := |items| - 1;
    if a < n { ItemIsBilled(items[..n], a); }
  }

  lemma {:induction false} DistinctItems(items: seq<Item>, a: nat, b: nat)
    requires Distinct(BilledBy(items)) && a < b < |items| && items[a].MeteredItem? && items[b].MeteredItem?
    ensures items[a].usageRecordId != items[b].usageRecordId
  {
    var n := |items| - 1;
    var before := BilledBy(items[..n]);
    ItemIsBilled(items[..n], a);
    if b == n {
      assert BilledBy(items) == before + [items[b].usageRecordId];
      var i :| 0 <= i < |before| && before[i] == items[a].usageRecordId;
      assert BilledBy(items)[i] != BilledBy(items)[|before|];
    } else {
      assert before <= BilledBy(items);
      assert forall i :: 0 <= i < |before| ==> before[i] == BilledBy(items)[i];
      DistinctItems(items[..n], a, b);
    }
  }

  lemma {:induction false} BalanceIsSum(ledger: seq<CreditRow>)
    requires LedgerBalanced(ledger)
    ensures Balance(ledger) == SumAmounts(ledger) && Balance(ledger) >= 0.0
  {
    if ledger != [] { assert ledger[..|ledger|] == ledger; }
  }

  lemma LedgerAppend(ledger: seq<CreditRow>, row: CreditRow)
    requires LedgerBalanced(ledger) && row.balance == Balance(ledger) + row.amount && row.balance >= 0.0
    ensures LedgerBalanced(ledger + [row])
  {
    BalanceIsSum(ledger);
    SumAmountsAppend(ledger, row);
    var longer := ledger + [row];
    forall i | 0 <= i < |longer| ensures longer[i].balance == SumAmounts(longer[..i + 1]) && longer[i].balance >= 0.0 {
      if i < |ledger| {
        assert longer[..i + 1] == ledger[..i + 1];
      } else {
        assert longer[..i + 1] == longer;
      }
    }
  }

  predicate InPeriod(u: UsageRecord, start: int, end: int) { start <= u.timestamp <= end && !u.invoiced }

  /** The items of an invoice: the base price, then one for each open usage record of the period among the first `n`. */
  function ItemsFor(plan: Plan, usage: seq<UsageRecord>, start: int, end: int, n: nat): seq<Item>
    requires n <= |usage|
  {
    if n == 0 then [BaseItem(plan.basePrice)]
    else
      var before := ItemsFor(plan, usage, start, end, n - 1);
      if InPeriod(usage[n - 1], start, end) then before + [MeteredItem(usage[n - 1].amount, usage[n - 1].id)]
          else before
  }

  function MarkedUpTo(usage: seq<UsageRecord>, start: int, end: int, invoiceId: nat, n: nat): (r: seq<UsageRecord>)
    requires n <= |usage|
    ensures |r| == |usage|
    ensures forall i :: 0 <= i < |r| ==>
      r[i] == if i < n && InPeriod(usage[i], start, end) then usage[i].(invoiced := true,
          invoiceId := Some(invoiceId)) else usage[i]
  {
    if n == 0 then usage
    else
      var before := MarkedUpTo(usage, start, end, invoiceId, n - 1);
      if InPeriod(usage[n - 1], start, end)
      then before[n - 1 := usage[n - 1].(invoiced := true, invoiceId := Some(invoiceId))] else before
  }

  lemma {:induction false} BilledAre(plan: Plan, usage: seq<UsageRecord>, start: int, end: int, n: nat)
    requires n <= |usage| && UsageIds(usage)
    ensures forall u: nat ::
      u in BilledBy(ItemsFor(plan, usage, start, end, n)) <==> u < n && InPeriod(usage[u], start, end)
    ensures Distinct(BilledBy(ItemsFor(plan, usage, start, end, n)))
  {
    var items := ItemsFor(plan, usage, start, end, n);
    if n == 0 {
      assert items[..0] == [];
    } else {
      BilledAre(plan, usage, start, end, n - 1);
      var before := ItemsFor(plan, usage, start, end, n - 1);
      if InPeriod(usage[n - 1], start, end) {
        assert items[..|before|] == before;
        assert BilledBy(items) == BilledBy(before) + [n - 1];
        forall i | 0 <= i < |BilledBy(before)| ensures BilledBy(before)[i] != n - 1 {
          assert BilledBy(before)[i] in BilledBy(before);
        }
      }
    }
  }

  // ---------- What an invoice charges ----------

  /** What the first `n` records come to that are in the period and on no invoice yet. */
  function OpenAmount(usage: seq<UsageRecord>, start: int, end: int, n: nat): real
    requires n <= |usage|
  {
    if n == 0 then 0.0
    else
      var u := usage[n - 1];
      OpenAmount(usage, start, end, n - 1)
      + if start <= u.timestamp && u.timestamp <= end && !u.invoiced then u.amount else 0.0
  }

  /** An item for an open record of the period, with the amount of that record. */
  ghost predicate ChargesRecord(item: Item, usage: seq<UsageRecord>, start: int, end: int) {
    && item.MeteredItem? && item.usageRecordId < |usage| && item.amount == usage[item.usageRecordId].amount
    && start <= usage[item.usageRecordId].timestamp <= end && !usage[item.usageRecordId].invoiced
  }

  /** The base price first, and then an item for each open record among the first `n`. */
  ghost predicate Charges(items: seq<Item>, basePrice: real, usage: seq<UsageRecord>, start: int, end: int, n: nat)
    requires n <= |usage|
  {
    && items != [] && items[0] == BaseItem(basePrice)
    && (forall i :: 1 <= i < |items| ==> ChargesRecord(items[i], usage, start, end))
    && (forall u: nat :: u < n && start <= usage[u].timestamp <= end && !usage[u].invoiced ==>
          MeteredItem(usage[u].amount, u) in items)
  }

  lemma {:induction false} ItemsCharge(plan: Plan, usage: seq<UsageRecord>, start: int, end: int, n: nat)
    requires n <= |usage| && UsageIds(usage)
    ensures Charges(ItemsFor(plan, usage, start, end, n), plan.basePrice, usage, start, end, n)
  {
    if n > 0 {
      ItemsCharge(plan, usage, start, end, n - 1);
    }
  }

  lemma {:induction false} ItemsSum(plan: Plan, usage: seq<UsageRecord>, start: int, end: int, n: nat)
    requires n <= |usage|
    ensures SumItems(ItemsFor(plan, usage, start, end, n)) == plan.basePrice + OpenAmount(usage, start, end, n)
  {
    if n == 0 {
      assert ItemsFor(plan, usage, start, end, n)[..0] == [];
    } else {
      ItemsSum(plan, usage, start, end, n - 1);
      SumItemsAppend(ItemsFor(plan, usage, start, end, n - 1), MeteredItem(usage[n - 1].amount, usage[n - 1].id));
    }
  }

  /** An invoice in terms of the usage it bills and the tax rates. */
  ghost predicate IsInvoiceFor(invoice: Invoice, plan: Plan, usage: seq<UsageRecord>, start: int, end: int) {
    && Charges(invoice.items, plan.basePrice, usage, start, end, |usage|)
    && invoice.subtotal == plan.basePrice + OpenAmount(usage, start, end, |usage|)
    && invoice.taxAmount == (if !plan.tax.taxable then 0.0
                             else invoice.subtotal * (plan.tax.vatRate / 100.0)
                                  + invoice.subtotal * (plan.tax.gstRate / 100.0))
    && invoice.total == invoice.subtotal + invoice.taxAmount
    && invoice.amountDue == invoice.total - invoice.creditApplied
  }

  lemma ComposedIsInvoice(invoice: Invoice, plan: Plan, usage: seq<UsageRecord>, start: int, end: int)
    requires UsageIds(usage) && InvoiceAdds(invoice)
    requires invoice.items == ItemsFor(plan, usage, start, end, |usage|)
    requires invoice.taxAmount == Tax(invoice.subtotal, plan.tax)
    ensures IsInvoiceFor(invoice, plan, usage, start, end)
  {
    ItemsCharge(plan, usage, start, end, |usage|);
    ItemsSum(plan, usage, start, end, |usage|);
  }

  // ---------- The service ----------

  class BillingAccount {
    const plan: Plan
    var ledger: seq<CreditRow>
    var usage: seq<UsageRecord>
    var invoices: seq<Invoice>

    ghost predicate Valid()
      reads this
    {
      && plan.basePrice >= 0.0 && plan.tax.vatRate >= 0.0 && plan.tax.gstRate >= 0.0
      && LedgerBalanced(ledger)
      && (forall i :: 0 <= i < |usage| ==> usage[i].amount >= 0.0)
      && (forall k :: 0 <= k < |invoices| ==> InvoiceAdds(invoices[k]) && invoices[k].id == k)
      && BilledOnce(usage, invoices)
    }

    constructor (plan: Plan)
      requires plan.basePrice >= 0.0 && plan.tax.vatRate >= 0.0 && plan.tax.gstRate >= 0.0
      ensures Valid() && this.plan == plan && ledger == [] && usage == [] && invoices == []
    {
      this.plan := plan;
      ledger, usage, invoices := [], [], [];
    }

    function GetCreditBalance(): real
      reads this
    {
      Balance(ledger)
    }

    /** A top-up; the balance afterwards is the balance before and the amount. */
    method AddCredits(amount: real, description: string) returns (row: CreditRow)
      requires Valid() && amount >= 0.0
      modifies this`ledger
      ensures Valid() && ledger == old(ledger) + [row]
      ensures row.amount == amount && row.balance == old(GetCreditBalance()) + amount && row.kind == Purchase
    {
      var currentBalance := GetCreditBalance();
      row := CreditRow(Purchase, amount, currentBalance + amount, description);
      BalanceIsSum(ledger);
      LedgerAppend(ledger, row);
      ledger := ledger + [row];
    }

    method DeductCredits(amount: real, description: string) returns (r: Result<CreditRow, BillingError>)
      requires Valid()
      modifies this`ledger
      ensures Valid()
      ensures r.Err? <==> old(GetCreditBalance()) < amount
      ensures r.Err? ==> r.error == InsufficientCredit && ledger == old(ledger)
      ensures r.Ok? ==>
        && ledger == old(ledger) + [r.value] && r.value.kind == Usage
        && r.value.amount == -amount && r.value.balance == old(GetCreditBalance()) - amount
    {
      var currentBalance := GetCreditBalance();
      if currentBalance < amount {
        return Err(InsufficientCredit);
      }
      var row := CreditRow(Usage, -amount, currentBalance - amount, description);
      LedgerAppend(ledger, row);
      ledger := ledger + [row];
      return Ok(row);
    }

    /** The usage row is written before the credits are tried, so a refusal for want of credit leaves it there. */
    method RecordUsage(active: bool, quantity: real, unitPrice: real,
                       timestamp: int) returns (r: Result<UsageRecord, BillingError>)
      requires Valid() && quantity >= 0.0 && unitPrice >= 0.0 && quantity * unitPrice >= 0.0
      modifies this`ledger, this`usage
      ensures Valid()
      ensures !active ==> r == Err(NotActive) && usage == old(usage) && ledger == old(ledger)
      ensures active ==> usage == old(usage) + [UsageRecord(|old(usage)|, quantity * unitPrice, timestamp, false, None)]
      ensures active ==>
        var amount, balance := quantity * unitPrice, old(GetCreditBalance());
        && (r.Ok? <==> balance == 0.0 || amount == 0.0 || amount <= balance)
        && GetCreditBalance() == if balance > 0.0 && amount > 0.0 && amount <= balance then balance - amount
            else balance
    {
      if !active {
        return Err(NotActive);
      }
      BalanceIsSum(ledger);
      var creditBalance := GetCreditBalance();
      var amount := quantity * unitPrice;
      var record := UsageRecord(|usage|, amount, timestamp, false, None);
      NewUsageUnbilled(usage, invoices, record);
      usage := usage + [record];
      if creditBalance > 0.0 && amount > 0.0 {
        var deducted := DeductCredits(amount, "Usage record");
        if deducted.Err? {
          return Err(deducted.error);
        }
      }
      return Ok(record);
    }

    /** Bills every open usage record of the period, once, and applies what credit there is. */
    method GenerateInvoice(start: int, end: int) returns (invoice: Invoice)
      requires Valid()
      modifies this`ledger, this`usage, this`invoices
      ensures Valid()
      ensures invoices == old(invoices) + [invoice]
      ensures IsInvoiceFor(invoice, plan, old(usage), start, end)
      ensures invoice.items == ItemsFor(plan, old(usage), start, end, |old(usage)|)
      ensures forall u: nat :: u in Billed(invoice) <==>
        u < |old(usage)| && start <= old(usage)[u].timestamp <= end && !old(usage)[u].invoiced
      ensures |usage| == |old(usage)| && forall u :: 0 <= u < |usage| ==>
        usage[u] == if start <= old(usage)[u].timestamp <= end && !old(usage)[u].invoiced
                    then old(usage)[u].(invoiced := true, invoiceId := Some(invoice.id)) else old(usage)[u]
      ensures 0.0 <= invoice.creditApplied <= old(GetCreditBalance()) && invoice.creditApplied <= invoice.total
      ensures invoice.creditApplied == old(GetCreditBalance()) || invoice.amountDue == 0.0
      ensures GetCreditBalance() == old(GetCreditBalance()) - invoice.creditApplied
    {
      ghost var usage0 := usage;
      invoice := ComposeInvoice(start, end);
      ComposedIsInvoice(invoice, plan, usage0, start, end);
      BilledAre(plan, usage0, start, end, |usage0|);
      InvoiceBilledOnce(usage0, invoices, usage, invoice, start, end);
      invoices := invoices + [invoice];
      ApplyCredit(invoice.creditApplied);
    }

    /** Marks the usage of the period and totals it up; the invoice is not stored yet, and no credit is taken. */
    method ComposeInvoice(start: int, end: int) returns (invoice: Invoice)
      requires Valid()
      modifies this`usage
      ensures invoice.id == |invoices| && InvoiceAdds(invoice)
      ensures invoice.items == ItemsFor(plan, old(usage), start, end, |old(usage)|)
      ensures invoice.taxAmount == Tax(invoice.subtotal, plan.tax)
      ensures usage == MarkedUpTo(old(usage), start, end, invoice.id, |old(usage)|)
      ensures 0.0 <= invoice.creditApplied <= GetCreditBalance() && invoice.creditApplied <= invoice.total
      ensures invoice.creditApplied == GetCreditBalance() || invoice.amountDue == 0.0
    {
      var invoiceId := |invoices|;
      var subtotal := plan.basePrice;
      var items, usageTotal := BillUsage(start, end, invoiceId);
      var taxAmount := Tax(subtotal + usageTotal, plan.tax);
      TaxNonNegative(subtotal + usageTotal, plan.tax);
      BalanceIsSum(ledger);
      var total := subtotal + usageTotal + taxAmount;
      var creditBalance := GetCreditBalance();
      var creditApplied := if creditBalance <= total then creditBalance else total;
      invoice := Invoice(invoiceId, items, subtotal + usageTotal, taxAmount, total, creditApplied,
                         total - creditApplied);
    }

    method ApplyCredit(creditApplied: real)
      requires Valid() && 0.0 <= creditApplied <= GetCreditBalance()
      modifies this`ledger
      ensures Valid() && GetCreditBalance() == old(GetCreditBalance()) - creditApplied
    {
      if creditApplied > 0.0 {
        var deducted := DeductCredits(creditApplied, "Invoice");
        assert deducted.Ok?;
      }
    }

    /** Adds an item for every open usage record of the period and marks the record with the invoice. */
    method BillUsage(start: int, end: int, invoiceId: nat) returns (items: seq<Item>, usageTotal: real)
      requires forall i :: 0 <= i < |usage| ==> usage[i].amount >= 0.0
      modifies this`usage
      ensures usage == MarkedUpTo(old(usage), start, end, invoiceId, |old(usage)|)
      ensures items == ItemsFor(plan, old(usage), start, end, |old(usage)|)
      ensures SumItems(items) == plan.basePrice + usageTotal && usageTotal >= 0.0
    {
      ghost var usage0 := usage;
      usageTotal := 0.0;
      items := [BaseItem(plan.basePrice)];
      SumItemsAppend([], items[0]);
      assert [] + [items[0]] == items;
      for k := 0 to |usage|
        invariant |usage| == |usage0| && usage == MarkedUpTo(usage0, start, end, invoiceId, k)
        invariant items == ItemsFor(plan, usage0, start, end, k)
        invariant SumItems(items) == plan.basePrice + usageTotal && usageTotal >= 0.0
      {
        var record := usage[k];
        assert record == usage0[k];
        if start <= record.timestamp <= end && !record.invoiced {
          usageTotal := usageTotal + record.amount;
          SumItemsAppend(items, MeteredItem(record.amount, record.id));
          items := items + [MeteredItem(record.amount, record.id)];
          usage := usage[k := record.(invoiced := true, invoiceId := Some(invoiceId))];
        }
      }
    }
  }

  lemma TaxNonNegative(subtotal: real, config: TaxConfig)
    requires subtotal >= 0.0 && config.vatRate >= 0.0 && config.gstRate >= 0.0
    ensures Tax(subtotal, config) >= 0.0
  {
    var vat, gst := config.vatRate / 100.0, config.gstRate / 100.0;
    assert vat >= 0.0 && gst >= 0.0;
    assert subtotal * vat >= 0.0 && subtotal * gst >= 0.0;
  }

  lemma NewUsageUnbilled(usage: seq<UsageRecord>, invoices: seq<Invoice>, record: UsageRecord)
    requires BilledOnce(usage, invoices) && record.id == |usage| && !record.invoiced && record.invoiceId.None?
    ensures BilledOnce(usage + [record], invoices)
  {
    forall k: nat, u: nat | k < |invoices| && u in Billed(invoices[k]) ensures BilledTo(usage + [record], u, k) {
      assert BilledTo(usage, u, k);
    }
  }

  lemma InvoiceBilledOnce(before: seq<UsageRecord>, invoices: seq<Invoice>, after: seq<UsageRecord>,
                          invoice: Invoice, start: int, end: int)
    requires BilledOnce(before, invoices)
    requires invoice.id == |invoices| && after == MarkedUpTo(before, start, end, invoice.id, |before|)
    requires forall u: nat :: u in Billed(invoice) <==> u < |before| && InPeriod(before[u], start, end)
    requires Distinct(Billed(invoice))
    ensures BilledOnce(after, invoices + [invoice])
  {
    var more := invoices + [invoice];
    forall k: nat, u: nat | k < |more| && u in Billed(more[k]) ensures BilledTo(after, u, k) {
      if k < |invoices| {
        assert u in Billed(invoices[k]) && BilledTo(before, u, k);
      }
    }
    forall u: nat | u < |after| && after[u].invoiced
      ensures after[u].invoiceId.value < |more| && u in Billed(more[after[u].invoiceId.value])
    {
      if before[u].invoiced { assert more[before[u].invoiceId.value] == invoices[before[u].invoiceId.value]; }
    }
  }

  /** Usage that credits have paid for is on the next invoice all the same: deducting it does not settle it. */
  method PaidUsageIsBilledAgain(account: BillingAccount, quantity: real, unitPrice: real, timestamp: int,
                                start: int, end: int)
    returns (record: UsageRecord, deducted: real, invoice: Invoice)
    requires account.Valid() && quantity >= 0.0 && unitPrice >= 0.0
    requires 0.0 < quantity * unitPrice <= account.GetCreditBalance() && start <= timestamp <= end
    modifies account
    ensures deducted == record.amount == quantity * unitPrice
    ensures record.id in Billed(invoice)
  {
    var before := account.GetCreditBalance();
    var used := account.RecordUsage(true, quantity, unitPrice, timestamp);
    deducted := before - account.GetCreditBalance();
    record := account.usage[|account.usage| - 1];
    invoice := account.GenerateInvoice(start, end);
  }
}
