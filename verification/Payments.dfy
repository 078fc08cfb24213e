/**
 * The payment ledger: creating and settling rows, the totals of the summary, and the
 * arrears that hold a workflow step.
 */
module Payments {
  import opened Common
  import opened PaymentRows

  datatype Error = ClientRequired | PayeeRequired | ClientRefused | NotFound | NotAllowed(from: Status, to: Status)

  /** What a caller may enter by hand: no fee of the schedule, no plan and no step. */
  datatype Draft = Draft(
    entityId: Option<string>,
    clientId: Option<string>,
    payee: Option<string>,
    direction: Option<Direction>,
    amountMinor: int,
    currency: string,
    reference: Option<string>,
    dueDate: Option<int>,
    feeKind: Option<FeeKind>)
  {
    function Direction(): Direction { if direction.Some? then direction.value else Inbound }
  }

  function Entered(draft: Draft, clientId: Option<string>): Payment {
    Payment(draft.entityId, clientId, draft.payee, draft.Direction(), draft.amountMinor, Upper(draft.currency),
        Pending, None,
            draft.reference, draft.dueDate, draft.feeKind, None, None, None)
  }

  predicate Allowed(from: Status, to: Status) {
    match from
    case Pending => to == Paid || to == Failed || to == Cancelled
    case Failed => to == Paid || to == Pending || to == Cancelled
    case Paid => to == Refunded
    case Refunded => false
    case Cancelled => false
  }

  // ---------- Settling as a function ----------

  datatype Settlement = Settlement(id: nat, status: Status, now: int, reference: Option<string>)

  predicate Accepted(rows: seq<Payment>, s: Settlement) {
    s.id < |rows| && Allowed(rows[s.id].status, s.status)
  }

  function SettledRow(p: Payment, s: Settlement): Payment {
    p.(status := s.status,
       paidAt := if s.status == Paid && p.paidAt.None? then Some(s.now) else p.paidAt,
       reference := if s.reference.Some? then s.reference else p.reference)
  }

  function AfterSettle(rows: seq<Payment>, s: Settlement): seq<Payment> {
    if Accepted(rows, s) then rows[s.id := SettledRow(rows[s.id], s)] else rows
  }

  function AfterSettles(rows: seq<Payment>, run: seq<Settlement>): seq<Payment>
    decreases |run|
  {
    if run == [] then rows else AfterSettles(AfterSettle(rows, run[0]), run[1..])
  }

  predicate WasPaid(status: Status) { status == Paid || status == Refunded }

  /** A settlement time is there exactly for what was paid, refunded since or not. */
  ghost predicate PaidAtRight(rows: seq<Payment>) {
    forall i :: 0 <= i < |rows| ==> (rows[i].paidAt.Some? <==> WasPaid(rows[i].status))
  }

  class PaymentsService {
    var rows: seq<Payment>

    constructor ()
      ensures rows == [] && PaidAtRight(rows)
    {
      rows := [];
    }

    /** An inbound row needs somebody who owes it, an outbound row somebody who was paid. */
    method Create(draft: Draft, client: Result<Option<string>, Error>) returns (r: Result<nat, Error>)
      modifies this
      ensures r.Err? <==>
        || (draft.Direction() == Inbound && draft.clientId.None?)
        || (draft.Direction() == Outbound && draft.payee.None?)
        || (draft.clientId.Some? && client.Err?)
      ensures r.Err? ==> rows == old(rows)
      ensures r.Ok? ==>
        && r.value == |old(rows)|
        && rows == old(rows) + [Entered(draft, if draft.clientId.Some? then client.value else None)]
      ensures r.Ok? ==>
        && |rows| == |old(rows)| + 1
        && var p := rows[r.value];
           && p.status == Pending && p.paidAt.None? && p.amountMinor == draft.amountMinor
           && p.direction == (if draft.direction == Some(Outbound) then Outbound else Inbound)
           && p.currency == Upper(draft.currency)
           && p.clientId == (if draft.clientId.Some? && client.Ok? then client.value else None)
           && p.entityId == draft.entityId && p.payee == draft.payee && p.reference == draft.reference
           && p.dueDate == draft.dueDate && p.feeKind == draft.feeKind
           && p.feeKey.None? && p.planKey.None? && p.atStep.None?
      ensures PaidAtRight(old(rows)) ==> PaidAtRight(rows)
    {
      if draft.Direction() == Inbound && draft.clientId.None? {
        return Err(ClientRequired);
      }
      if draft.Direction() == Outbound && draft.payee.None? {
        return Err(PayeeRequired);
      }
      var clientId: Option<string> := None;
      if draft.clientId.Some? {
        if client.Err? {
          return Err(client.error);
        }
        clientId := client.value;
      }
      r := Ok(|rows|);
      rows := rows + [Entered(draft, clientId)];
    }

    method Settle(s: Settlement) returns (r: Result<Payment, Error>)
      modifies this
      ensures rows == AfterSettle(old(rows), s)
      ensures r.Ok? <==> Accepted(old(rows), s)
      ensures r.Ok? ==> r.value == rows[s.id]
      ensures r.Err? ==> r.error == if s.id < |old(rows)| then NotAllowed(old(rows)[s.id].status, s.status)
          else NotFound
      ensures r.Ok?
        <==> && s.id < |old(rows)|
             && (old(rows)[s.id].status, s.status) in {
                  (Pending, Paid), (Pending, Failed), (Pending, Status.Cancelled),
                  (Failed, Paid), (Failed, Pending), (Failed, Status.Cancelled), (Paid, Refunded)}
      ensures r.Err? ==> rows == old(rows)
      ensures r.Ok? ==>
        && rows == old(rows)[s.id := r.value]
        && var before := old(rows)[s.id];
           && r.value.status == s.status
           && r.value.paidAt == (if s.status == Paid && before.paidAt.None? then Some(s.now) else before.paidAt)
           && r.value.reference == (if s.reference.None? then before.reference else s.reference)
           && r.value.(status := before.status, paidAt := before.paidAt, reference := before.reference) == before
      ensures PaidAtRight(old(rows)) ==> PaidAtRight(rows)
    {
      if s.id >= |rows| {
        return Err(NotFound);
      }
      var payment := rows[s.id];
      if !Allowed(payment.status, s.status) {
        return Err(NotAllowed(payment.status, s.status));
      }
      payment := payment.(status := s.status);
      if s.status == Paid {
        payment := payment.(paidAt := if payment.paidAt.Some? then payment.paidAt else Some(s.now));
      }
      if s.reference.Some? {
        payment := payment.(reference := s.reference);
      }
      rows := rows[s.id := payment];
      return Ok(payment);
    }
  }

  // ---------- Runs of settlements ----------

  /** How often a run moves a payment into paid. */
  function TimesPaid(rows: seq<Payment>, run: seq<Settlement>, id: nat): nat
    decreases |run|
  {
    if run == [] then 0
    else
      (if Accepted(rows, run[0]) && run[0].id == id && run[0].status == Paid then 1 else 0)
      + TimesPaid(AfterSettle(rows, run[0]), run[1..], id)
  }

  /** Over every run a payment enters paid at most once, and only from pending or failed. */
  lemma {:induction false} PaidAtMostOnce(rows: seq<Payment>, run: seq<Settlement>, id: nat)
    requires id < |rows|
    ensures TimesPaid(rows, run, id) <= 1
    ensures rows[id].status != Pending && rows[id].status != Failed ==> TimesPaid(rows, run, id) == 0
    decreases |run|
  {
    if run != [] { PaidAtMostOnce(AfterSettle(rows, run[0]), run[1..], id); }
  }

  lemma {:induction false} RunsKeepPaidAt(rows: seq<Payment>, run: seq<Settlement>)
    requires PaidAtRight(rows)
    ensures PaidAtRight(AfterSettles(rows, run)) && |AfterSettles(rows, run)| == |rows|
    ensures forall p :: p in AfterSettles(rows, run) ==> (p.paidAt.Some? <==> p.status in {Paid, Refunded})
    decreases |run|
  {
    if run != [] { RunsKeepPaidAt(AfterSettle(rows, run[0]), run[1..]); }
  }

  /** The time a payment was paid is set once: no later settlement moves it. */
  lemma {:induction false} PaidAtNeverMoves(rows: seq<Payment>, run: seq<Settlement>, id: nat)
    requires id < |rows| && rows[id].paidAt.Some?
    ensures |AfterSettles(rows, run)| == |rows| && AfterSettles(rows, run)[id].paidAt == rows[id].paidAt
    decreases |run|
  {
    if run != [] { PaidAtNeverMoves(AfterSettle(rows, run[0]), run[1..], id); }
  }

  // ---------- Totals ----------

  datatype GroupKey = GroupKey(currency: string, status: Status, direction: Direction)

  datatype Group = Group(key: GroupKey, amountMinor: int)

  function KeyOf(p: Payment): GroupKey { GroupKey(p.currency, p.status, p.direction) }

  function GroupSum(rows: seq<Payment>, key: GroupKey): int {
    if rows == [] then 0
    else GroupSum(rows[..|rows| - 1], key) + if KeyOf(rows[|rows| - 1]) == key then rows[|rows| - 1].amountMinor else 0
  }

  /** Everything in one currency and direction, whatever its status. */
  function Total(rows: seq<Payment>, currency: string, direction: Direction): int {
    if rows == [] then 0
    else
      var p := rows[|rows| - 1];
      Total(rows[..|rows| - 1], currency, direction)
      + if p.currency == currency && p.direction == direction then p.amountMinor else 0
  }

  /** What the grouping query returns: one group a key, with its sum, for every key some row has. */
  ghost predicate IsGrouping(rows: seq<Payment>, groups: seq<Group>) {
    && (forall i, j :: 0 <= i < j < |groups| ==> groups[i].key != groups[j].key)
    && (forall i :: 0 <= i < |groups| ==> groups[i].amountMinor == GroupSum(rows, groups[i].key))
    && (forall i :: 0 <= i < |rows| ==> HasKey(groups, KeyOf(rows[i])))
  }

  ghost predicate HasKey(groups: seq<Group>, key: GroupKey) {
    exists i :: 0 <= i < |groups| && groups[i].key == key
  }

  predicate InTotal(key: GroupKey, currency: string, direction: Direction) {
    key.currency == currency && key.direction == direction
  }

  /** The sum over the groups of one currency and direction of what each sums. */
  function OverGroups(groups: seq<Group>, rows: seq<Payment>, currency: string, direction: Direction): int {
    if groups == [] then 0
    else
      var n := |groups| - 1;
      OverGroups(groups[..n], rows, currency, direction)
      + if InTotal(groups[n].key, currency, direction) then GroupSum(rows, groups[n].key) else 0
  }

  lemma {:induction false} OneMoreRow(groups: seq<Group>, rows: seq<Payment>, p: Payment, currency: string,
                                      direction: Direction)
    requires forall i, j :: 0 <= i < j < |groups| ==> groups[i].key != groups[j].key
    ensures OverGroups(groups, rows + [p], currency, direction)
         == OverGroups(groups, rows, currency, direction)
            + if HasKey(groups, KeyOf(p)) && InTotal(KeyOf(p), currency, direction) then p.amountMinor else 0
  {
    if groups != [] {
      var n := |groups| - 1;
      OneMoreRow(groups[..n], rows, p, currency, direction);
      assert (rows + [p])[..|rows|] == rows;
      if groups[n].key == KeyOf(p) {
        assert HasKey(groups, KeyOf(p)) && !HasKey(groups[..n], KeyOf(p));
      } else {
        assert HasKey(groups[..n], KeyOf(p)) ==> HasKey(groups, KeyOf(p)) by {
          if i :| 0 <= i < n && groups[..n][i].key == KeyOf(p) { assert groups[i].key == KeyOf(p); }
        }
        assert HasKey(groups, KeyOf(p)) ==> HasKey(groups[..n], KeyOf(p)) by {
          if i :| 0 <= i < |groups| && groups[i].key == KeyOf(p) { assert groups[..n][i].key == KeyOf(p); }
        }
      }
    }
  }

  /** Summed over statuses, the groups of a currency and direction are its total. */
  lemma {:induction false} GroupsSumToTotal(groups: seq<Group>, rows: seq<Payment>, currency: string,
                                            direction: Direction)
    requires forall i, j :: 0 <= i < j < |groups| ==> groups[i].key != groups[j].key
    requires forall i :: 0 <= i < |rows| ==> HasKey(groups, KeyOf(rows[i]))
    ensures OverGroups(groups, rows, currency, direction) == Total(rows, currency, direction)
    decreases |rows|
  {
    if rows == [] {
      NothingToSum(groups, currency, direction);
    } else {
      var n := |rows| - 1;
      GroupsSumToTotal(groups, rows[..n], currency, direction);
      assert rows == rows[..n] + [rows[n]];
      OneMoreRow(groups, rows[..n], rows[n], currency, direction);
    }
  }

  lemma {:induction false} NothingToSum(groups: seq<Group>, currency: string, direction: Direction)
    ensures OverGroups(groups, [], currency, direction) == 0
  {
    if groups != [] { NothingToSum(groups[..|groups| - 1], currency, direction); }
  }

  /** The summary's reduction: per currency, everything of one direction and nothing of the other. */
  method TotalFor(ghost rows: seq<Payment>, groups: seq<Group>, direction: Direction) returns (totals: map<string, int>)
    requires IsGrouping(rows, groups)
    ensures forall c :: (if c in totals then totals[c] else 0) == Total(rows, c, direction)
  {
    totals := map[];
    for k := 0 to |groups|
      invariant forall c :: (if c in totals then totals[c] else 0) == OverGroups(groups[..k], rows, c, direction)
    {
      assert groups[..k + 1][..k] == groups[..k];
      var g := groups[k];
      if g.key.direction == direction {
        var so := if g.key.currency in totals then totals[g.key.currency] else 0;
        totals := totals[g.key.currency := so + g.amountMinor];
      }
    }
    assert groups[..|groups|] == groups;
    forall c ensures OverGroups(groups, rows, c, direction) == Total(rows, c, direction) {
      GroupsSumToTotal(groups, rows, c, direction);
    }
  }

  lemma {:induction false} TotalIgnoresStatus(a: seq<Payment>, b: seq<Payment>, currency: string, direction: Direction)
    requires |a| == |b|
    requires forall i :: 0 <= i < |a| ==>
      a[i].amountMinor == b[i].amountMinor && a[i].currency == b[i].currency && a[i].direction == b[i].direction
    ensures Total(a, currency, direction) == Total(b, currency, direction)
  {
    if a != [] { TotalIgnoresStatus(a[..|a| - 1], b[..|b| - 1], currency, direction); }
  }

  /** Totals per currency and direction never change along a run: settling only moves money between statuses. */
  lemma {:induction false} RunsKeepTotals(rows: seq<Payment>, run: seq<Settlement>, currency: string,
                                          direction: Direction)
    ensures Total(AfterSettles(rows, run), currency, direction) == Total(rows, currency, direction)
    decreases |run|
  {
    if run != [] {
      TotalIgnoresStatus(AfterSettle(rows, run[0]), rows, currency, direction);
      RunsKeepTotals(AfterSettle(rows, run[0]), run[1..], currency, direction);
    }
  }

  // ---------- Arrears ----------

  /** Whether a row holds a step: unpaid, on the matter, at the step, under a plan that gates. */
  predicate Blocks(p: Payment, entityId: string, step: string, gating: set<string>) {
    && p.entityId == Some(entityId) && p.atStep == Some(step) && (p.status == Pending || p.status == Failed)
    && p.planKey.Some? && p.planKey.value in gating
  }

  function Holding(entityId: string, step: string, gating: set<string>): Payment -> bool {
    (p: Payment) => Blocks(p, entityId, step, gating)
  }

  function ArrearsBlocking(rows: seq<Payment>, entityId: string, step: string, gating: set<string>): seq<Payment> {
    if gating == {} then [] else Filter(Holding(entityId, step, gating), rows)
  }

  /** The step is free exactly when no row blocks it; plans that do not gate never do. */
  lemma NoArrearsIff(rows: seq<Payment>, entityId: string, step: string, gating: set<string>)
    ensures ArrearsBlocking(rows, entityId, step, gating) == []
       <==> forall i :: 0 <= i < |rows| ==> !Blocks(rows[i], entityId, step, gating)
    ensures ArrearsBlocking(rows, entityId, step, gating) == []
       <==> forall i :: 0 <= i < |rows| && rows[i].entityId == Some(entityId) && rows[i].atStep == Some(step)
              && rows[i].status in {Pending, Failed} && rows[i].planKey.Some?
              ==> rows[i].planKey.value !in gating
  {
    var p := Holding(entityId, step, gating);
    FilterMembers(p, rows);
    if Filter(p, rows) == [] {
      forall i | 0 <= i < |rows| ensures !Blocks(rows[i], entityId, step, gating) {
        assert rows[i] in rows && rows[i] !in Filter(p, rows);
      }
    } else {
      assert Filter(p, rows)[0] in Filter(p, rows);
    }
  }

  lemma {:induction false} BlockingOnlyShrinks(rows: seq<Payment>, run: seq<Settlement>, id: nat,
                                               entityId: string, step: string, gating: set<string>)
    requires id < |rows| && !Blocks(rows[id], entityId, step, gating)
    ensures |AfterSettles(rows, run)| == |rows| && !Blocks(AfterSettles(rows, run)[id], entityId, step, gating)
    decreases |run|
  {
    if run != [] { BlockingOnlyShrinks(AfterSettle(rows, run[0]), run[1..], id, entityId, step, gating); }
  }

  /** Once a step is free of gating arrears, no run of settlements brings one back. */
  lemma ArrearsNeverReappear(rows: seq<Payment>, run: seq<Settlement>, entityId: string, step: string,
                             gating: set<string>)
    requires ArrearsBlocking(rows, entityId, step, gating) == []
    ensures ArrearsBlocking(AfterSettles(rows, run), entityId, step, gating) == []
  {
    var after := AfterSettles(rows, run);
    NoArrearsIff(rows, entityId, step, gating);
    NoArrearsIff(after, entityId, step, gating);
    forall i | 0 <= i < |after| ensures !Blocks(after[i], entityId, step, gating) {
      LengthStays(rows, run);
      BlockingOnlyShrinks(rows, run, i, entityId, step, gating);
    }
  }

  lemma {:induction false} LengthStays(rows: seq<Payment>, run: seq<Settlement>)
    ensures |AfterSettles(rows, run)| == |rows|
    decreases |run|
  {
    if run != [] { LengthStays(AfterSettle(rows, run[0]), run[1..]); }
  }

  /** An entry by hand never holds a step. */
  lemma EnteredHoldsNothing(rows: seq<Payment>, draft: Draft, clientId: Option<string>, entityId: string,
                            step: string, gating: set<string>)
    ensures ArrearsBlocking(rows + [Entered(draft, clientId)], entityId, step, gating)
         == ArrearsBlocking(rows, entityId, step, gating)
  {
    var p := Holding(entityId, step, gating);
    FilterConcat(p, rows, [Entered(draft, clientId)]);
    assert Filter(p, [Entered(draft, clientId)]) == [];
    assert Filter(p, rows) + [] == Filter(p, rows);
  }

  /** Whether a run settles or cancels a payment. */
  ghost predicate Leaves(rows: seq<Payment>, run: seq<Settlement>, id: nat)
    decreases |run|
  {
    run != [] &&
    (|| (Accepted(rows, run[0]) && run[0].id == id && (run[0].status == Paid || run[0].status == Cancelled))
     || Leaves(AfterSettle(rows, run[0]), run[1..], id))
  }

  /** A row that holds a step holds it along a run exactly until the run settles or cancels it. */
  lemma {:induction false} BlocksUntilItLeaves(rows: seq<Payment>, run: seq<Settlement>, id: nat,
                                               entityId: string, step: string, gating: set<string>)
    requires id < |rows| && Blocks(rows[id], entityId, step, gating)
    ensures |AfterSettles(rows, run)| == |rows|
    ensures Blocks(AfterSettles(rows, run)[id], entityId, step, gating) <==> !Leaves(rows, run, id)
    decreases |run|
  {
    if run != [] {
      var next := AfterSettle(rows, run[0]);
      if Blocks(next[id], entityId, step, gating) {
        BlocksUntilItLeaves(next, run[1..], id, entityId, step, gating);
      } else {
        BlockingOnlyShrinks(next, run[1..], id, entityId, step, gating);
      }
    }
  }

  /** A step is free after a run exactly when the run has settled or cancelled every row that held it. */
  lemma FreeIffAllLeave(rows: seq<Payment>, run: seq<Settlement>, entityId: string, step: string, gating: set<string>)
    ensures ArrearsBlocking(AfterSettles(rows, run), entityId, step, gating) == []
       <==> forall i :: 0 <= i < |rows| && Blocks(rows[i], entityId, step, gating) ==> Leaves(rows, run, i)
  {
    var after := AfterSettles(rows, run);
    LengthStays(rows, run);
    NoArrearsIff(after, entityId, step, gating);
    forall i | 0 <= i < |rows|
      ensures Blocks(after[i], entityId, step, gating)
          <==> Blocks(rows[i], entityId, step, gating) && !Leaves(rows, run, i)
    {
      if Blocks(rows[i], entityId, step, gating) {
        BlocksUntilItLeaves(rows, run, i, entityId, step, gating);
      } else {
        BlockingOnlyShrinks(rows, run, i, entityId, step, gating);
      }
    }
  }
}
