/**
 * The audit log table, the service that appends to it and walks it, and the retention
 * sweep, which is the only other writer.
 */
module AuditLog {
  import opened Common
  import opened AuditChain

  datatype ChainReport =
    | ChainValid(total: nat, valid: nat)
    | ChainTampered(total: nat, valid: nat, firstBrokenAt: string)

  datatype IntegrityReport = IntegrityReport(total: nat, valid: nat, invalid: nat, invalidLogIds: seq<string>)

  datatype Tenant = Tenant(id: string, vertical: string)

  datatype Applied = Applied(tenantId: string, retentionYears: Option<int>, cutoff: Option<int>, archived: nat)

  /** What the packs declare and the calendar yields: retention years and the cutoff that many years ago. */
  datatype Policy = Policy(retentionYears: string -> Option<int>, cutoff: int -> int)
  {
    function CutoffFor(tenant: Tenant): Option<int> {
      match retentionYears(tenant.vertical)
      case Some(years) => if years > 0 then Some(cutoff(years)) else None
      case None => None
    }
  }

  // ---------- Archiving ----------

  predicate Due(r: Row, tenantId: string, cutoff: int) {
    r.tenantId == tenantId && r.timestamp < cutoff && !r.archived
  }

  function ArchiveRow(tenantId: string, cutoff: int): Row -> Row {
    (r: Row) => if Due(r, tenantId, cutoff) then r.(archived := true) else r
  }

  /** `UPDATE ... SET archived = true` for one tenant's rows older than the cutoff. */
  function Archive(rows: seq<Row>, tenantId: string, cutoff: int): seq<Row> {
    Map(ArchiveRow(tenantId, cutoff), rows)
  }

  function CountDue(rows: seq<Row>, tenantId: string, cutoff: int): nat {
    |Filter(DueFor(tenantId, cutoff), rows)|
  }

  function DueFor(tenantId: string, cutoff: int): Row -> bool { (r: Row) => Due(r, tenantId, cutoff) }

  /** Whether some tenant of the sweep retires this row. */
  ghost predicate Retired(r: Row, tenants: seq<Tenant>, policy: Policy) {
    exists k :: 0 <= k < |tenants| && Retires(tenants[k], r, policy)
  }

  ghost predicate Retires(tenant: Tenant, r: Row, policy: Policy) {
    tenant.id == r.tenantId && policy.CutoffFor(tenant).Some? && r.timestamp < policy.CutoffFor(tenant).value
  }

  // ---------- The service ----------

  ghost predicate UniqueIds(rows: seq<Row>) {
    forall i, j :: 0 <= i < j < |rows| ==> rows[i].id != rows[j].id
  }

  /** The ids of the rows whose stored checksum is not the checksum of their contents. */
  function FailingIds(pf: Platform, logs: seq<Row>): seq<string> {
    if logs == [] then []
    else
      var n := |logs| - 1;
      if PassesIntegrity(pf, logs[n]) then FailingIds(pf, logs[..n]) else FailingIds(pf, logs[..n]) + [logs[n].id]
  }

  lemma FailingStep(pf: Platform, logs: seq<Row>, k: nat)
    requires k < |logs|
    ensures FailingIds(pf, logs[..k + 1])
         == FailingIds(pf, logs[..k]) + if PassesIntegrity(pf, logs[k]) then [] else [logs[k].id]
  {
    assert logs[..k + 1][..k] == logs[..k];
  }

  /** The ids reported are those of rows whose checksum is not the digest of their contents. */
  lemma {:induction false} FailingAre(pf: Platform, logs: seq<Row>, id: string)
    ensures id in FailingIds(pf, logs)
       <==> exists i :: 0 <= i < |logs| && logs[i].id == id
                     && logs[i].checksum != pf.sha256(pf.stringify(RowDocument(pf, logs[i])))
  {
    if logs != [] {
      var n := |logs| - 1;
      FailingAre(pf, logs[..n], id);
      assert forall i :: 0 <= i < n ==> logs[..n][i] == logs[i];
    }
  }

  class AuditService {
    var rows: seq<Row>

    constructor ()
      ensures rows == []
    {
      rows := [];
    }

    function GetLastChainHash(pf: Platform, tenantId: string): string
      reads this
    {
      var logs := Logs(rows, tenantId);
      if logs == [] then GenesisHash(pf, tenantId) else logs[|logs| - 1].chainHash
    }

    /** Appends one row, and returns it as the table gives it back. */
    method LogEvent(pf: Platform, e: Entry, id: string, now: Instant, createdAt: int) returns (saved: Row)
      modifies this
      ensures saved == Sealed(pf, old(rows), e, id, now, createdAt)
      ensures rows == old(rows) + [saved] == Step(pf, old(rows), Logged(e, id, now, createdAt))
      ensures saved.id == id && saved.tenantId == e.tenantId && saved.timestamp == now && saved.createdAt == createdAt
      ensures saved.userId == e.userId && saved.action == e.action && saved.entityId == e.entityId && !saved.archived
    {
      var checksum := Checksum(pf, EntryDocument(pf, e, now));
      var previousChainHash := GetLastChainHash(pf, e.tenantId);
      var draft := Row(id, e.tenantId, now, createdAt, e.userId, e.action, e.entityId,
                       AsStored(pf, e.beforeState), AsStored(pf, e.afterState), checksum, previousChainHash, "", false);
      saved := draft.(chainHash := ChainHash(pf, previousChainHash, draft));
      rows := rows + [saved];
    }

    /** Walks the chain; a break is always reported at the earliest bad link. */
    method VerifyChain(pf: Platform, tenantId: string) returns (report: ChainReport)
      ensures report.total == |Logs(rows, tenantId)|
      ensures report.ChainValid? <==> Intact(pf, tenantId, Logs(rows, tenantId))
      ensures report.ChainValid? ==> report.valid == report.total
      ensures report.ChainTampered? ==>
        && report.valid < report.total
        && Intact(pf, tenantId, Logs(rows, tenantId)[..report.valid])
        && !GoodLink(pf, tenantId, Logs(rows, tenantId), report.valid)
        && report.firstBrokenAt == Logs(rows, tenantId)[report.valid].id
    {
      var logs := Logs(rows, tenantId);
      if |logs| == 0 {
        return ChainValid(0, 0);
      }
      var runningHash := GenesisHash(pf, tenantId);
      var valid := 0;
      for k := 0 to |logs|
        invariant valid == k && runningHash == HashBefore(pf, tenantId, logs, k)
        invariant forall i :: 0 <= i < k ==> GoodLink(pf, tenantId, logs, i)
      {
        var log := logs[k];
        var expected := ChainHash(pf, runningHash, log);
        if log.chainHash != expected || log.previousChainHash != runningHash {
          forall i | 0 <= i < k ensures GoodLink(pf, tenantId, logs[..k], i) {
            assert GoodLink(pf, tenantId, logs, i);
          }
          assert !GoodLink(pf, tenantId, logs, k);
          return ChainTampered(|logs|, valid, log.id);
        }
        runningHash := log.chainHash;
        valid := valid + 1;
      }
      return ChainValid(|logs|, valid);
    }

    method VerifyLogIntegrity(pf: Platform, logId: string) returns (result: Option<bool>)
      ensures result.None? <==> forall r :: r in rows ==> r.id != logId
      ensures UniqueIds(rows) ==> forall r :: r in rows && r.id == logId ==> result == Some(PassesIntegrity(pf, r))
    {
      for k := 0 to |rows|
        invariant forall j :: 0 <= j < k ==> rows[j].id != logId
      {
        if rows[k].id == logId {
          return Some(rows[k].checksum == Checksum(pf, RowDocument(pf, rows[k])));
        }
      }
      return None;
    }

    /** Reports exactly the ids of the tenant's rows whose stored checksum is not that of their contents. */
    method VerifyTenantLogs(pf: Platform, tenantId: string) returns (report: IntegrityReport)
      requires UniqueIds(rows)
      ensures report.total == |Filter(OfTenant(tenantId), rows)| == report.valid + report.invalid
      ensures report.invalid == |report.invalidLogIds|
      ensures report.invalidLogIds
           == FailingIds(pf, Filter(OfTenant(tenantId), rows))
    {
      var logs := Filter(OfTenant(tenantId), rows);
      assert forall r :: r in logs ==> r in rows by { FilterMembers(OfTenant(tenantId), rows); }
      var valid, invalid, invalidLogIds := 0, 0, [];
      for k := 0 to |logs|
        invariant valid + invalid == k && invalid == |invalidLogIds|
        invariant invalidLogIds == FailingIds(pf, logs[..k])
      {
        assert logs[k] in logs;
        var isValid := VerifyLogIntegrity(pf, logs[k].id);
        assert isValid == Some(PassesIntegrity(pf, logs[k]));
        FailingStep(pf, logs, k);
        if isValid == Some(true) {
          valid := valid + 1;
        } else {
          invalid := invalid + 1;
          invalidLogIds := invalidLogIds + [logs[k].id];
        }
      }
      assert logs[..|logs|] == logs;
      return IntegrityReport(|logs|, valid, invalid, invalidLogIds);
    }

    /** The retention sweep: flips `archived` on the rows some declared period retires, and nothing else. */
    method Sweep(tenants: seq<Tenant>, policy: Policy) returns (applied: seq<Applied>)
      requires forall i, j :: 0 <= i < j < |tenants| ==> tenants[i].id != tenants[j].id
      modifies this
      ensures |rows| == |old(rows)|
      ensures forall i :: 0 <= i < |rows| ==>
        rows[i] == old(rows)[i].(archived := old(rows)[i].archived || Retired(old(rows)[i], tenants, policy))
      ensures AllShown(rows) == AllShown(old(rows))
      ensures |applied| == |tenants|
      ensures forall k :: 0 <= k < |tenants| ==>
        && applied[k].tenantId == tenants[k].id
        && applied[k].cutoff == policy.CutoffFor(tenants[k])
        && (applied[k].retentionYears.None? <==> applied[k].cutoff.None?)
        && applied[k].archived == match policy.CutoffFor(tenants[k])
                                  case Some(cutoff) => CountDue(old(rows), tenants[k].id, cutoff)
                                  case None => 0
    {
      applied := [];
      for k := 0 to |tenants|
        invariant |rows| == |old(rows)| && |applied| == k
        invariant forall i :: 0 <= i < |rows| ==>
          rows[i] == old(rows)[i].(archived := old(rows)[i].archived || Retired(old(rows)[i], tenants[..k], policy))
        invariant forall j :: 0 <= j < k ==>
          && applied[j].tenantId == tenants[j].id
          && applied[j].cutoff == policy.CutoffFor(tenants[j])
          && (applied[j].retentionYears.None? <==> applied[j].cutoff.None?)
          && applied[j].archived == match policy.CutoffFor(tenants[j])
                                    case Some(cutoff) => CountDue(old(rows), tenants[j].id, cutoff)
                                    case None => 0
      {
        var tenant := tenants[k];
        RetiredByOneMore(old(rows), tenants, k, policy);
        var years := policy.retentionYears(tenant.vertical);
        if years.None? || years.value <= 0 {
          applied := applied + [Applied(tenant.id, None, None, 0)];
          continue;
        }
        var cutoff := policy.cutoff(years.value);
        SameDue(rows, old(rows), tenant.id, cutoff);
        var archived := CountDue(rows, tenant.id, cutoff);
        rows := Archive(rows, tenant.id, cutoff);
        applied := applied + [Applied(tenant.id, Some(years.value), Some(cutoff), archived)];
      }
      assert tenants[..|tenants|] == tenants;
    }
  }

  /** Which rows a sweep archives, and how many it reports, in terms of what is declared and stored. */
  lemma SweepMeans(rows: seq<Row>, r: Row, tenants: seq<Tenant>, tenant: Tenant, cutoff: int, policy: Policy)
    ensures Retired(r, tenants, policy)
       <==> exists k :: 0 <= k < |tenants| && tenants[k].id == r.tenantId
                     && policy.retentionYears(tenants[k].vertical).Some?
                     && policy.retentionYears(tenants[k].vertical).value > 0
                     && r.timestamp < policy.cutoff(policy.retentionYears(tenants[k].vertical).value)
    ensures var years := policy.retentionYears(tenant.vertical);
      policy.CutoffFor(tenant) == if years.Some? && years.value > 0 then Some(policy.cutoff(years.value)) else None
    ensures CountDue(rows, tenant.id, cutoff)
         == |set i | && 0 <= i < |rows|
                     && rows[i].tenantId == tenant.id && rows[i].timestamp < cutoff && !rows[i].archived|
  {
    FilterCount(DueFor(tenant.id, cutoff), rows);
    assert Places(DueFor(tenant.id, cutoff), rows)
        == set i | 0 <= i < |rows| && rows[i].tenantId == tenant.id && rows[i].timestamp < cutoff && !rows[i].archived;
    forall k | 0 <= k < |tenants|
      ensures Retires(tenants[k], r, policy)
         <==> && tenants[k].id == r.tenantId
              && policy.retentionYears(tenants[k].vertical).Some?
              && policy.retentionYears(tenants[k].vertical).value > 0
              && r.timestamp < policy.cutoff(policy.retentionYears(tenants[k].vertical).value)
    {
    }
  }

  lemma RetiredByOneMore(rows: seq<Row>, tenants: seq<Tenant>, k: nat, policy: Policy)
    requires k < |tenants|
    requires forall i, j :: 0 <= i < j < |tenants| ==> tenants[i].id != tenants[j].id
    ensures forall r :: r in rows ==>
      (Retired(r, tenants[..k + 1], policy) <==> Retired(r, tenants[..k], policy) || Retires(tenants[k], r, policy))
    ensures forall r :: r in rows && r.tenantId == tenants[k].id ==> !Retired(r, tenants[..k], policy)
  {
    var longer, shorter := tenants[..k + 1], tenants[..k];
    assert forall j :: 0 <= j < k ==> longer[j] == shorter[j] == tenants[j];
    assert longer[k] == tenants[k];
    forall r | r in rows && (Retired(r, shorter, policy) || Retires(tenants[k], r, policy))
      ensures Retired(r, longer, policy)
    {
      if Retired(r, shorter, policy) {
        var j :| 0 <= j < k && Retires(shorter[j], r, policy);
        assert Retires(longer[j], r, policy);
      } else {
        assert Retires(longer[k], r, policy);
      }
    }
    forall r | r in rows && Retired(r, longer, policy)
      ensures Retired(r, shorter, policy) || Retires(tenants[k], r, policy)
    {
      var j :| 0 <= j < k + 1 && Retires(longer[j], r, policy);
      if j < k { assert Retires(shorter[j], r, policy); }
    }
  }

  /** Rows of one tenant that agree between two tables are due alike. */
  lemma {:induction false} SameDue(a: seq<Row>, b: seq<Row>, tenantId: string, cutoff: int)
    requires |a| == |b|
    requires forall i :: 0 <= i < |a| ==> a[i] == b[i] || (a[i].tenantId == b[i].tenantId != tenantId)
    ensures CountDue(a, tenantId, cutoff) == CountDue(b, tenantId, cutoff)
  {
    if a != [] {
      SameDue(a[1..], b[1..], tenantId, cutoff);
    }
  }

  // ---------- Runs ----------

  datatype Event =
    | Logged(entry: Entry, id: string, now: Instant, createdAt: int)
    | Swept(tenantId: string, cutoff: int)

  function Step(pf: Platform, rows: seq<Row>, event: Event): seq<Row> {
    match event
    case Logged(entry, id, now, createdAt) => rows + [Sealed(pf, rows, entry, id, now, createdAt)]
    case Swept(tenantId, cutoff) => Archive(rows, tenantId, cutoff)
  }

  function Run(pf: Platform, rows: seq<Row>, events: seq<Event>): seq<Row>
    decreases |events|
  {
    if events == [] then rows else Run(pf, Step(pf, rows, events[0]), events[1..])
  }

  /** The row comes after every row its tenant already has. */
  ghost predicate Latest(r: Row, rows: seq<Row>) {
    forall x :: x in rows && x.tenantId == r.tenantId ==> Before(x, r)
  }

  /** No row its tenant already has comes after the row; rows of one instant are read back as they were inserted. */
  ghost predicate NoneAfter(r: Row, rows: seq<Row>) {
    forall x :: x in rows && x.tenantId == r.tenantId ==> !Before(r, x)
  }

  /** Each event of the run logs a row that none its tenant has comes after. */
  ghost predicate WellTimed(pf: Platform, rows: seq<Row>, events: seq<Event>)
    decreases |events|
  {
    events == [] || (EventLandsLast(pf, rows, events[0]) && WellTimed(pf, Step(pf, rows, events[0]), events[1..]))
  }

  ghost predicate EventLandsLast(pf: Platform, rows: seq<Row>, event: Event) {
    event.Logged? ==> NoneAfter(Sealed(pf, rows, event.entry, event.id, event.now, event.createdAt), rows)
  }

  lemma {:induction false} SortKeepsMembers(rows: seq<Row>)
    ensures multiset(SortByTime(rows)) == multiset(rows)
  {
    if rows != [] {
      var n := |rows| - 1;
      SortKeepsMembers(rows[..n]);
      InsertKeepsMembers(rows[n], SortByTime(rows[..n]));
      LastApart(rows);
    }
  }

  lemma LastApart(rows: seq<Row>)
    requires rows != []
    ensures multiset(rows) == multiset(rows[..|rows| - 1]) + multiset{rows[|rows| - 1]}
  {
    assert rows == rows[..|rows| - 1] + [rows[|rows| - 1]];
  }

  lemma {:induction false} InsertKeepsMembers(r: Row, sorted: seq<Row>)
    ensures multiset(InsertByTime(r, sorted)) == multiset(sorted) + multiset{r}
  {
    if sorted != [] {
      var n := |sorted| - 1;
      LastApart(sorted);
      InsertKeepsMembers(r, sorted[..n]);
    }
  }

  lemma LogsMembers(rows: seq<Row>, tenantId: string)
    ensures forall r :: r in Logs(rows, tenantId) <==> r in rows && r.tenantId == tenantId
  {
    var own := Filter(OfTenant(tenantId), rows);
    FilterMembers(OfTenant(tenantId), rows);
    SortKeepsMembers(own);
    assert forall r :: r in Logs(rows, tenantId) <==> r in multiset(Logs(rows, tenantId));
    assert forall r :: r in own <==> r in multiset(own);
  }

  /** A row later than the tenant's others is read back last. */
  lemma LogsAppend(rows: seq<Row>, r: Row)
    requires NoneAfter(r, rows)
    ensures Logs(rows + [r], r.tenantId) == Logs(rows, r.tenantId) + [r]
    ensures forall t :: t != r.tenantId ==> Logs(rows + [r], t) == Logs(rows, t)
  {
    var own := Filter(OfTenant(r.tenantId), rows);
    FilterConcat(OfTenant(r.tenantId), rows, [r]);
    assert Filter(OfTenant(r.tenantId), rows + [r]) == own + [r];
    assert (own + [r])[..|own|] == own;
    LogsMembers(rows, r.tenantId);
    var logs := Logs(rows, r.tenantId);
    if logs != [] { assert logs[|logs| - 1] in logs; }
    forall t | t != r.tenantId ensures Logs(rows + [r], t) == Logs(rows, t) {
      FilterConcat(OfTenant(t), rows, [r]);
      assert Filter(OfTenant(t), [r]) == [];
      assert Filter(OfTenant(t), rows + [r]) == Filter(OfTenant(t), rows);
    }
  }

  lemma ExtendIntact(pf: Platform, tenantId: string, logs: seq<Row>, r: Row)
    requires Intact(pf, tenantId, logs)
    ensures Intact(pf, tenantId, logs + [r]) <==> GoodLink(pf, tenantId, logs + [r], |logs|)
  {
    var more := logs + [r];
    forall i | 0 <= i < |logs| ensures GoodLink(pf, tenantId, more, i) {
      assert GoodLink(pf, tenantId, logs, i);
      assert more[i] == logs[i] && (i > 0 ==> more[i - 1] == logs[i - 1]);
    }
  }

  // ---------- Sweeps do not touch the chain ----------

  function Shown(r: Row): Row { r.(archived := false) }

  function AllShown(rows: seq<Row>): seq<Row> { Map((r: Row) => Shown(r), rows) }

  lemma ArchiveShows(rows: seq<Row>, tenantId: string, cutoff: int)
    ensures AllShown(Archive(rows, tenantId, cutoff)) == AllShown(rows)
  {
  }

  lemma {:induction false} FilterShown(rows: seq<Row>, tenantId: string)
    ensures AllShown(Filter(OfTenant(tenantId), rows)) == Filter(OfTenant(tenantId), AllShown(rows))
  {
    if rows != [] {
      FilterShown(rows[1..], tenantId);
      assert AllShown(rows)[1..] == AllShown(rows[1..]);
    }
  }

  lemma {:induction false} InsertShown(r: Row, sorted: seq<Row>)
    ensures AllShown(InsertByTime(r, sorted)) == InsertByTime(Shown(r), AllShown(sorted))
  {
    if sorted != [] {
      var n := |sorted| - 1;
      assert AllShown(sorted)[..n] == AllShown(sorted[..n]);
      InsertShown(r, sorted[..n]);
    }
  }

  lemma {:induction false} SortShown(rows: seq<Row>)
    ensures AllShown(SortByTime(rows)) == SortByTime(AllShown(rows))
  {
    if rows != [] {
      var n := |rows| - 1;
      assert AllShown(rows)[..n] == AllShown(rows[..n]);
      SortShown(rows[..n]);
      InsertShown(rows[n], SortByTime(rows[..n]));
    }
  }

  lemma LogsShown(a: seq<Row>, b: seq<Row>, tenantId: string)
    requires AllShown(a) == AllShown(b)
    ensures AllShown(Logs(a, tenantId)) == AllShown(Logs(b, tenantId))
  {
    FilterShown(a, tenantId);
    FilterShown(b, tenantId);
    SortShown(Filter(OfTenant(tenantId), a));
    SortShown(Filter(OfTenant(tenantId), b));
  }

  lemma IntactShown(pf: Platform, tenantId: string, a: seq<Row>, b: seq<Row>)
    requires AllShown(a) == AllShown(b)
    ensures Intact(pf, tenantId, a) ==> Intact(pf, tenantId, b)
  {
    assert |a| == |AllShown(a)| == |AllShown(b)| == |b|;
    assert forall i :: 0 <= i < |a| ==> Shown(a[i]) == AllShown(a)[i] == AllShown(b)[i] == Shown(b[i]);
    if Intact(pf, tenantId, a) {
      forall i | 0 <= i < |b| ensures GoodLink(pf, tenantId, b, i) {
        assert GoodLink(pf, tenantId, a, i);
      }
    }
  }

  /** Tables that differ in `archived` alone are the same to `verifyChain`, for every tenant. */
  lemma ArchivingKeepsChains(pf: Platform, a: seq<Row>, b: seq<Row>, tenantId: string)
    requires AllShown(a) == AllShown(b)
    ensures Intact(pf, tenantId, Logs(a, tenantId)) <==> Intact(pf, tenantId, Logs(b, tenantId))
  {
    LogsShown(a, b, tenantId);
    IntactShown(pf, tenantId, Logs(a, tenantId), Logs(b, tenantId));
    IntactShown(pf, tenantId, Logs(b, tenantId), Logs(a, tenantId));
  }

  /**
   * Every run of atomic `logEvent` calls and retention sweeps, over any number of
   * tenants, leaves every tenant's chain valid.
   */
  lemma {:induction false} RunsKeepChains(pf: Platform, rows: seq<Row>, events: seq<Event>)
    requires forall t :: Intact(pf, t, Logs(rows, t))
    requires WellTimed(pf, rows, events)
    ensures forall t :: Intact(pf, t, Logs(Run(pf, rows, events), t))
    decreases |events|
  {
    if events != [] {
      var next := Step(pf, rows, events[0]);
      forall t ensures Intact(pf, t, Logs(next, t)) {
        match events[0]
        case Logged(entry, id, now, createdAt) =>
          var r := Sealed(pf, rows, entry, id, now, createdAt);
          LogsAppend(rows, r);
          ExtendIntact(pf, entry.tenantId, Logs(rows, entry.tenantId), r);
        case Swept(tenantId, cutoff) =>
          ArchiveShows(rows, tenantId, cutoff);
          ArchivingKeepsChains(pf, rows, next, t);
      }
      RunsKeepChains(pf, next, events[1..]);
    }
  }

  // ---------- When an event breaks the chain ----------

  ghost predicate Sorted(logs: seq<Row>) { forall i, j :: 0 <= i < j < |logs| ==> !Before(logs[j], logs[i]) }

  /** A row goes before the last of a sorted log exactly when it comes before it. */
  lemma {:induction false} InsertPosition(r: Row, sorted: seq<Row>) returns (i: nat)
    requires Sorted(sorted)
    ensures i <= |sorted| && InsertByTime(r, sorted) == sorted[..i] + [r] + sorted[i..]
    ensures forall j :: 0 <= j < i ==> !Before(r, sorted[j])
    ensures forall j :: i <= j < |sorted| ==> Before(r, sorted[j])
  {
    if sorted == [] || !Before(r, sorted[|sorted| - 1]) {
      i := |sorted|;
    } else {
      var n := |sorted| - 1;
      i := InsertPosition(r, sorted[..n]);
      assert sorted[i..] == sorted[..n][i..] + [sorted[n]];
    }
  }

  lemma {:induction false} SortSorts(rows: seq<Row>)
    ensures Sorted(SortByTime(rows))
  {
    if rows != [] {
      var sorted := SortByTime(rows[..|rows| - 1]);
      SortSorts(rows[..|rows| - 1]);
      var i := InsertPosition(rows[|rows| - 1], sorted);
      InsertSorts(rows[|rows| - 1], sorted, i);
    }
  }

  lemma InsertSorts(r: Row, sorted: seq<Row>, i: nat)
    requires Sorted(sorted) && i <= |sorted|
    requires forall j :: 0 <= j < i ==> !Before(r, sorted[j])
    requires forall j :: i <= j < |sorted| ==> Before(r, sorted[j])
    ensures Sorted(sorted[..i] + [r] + sorted[i..])
  {
    var all := sorted[..i] + [r] + sorted[i..];
    assert forall j :: 0 <= j < |all| ==> all[j] == if j < i then sorted[j] else if j == i then r else sorted[j - 1];
  }

  /** Where a row lands in its tenant's log. */
  lemma LandsAt(rows: seq<Row>, r: Row) returns (i: nat)
    ensures var logs := Logs(rows, r.tenantId);
      && i <= |logs| && Logs(rows + [r], r.tenantId) == logs[..i] + [r] + logs[i..]
      && (i == |logs| <==> NoneAfter(r, rows))
  {
    var own := Filter(OfTenant(r.tenantId), rows);
    var logs := Logs(rows, r.tenantId);
    FilterConcat(OfTenant(r.tenantId), rows, [r]);
    assert Filter(OfTenant(r.tenantId), rows + [r]) == own + [r];
    assert (own + [r])[..|own|] == own;
    SortSorts(own);
    i := InsertPosition(r, logs);
    LogsMembers(rows, r.tenantId);
    forall x | x in rows && x.tenantId == r.tenantId && Before(r, x) ensures i < |logs| {
      assert x in logs;
    }
    if i < |logs| { assert logs[i] in logs; }
  }

  /**
   * An atomic `logEvent` keeps its tenant's chain valid exactly when no row of the tenant comes after
   * the one it writes.
   */
  lemma LogKeepsChainIff(pf: Platform, rows: seq<Row>, r: Row)
    requires pf.Sound() && Intact(pf, r.tenantId, Logs(rows, r.tenantId))
    requires pf.CollisionFree(HashedTexts(pf, r.tenantId, Logs(rows, r.tenantId)))
    requires var last := EndHash(pf, r.tenantId, Logs(rows, r.tenantId));
      r.previousChainHash == last && r.chainHash == ChainHash(pf, last, r)
    ensures Intact(pf, r.tenantId, Logs(rows + [r], r.tenantId)) <==> NoneAfter(r, rows)
  {
    var logs := Logs(rows, r.tenantId);
    var i := LandsAt(rows, r);
    if i == |logs| {
      assert logs[..i] + [r] + logs[i..] == logs + [r];
      ExtendIntact(pf, r.tenantId, logs, r);
    } else {
      var after := Logs(rows + [r], r.tenantId);
      LogsMembers(rows, r.tenantId);
      HashesDistinct(pf, r.tenantId, logs, i, |logs|);
      assert HashBefore(pf, r.tenantId, after, i) == HashBefore(pf, r.tenantId, logs, i);
      assert after[i] == r && !GoodLink(pf, r.tenantId, after, i);
    }
  }

  ghost predicate AllValid(pf: Platform, rows: seq<Row>) { forall t :: Intact(pf, t, Logs(rows, t)) }

  /** Every tenant's chain is valid at every state of the run. */
  ghost predicate ValidThroughout(pf: Platform, rows: seq<Row>, events: seq<Event>)
    decreases |events|
  {
    AllValid(pf, rows) && (events != [] ==> ValidThroughout(pf, Step(pf, rows, events[0]), events[1..]))
  }

  ghost predicate CollisionFreeRun(pf: Platform, rows: seq<Row>, events: seq<Event>)
    decreases |events|
  {
    && (forall t :: pf.CollisionFree(HashedTexts(pf, t, Logs(rows, t))))
    && (events != [] ==> CollisionFreeRun(pf, Step(pf, rows, events[0]), events[1..]))
  }

  lemma StepKeepsAllIff(pf: Platform, rows: seq<Row>, event: Event)
    requires pf.Sound() && AllValid(pf, rows)
    requires forall t :: pf.CollisionFree(HashedTexts(pf, t, Logs(rows, t)))
    ensures AllValid(pf, Step(pf, rows, event)) <==> EventLandsLast(pf, rows, event)
  {
    if EventLandsLast(pf, rows, event) {
      RunsKeepChains(pf, rows, [event]);
      assert Run(pf, rows, [event]) == Run(pf, Step(pf, rows, event), [event][1..]);
    } else {
      var r := Sealed(pf, rows, event.entry, event.id, event.now, event.createdAt);
      LogKeepsChainIff(pf, rows, r);
    }
  }

  /**
   * Over every run of atomic `logEvent` calls and sweeps: chains are valid throughout exactly when
   * every event lands last.
   */
  lemma {:induction false} ValidThroughoutIff(pf: Platform, rows: seq<Row>, events: seq<Event>)
    requires pf.Sound() && AllValid(pf, rows) && CollisionFreeRun(pf, rows, events)
    ensures ValidThroughout(pf, rows, events) <==> WellTimed(pf, rows, events)
    decreases |events|
  {
    if events != [] {
      StepKeepsAllIff(pf, rows, events[0]);
      if EventLandsLast(pf, rows, events[0]) {
        ValidThroughoutIff(pf, Step(pf, rows, events[0]), events[1..]);
      }
    }
  }

  /**
   * Two `logEvent` calls that read the same last hash: whichever row is inserted
   * first, the walk reaches the later row with everything before it valid, and breaks there.
   */
  lemma RaceBreaksAtLater(pf: Platform, rows: seq<Row>, a: Row, b: Row, tenantId: string)
    requires pf.Sound() && Intact(pf, tenantId, Logs(rows, tenantId))
    requires a.tenantId == b.tenantId == tenantId
    requires Latest(a, rows) && Latest(b, rows) && Before(a, b)
    requires var last := EndHash(pf, tenantId, Logs(rows, tenantId));
      && a.previousChainHash == last && a.chainHash == ChainHash(pf, last, a)
      && b.previousChainHash == last && b.chainHash == ChainHash(pf, last, b)
    requires pf.CollisionFree(HashedTexts(pf, tenantId, Logs(rows, tenantId) + [a]))
    ensures Logs(rows + [a, b], tenantId) == Logs(rows, tenantId) + [a, b] == Logs(rows + [b, a], tenantId)
    ensures var logs, n := Logs(rows + [a, b], tenantId), |Logs(rows, tenantId)| + 1;
      Intact(pf, tenantId, logs[..n]) && !GoodLink(pf, tenantId, logs, n) && logs[n] == b
  {
    var logs := Logs(rows, tenantId);
    var n := |logs|;
    LogsAppend(rows, a);
    LogsAppend(rows, b);
    assert rows + [a, b] == (rows + [a]) + [b] && rows + [b, a] == (rows + [b]) + [a];
    LogsAppend(rows + [a], b);
    InsertedOutOfOrder(rows, a, b);
    var walked := logs + [a];
    ExtendIntact(pf, tenantId, logs, a);
    LogsMembers(rows, tenantId);
    HashesDistinct(pf, tenantId, walked, n, n + 1);
    var all := logs + [a, b];
    assert all[..n + 1] == walked;
    assert HashBefore(pf, tenantId, all, n + 1) == a.chainHash;
    assert HashBefore(pf, tenantId, walked, n) == EndHash(pf, tenantId, logs);
  }

  lemma InsertedOutOfOrder(rows: seq<Row>, a: Row, b: Row)
    requires a.tenantId == b.tenantId && Latest(a, rows) && Latest(b, rows) && Before(a, b)
    ensures Logs(rows + [b] + [a], a.tenantId) == Logs(rows, a.tenantId) + [a, b]
  {
    var t := a.tenantId;
    LogsAppend(rows, a);
    LogsAppend(rows, b);
    var own := Filter(OfTenant(t), rows + [b]);
    FilterConcat(OfTenant(t), rows + [b], [a]);
    assert Filter(OfTenant(t), rows + [b] + [a]) == own + [a];
    assert (own + [a])[..|own|] == own;
    var logs := Logs(rows, t);
    assert SortByTime(own) == logs + [b];
    assert (logs + [b])[..|logs|] == logs;
    LogsMembers(rows, t);
    if logs != [] { assert logs[|logs| - 1] in logs; }
    assert InsertByTime(a, logs) == logs + [a];
    assert logs + [a] + [b] == logs + [a, b];
  }

  // ---------- Order and runs in plain time ----------

  /** Rows are read back by timestamp and then by creation time, and none is lost or doubled. */
  lemma LogsInTimeOrder(rows: seq<Row>, tenantId: string, i: nat, j: nat)
    requires i < j < |Logs(rows, tenantId)|
    ensures var a, b := Logs(rows, tenantId)[i], Logs(rows, tenantId)[j];
      a.timestamp < b.timestamp || (a.timestamp == b.timestamp && a.createdAt <= b.createdAt)
    ensures multiset(Logs(rows, tenantId)) == multiset(Filter((r: Row) => r.tenantId == tenantId, rows))
  {
    var own := Filter(OfTenant(tenantId), rows);
    SortSorts(own);
    SortKeepsMembers(own);
    SameFilter(OfTenant(tenantId), (r: Row) => r.tenantId == tenantId, rows);
  }

  /** Every later `logEvent` of the run has a later time, or the same time and a later creation time. */
  ghost predicate TimesIncrease(events: seq<Event>) {
    forall i, j :: 0 <= i < j < |events| && events[i].Logged? && events[j].Logged? ==>
      || events[i].now < events[j].now
      || (events[i].now == events[j].now && events[i].createdAt < events[j].createdAt)
  }

  ghost predicate AllEarlier(rows: seq<Row>, events: seq<Event>) {
    forall r, j :: r in rows && 0 <= j < |events| && events[j].Logged? ==>
      r.timestamp < events[j].now || (r.timestamp == events[j].now && r.createdAt < events[j].createdAt)
  }

  lemma StepStaysEarlier(pf: Platform, rows: seq<Row>, events: seq<Event>)
    requires events != [] && TimesIncrease(events) && AllEarlier(rows, events)
    ensures TimesIncrease(events[1..]) && AllEarlier(Step(pf, rows, events[0]), events[1..])
  {
    var next := Step(pf, rows, events[0]);
    forall r, j | r in next && 0 <= j < |events[1..]| && events[1..][j].Logged?
      ensures var e := events[1..][j]; r.timestamp < e.now || (r.timestamp == e.now && r.createdAt < e.createdAt)
    {
      assert events[1..][j] == events[j + 1];
      var k :| 0 <= k < |next| && next[k] == r;
      if k < |rows| {
        assert rows[k] in rows && next[k].timestamp == rows[k].timestamp && next[k].createdAt == rows[k].createdAt;
      }
    }
  }

  lemma {:induction false} TimedIsWellTimed(pf: Platform, rows: seq<Row>, events: seq<Event>)
    requires TimesIncrease(events) && AllEarlier(rows, events)
    ensures WellTimed(pf, rows, events)
    decreases |events|
  {
    if events != [] {
      StepStaysEarlier(pf, rows, events);
      TimedIsWellTimed(pf, Step(pf, rows, events[0]), events[1..]);
    }
  }

  /**
   * From an empty table, every run whose times increase leaves every tenant's chain valid, sweeps in
   * between or not.
   */
  lemma TimedRunsKeepChains(pf: Platform, events: seq<Event>, tenantId: string)
    requires TimesIncrease(events)
    ensures Intact(pf, tenantId, Logs(Run(pf, [], events), tenantId))
  {
    TimedIsWellTimed(pf, [], events);
    RunsKeepChains(pf, [], events);
  }
}
