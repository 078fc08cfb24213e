/**
 * Client and case numbering as a concurrent protocol: transactions that begin, claim a
 * number under the row lock of the counter upsert, save, and commit or roll back, in
 * any interleaving, with deletions in between, and two kinds of writer beside them: the
 * importer, whose claim commits before its insert is tried, and updates, which save the
 * whole row they read.
 */
module RecordNumbers {
  import opened Common
  import opened Decimal

  datatype EntityType = Person | Organization | Case | Lead | Unnumbered(name: string)

  datatype Series = CL | CS

  function SeriesFor(kind: EntityType): Option<Series> {
    match kind
    case Person => Some(CL)
    case Organization => Some(CL)
    case Case => Some(CS)
    case Lead => None
    case Unnumbered(_) => None
  }

  predicate Convertible(from: EntityType, to: EntityType) {
    match from
    case Lead => to == Person || to == Organization
    case Person => to == Organization
    case Organization => to == Person
    case Case => false
    case Unnumbered(_) => false
  }

  /** A lead becomes a client, and clients change between person and organization; nothing else converts. */
  lemma ConvertibleMeans(from: EntityType, to: EntityType)
    ensures Convertible(from, to)
       <==> (|| (from == Lead && (to == Person || to == Organization))
             || (from == Person && to == Organization)
             || (from == Organization && to == Person))
  {
  }

  // ---------- Rendering ----------

  function Prefix(series: Series): string {
    match series case CL => "CL-" case CS => "CS-"
  }

  function FormatRecordNumber(series: Series, value: nat): string {
    Prefix(series) + PadStart(Render(value), 6)
  }

  /** Reads a rendered number back. */
  function ParseRecordNumber(text: string): Option<(Series, nat)> {
    if |text| < 4 || !AllDigits(text[3..]) then None
    else if text[..3] == "CL-" then Some((CL, Value(text[3..])))
    else if text[..3] == "CS-" then Some((CS, Value(text[3..])))
    else None
  }

  /** Seven digits and more are neither cut nor wrapped: every rendering reads back. */
  lemma RecordNumberRoundTrip(series: Series, value: nat)
    ensures ParseRecordNumber(FormatRecordNumber(series, value)) == Some((series, value))
    ensures |FormatRecordNumber(series, value)| >= 9
  {
    PaddedRoundTrip(value, 6);
    var text := FormatRecordNumber(series, value);
    assert text[3..] == PadStart(Render(value), 6);
    assert text[..3] == Prefix(series);
    assert "CL-"[1] != "CS-"[1];
  }

  lemma RecordNumberInjective(s: Series, m: nat, t: Series, n: nat)
    requires FormatRecordNumber(s, m) == FormatRecordNumber(t, n)
    ensures s == t && m == n
  {
    RecordNumberRoundTrip(s, m);
    RecordNumberRoundTrip(t, n);
  }

  // ---------- The counter upsert ----------

  datatype Key = Key(tenantId: string, series: Series)

  datatype ClaimError = NoValueReturned

  /** The counter table on its own, as one session sees it while it holds the row. */
  class CounterTable {
    var values: map<Key, nat>

    constructor ()
      ensures values == map[]
    {
      values := map[];
    }

    /**
     * One upsert: a new row starts at one, an existing row advances by one; a write the database
     * filtered out assigns nothing.
     */
    method ClaimRecordNumber(tenantId: string, series: Series, landed: bool) returns (r: Result<string, ClaimError>)
      modifies this
      ensures !landed ==> r == Err(NoValueReturned) && values == old(values)
      ensures landed ==>
        var key := Key(tenantId, series); var value := (if key in old(values) then old(values)[key] else 0) + 1;
        && values == old(values)[key := value]
        && r.Ok? && ParseRecordNumber(r.value) == Some((series, value))
    {
      if !landed {
        return Err(NoValueReturned);
      }
      var key := Key(tenantId, series);
      if key in values {
        values := values[key := values[key] + 1];
      } else {
        values := values[key := 1];
      }
      RecordNumberRoundTrip(series, values[key]);
      return Ok(FormatRecordNumber(series, values[key]));
    }
  }

  // ---------- The protocol ----------

  type TxId = nat
  type RecordId = nat

  datatype Record = Record(tenantId: string, kind: EntityType, recordNumber: Option<string>)

  /** A conversion or an update works on the row as it was read before anything of it is written. */
  datatype Work =
    | Creating(id: RecordId, tenantId: string, kind: EntityType)
    | Importing(id: RecordId, tenantId: string, kind: EntityType)
    | Converting(id: RecordId, snapshot: Record, toKind: EntityType)
    | Updating(id: RecordId, snapshot: Record)
  {
    predicate Inserts() { Creating? || Importing? }
  }

  datatype Tx = Tx(work: Work, claimed: Option<nat>, saved: bool)

  /** `issued` is a history variable: every number ever committed, with its record. */
  datatype Db = Db(
    counters: map<Key, nat>,
    locks: map<Key, TxId>,
    txs: map<TxId, Tx>,
    records: map<RecordId, Record>,
    usedIds: set<RecordId>,
    issued: map<(string, string), RecordId>)

  datatype Event =
    | BeginCreate(tx: TxId, id: RecordId, tenantId: string, kind: EntityType)
    | BeginImport(tx: TxId, id: RecordId, tenantId: string, kind: EntityType)
    | BeginConvert(tx: TxId, id: RecordId, toKind: EntityType)
    | BeginUpdate(tx: TxId, id: RecordId)
    | Claim(tx: TxId)
    | ClaimForImport(tx: TxId)
    | Save(tx: TxId)
    | Commit(tx: TxId)
    | Rollback(tx: TxId)
    | Delete(id: RecordId)

  const EMPTY: Db := Db(map[], map[], map[], map[], {}, map[])

  function Counter(db: Db, key: Key): nat {
    if key in db.counters then db.counters[key] else 0
  }

  function TenantOf(work: Work): string {
    match work
    case Creating(_, tenantId, _) => tenantId
    case Importing(_, tenantId, _) => tenantId
    case Converting(_, snapshot, _) => snapshot.tenantId
    case Updating(_, snapshot) => snapshot.tenantId
  }

  /** The counter row the work draws from; a record that has a number draws none. */
  function Wanted(work: Work): Option<Key> {
    var series :=
      match work
      case Creating(_, _, kind) => SeriesFor(kind)
      case Importing(_, _, kind) => SeriesFor(kind)
      case Converting(_, snapshot, toKind) => if snapshot.recordNumber.None? then SeriesFor(toKind) else None
      case Updating(_, _) => None;
    match series
    case Some(s) => Some(Key(TenantOf(work), s))
    case None => None
  }

  function DrawnNumber(tx: Tx): Option<string> {
    match (Wanted(tx.work), tx.claimed)
    case (Some(key), Some(value)) => Some(FormatRecordNumber(key.series, value))
    case _ => None
  }

  function WrittenRecord(tx: Tx): Record {
    match tx.work
    case Creating(_, tenantId, kind) => Record(tenantId, kind, DrawnNumber(tx))
    case Importing(_, tenantId, kind) => Record(tenantId, kind, DrawnNumber(tx))
    case Updating(_, snapshot) => snapshot
    case Converting(_, snapshot, toKind) =>
      Record(snapshot.tenantId, toKind, if DrawnNumber(tx).Some? then DrawnNumber(tx) else snapshot.recordNumber)
  }

  /** The upsert blocks while another transaction holds the counter row. */
  ghost predicate MayClaim(db: Db, tx: TxId) {
    && tx in db.txs && db.txs[tx].claimed.None? && !db.txs[tx].saved
    && Wanted(db.txs[tx].work).Some? && Wanted(db.txs[tx].work).value !in db.locks
  }

  ghost predicate Enabled(db: Db, e: Event) {
    match e
    case BeginCreate(tx, id, _, _) => tx !in db.txs && id !in db.usedIds
    case BeginImport(tx, id, _, _) => tx !in db.txs && id !in db.usedIds
    case BeginUpdate(tx, id) => tx !in db.txs && id in db.records
    case BeginConvert(tx, id, toKind) => tx !in db.txs && id in db.records && Convertible(db.records[id].kind, toKind)
    case Claim(tx) =>
      MayClaim(db, tx) && !db.txs[tx].work.Importing?
    case ClaimForImport(tx) =>
      MayClaim(db, tx) && db.txs[tx].work.Importing?
    case Save(tx) =>
      tx in db.txs && !db.txs[tx].saved && (Wanted(db.txs[tx].work).Some? ==> db.txs[tx].claimed.Some?)
    case Commit(tx) => tx in db.txs && db.txs[tx].saved
    case Rollback(tx) => tx in db.txs
    case Delete(id) => id in db.records
  }

  function Release(db: Db, tx: TxId): Db {
    db.(txs := db.txs - {tx}, locks := map k | k in db.locks && db.locks[k] != tx :: db.locks[k])
  }

  function Next(db: Db, e: Event): Db
    requires Enabled(db, e)
  {
    match e
    case BeginCreate(tx, id, tenantId, kind) =>
      db.(txs := db.txs[tx := Tx(Creating(id, tenantId, kind), None, false)], usedIds := db.usedIds + {id})
    case BeginImport(tx, id, tenantId, kind) =>
      db.(txs := db.txs[tx := Tx(Importing(id, tenantId, kind), None, false)], usedIds := db.usedIds + {id})
    case BeginUpdate(tx, id) => db.(txs := db.txs[tx := Tx(Updating(id, db.records[id]), None, false)])
    case BeginConvert(tx, id, toKind) =>
      db.(txs := db.txs[tx := Tx(Converting(id, db.records[id], toKind), None, false)])
    case Claim(tx) =>
      var key := Wanted(db.txs[tx].work).value;
      db.(locks := db.locks[key := tx], txs := db.txs[tx := db.txs[tx].(claimed := Some(Counter(db, key) + 1))])
    case ClaimForImport(tx) =>
      // A statement of its own: the counter is advanced for good, and no lock outlives it.
      var key := Wanted(db.txs[tx].work).value;
      db.(counters := db.counters[key := Counter(db, key) + 1],
          txs := db.txs[tx := db.txs[tx].(claimed := Some(Counter(db, key) + 1))])
    case Save(tx) => db.(txs := db.txs[tx := db.txs[tx].(saved := true)])
    case Commit(tx) => Committed(db, tx)
    case Rollback(tx) => Release(db, tx)
    case Delete(id) => db.(records := db.records - {id})
  }

  function Committed(db: Db, tx: TxId): Db
    requires tx in db.txs
  {
    var t := db.txs[tx];
    var next := Release(db, tx).(records := db.records[t.work.id := WrittenRecord(t)]);
    match (Wanted(t.work), t.claimed)
    case (Some(key), Some(value)) =>
      next.(counters := if t.work.Importing? then db.counters else db.counters[key := value],
            issued := db.issued[(key.tenantId, FormatRecordNumber(key.series, value)) := t.work.id])
    case _ => next
  }

  ghost predicate Runs(db: Db, events: seq<Event>)
    decreases |events|
  {
    events == [] || (Enabled(db, events[0]) && Runs(Next(db, events[0]), events[1..]))
  }

  ghost function After(db: Db, events: seq<Event>): Db
    requires Runs(db, events)
    decreases |events|
  {
    if events == [] then db else After(Next(db, events[0]), events[1..])
  }

  // ---------- What every step keeps ----------

  /** A held lock belongs to a transaction that claimed the next number of that counter. */
  ghost predicate LockIsClaim(db: Db, k: Key) {
    && k in db.locks && db.locks[k] in db.txs
    && !db.txs[db.locks[k]].work.Importing? && Wanted(db.txs[db.locks[k]].work) == Some(k)
    && db.txs[db.locks[k]].claimed == Some(Counter(db, k) + 1)
  }

  /** A transaction that has claimed holds the lock of the counter it claimed from. */
  ghost predicate ClaimIsLocked(db: Db, t: TxId) {
    t in db.txs && db.txs[t].claimed.Some? && !db.txs[t].work.Importing? ==>
      && Wanted(db.txs[t].work).Some? && Wanted(db.txs[t].work).value in db.locks
      && db.locks[Wanted(db.txs[t].work).value] == t
  }

  ghost predicate LocksAreClaims(db: Db) {
    (forall k :: k in db.locks ==> LockIsClaim(db, k)) && (forall t :: ClaimIsLocked(db, t))
  }

  /** The counter of a series is never behind a number issued in it. */
  ghost predicate Bounded(db: Db) {
    forall k: Key, n: nat ::
      (k.tenantId, FormatRecordNumber(k.series, n)) in db.issued ==> 1 <= n <= Counter(db, k)
  }

  function ImportClaim(key: Key, value: nat): Tx -> bool {
    (tx: Tx) => tx.work.Importing? && Wanted(tx.work) == Some(key) && tx.claimed == Some(value)
  }

  /** An import under way, whose claim has advanced the counter and whose insert is still to come. */
  ghost predicate HoldsImport(db: Db, t: TxId, key: Key, value: nat) {
    t in db.txs && ImportClaim(key, value)(db.txs[t])
  }

  /** What an import has claimed is behind the counter, not issued, and no other import's. */
  ghost predicate ImportIsAlone(db: Db, t: TxId) {
    t in db.txs && db.txs[t].work.Importing? && db.txs[t].claimed.Some? ==>
      && Wanted(db.txs[t].work).Some?
      && var key, value := Wanted(db.txs[t].work).value, db.txs[t].claimed.value;
      && 1 <= value <= Counter(db, key)
      && (key.tenantId, FormatRecordNumber(key.series, value)) !in db.issued
      && forall u :: HoldsImport(db, u, key, value) ==> u == t
  }

  ghost predicate ImportsAreAlone(db: Db) { forall t :: ImportIsAlone(db, t) }

  ghost predicate Owns(db: Db, id: RecordId, r: Record) {
    r.recordNumber.Some? ==>
      (r.tenantId, r.recordNumber.value) in db.issued && db.issued[(r.tenantId, r.recordNumber.value)] == id
  }

  ghost predicate HoldersOwn(db: Db) {
    && (forall id :: id in db.records ==> Owns(db, id, db.records[id]))
    && (forall t :: t in db.txs && !db.txs[t].work.Inserts() ==> Owns(db, db.txs[t].work.id, db.txs[t].work.snapshot))
  }

  /** A record being created has an id of its own: no row has it and no other transaction works on it. */
  ghost predicate CreatesAlone(db: Db, t: TxId) {
    t in db.txs && db.txs[t].work.Inserts() ==>
      db.txs[t].work.id !in db.records && forall u :: u in db.txs && u != t ==> db.txs[u].work.id != db.txs[t].work.id
  }

  /** A conversion or update writes to the tenant its record, and all else under way for it, is in. */
  ghost predicate StaysWithTenant(db: Db, t: TxId) {
    t in db.txs && !db.txs[t].work.Inserts() ==>
      && (db.txs[t].work.id in db.records ==> db.records[db.txs[t].work.id].tenantId == TenantOf(db.txs[t].work))
      && forall u :: u in db.txs && db.txs[u].work.id == db.txs[t].work.id
          ==> TenantOf(db.txs[u].work) == TenantOf(db.txs[t].work)
  }

  /** Ids are used once, and an id stays with its tenant. */
  ghost predicate IdsAreOnce(db: Db) {
    && db.records.Keys <= db.usedIds
    && (forall t :: t in db.txs ==> db.txs[t].work.id in db.usedIds)
    && (forall t :: CreatesAlone(db, t))
    && (forall t :: StaysWithTenant(db, t))
  }

  /** What draws a number has drawn it before it is saved. */
  ghost predicate SavedHaveClaimed(db: Db) {
    forall t :: t in db.txs && db.txs[t].saved && Wanted(db.txs[t].work).Some? ==> db.txs[t].claimed.Some?
  }

  lemma StepKeepsSaved(db: Db, e: Event)
    requires SavedHaveClaimed(db) && Enabled(db, e)
    ensures SavedHaveClaimed(Next(db, e))
  {
  }

  ghost predicate Consistent(db: Db) {
    && LocksAreClaims(db) && Bounded(db) && ImportsAreAlone(db) && HoldersOwn(db) && IdsAreOnce(db)
    && SavedHaveClaimed(db)
  }

  /** Nothing issued is forgotten or passed on to another record. */
  ghost predicate Remembers(before: Db, after: Db) {
    forall number :: number in before.issued ==> number in after.issued && after.issued[number] == before.issued[number]
  }

  /** What a commit issues was not issued before, and no import under way has claimed it. */
  lemma CommitIssuesNew(db: Db, tx: TxId)
    requires Consistent(db) && Enabled(db, Commit(tx))
    requires Wanted(db.txs[tx].work).Some? && db.txs[tx].claimed.Some?
    ensures var key, value := Wanted(db.txs[tx].work).value, db.txs[tx].claimed.value;
      && 1 <= value <= Counter(Committed(db, tx), key) && Counter(db, key) <= Counter(Committed(db, tx), key)
      && (key.tenantId, FormatRecordNumber(key.series, value)) !in db.issued
      && forall u :: HoldsImport(db, u, key, value) ==> u == tx
  {
    var key, value := Wanted(db.txs[tx].work).value, db.txs[tx].claimed.value;
    assert ImportIsAlone(db, tx);
    if !db.txs[tx].work.Importing? {
      assert ClaimIsLocked(db, tx) && LockIsClaim(db, key);
      forall u ensures !HoldsImport(db, u, key, value) {
        assert ImportIsAlone(db, u);
      }
    }
  }

  lemma CommitKeepsBounded(db: Db, tx: TxId)
    requires Consistent(db) && Enabled(db, Commit(tx))
    ensures Bounded(Committed(db, tx)) && Remembers(db, Committed(db, tx))
  {
    var t := db.txs[tx];
    var next := Committed(db, tx);
    if Wanted(t.work).Some? && t.claimed.Some? {
      var key, value := Wanted(t.work).value, t.claimed.value;
      CommitIssuesNew(db, tx);
      forall k: Key, n: nat | (k.tenantId, FormatRecordNumber(k.series, n)) in next.issued
        ensures 1 <= n <= Counter(next, k)
      {
        if (k.tenantId, FormatRecordNumber(k.series, n)) == (key.tenantId, FormatRecordNumber(key.series, value)) {
          RecordNumberInjective(k.series, n, key.series, value);
        }
      }
    }
  }

  lemma CommitKeepsImports(db: Db, tx: TxId)
    requires Consistent(db) && Enabled(db, Commit(tx))
    ensures ImportsAreAlone(Committed(db, tx))
  {
    var next := Committed(db, tx);
    forall t ensures ImportIsAlone(next, t) {
      assert ImportIsAlone(db, t);
      if t in next.txs && next.txs[t].work.Importing? && next.txs[t].claimed.Some? {
        var key, value := Wanted(next.txs[t].work).value, next.txs[t].claimed.value;
        assert HoldsImport(db, t, key, value);
        forall u | HoldsImport(next, u, key, value) ensures u == t {
          assert HoldsImport(db, u, key, value);
        }
        if Wanted(db.txs[tx].work).Some? && db.txs[tx].claimed.Some? {
          CommitIssuesNew(db, tx);
          var issuedKey, issued := Wanted(db.txs[tx].work).value, db.txs[tx].claimed.value;
          if (key.tenantId, FormatRecordNumber(key.series, value))
              == (issuedKey.tenantId, FormatRecordNumber(issuedKey.series, issued)) {
            RecordNumberInjective(key.series, value, issuedKey.series, issued);
          }
        }
      }
    }
  }

  lemma CommitKeepsClaims(db: Db, tx: TxId)
    requires LocksAreClaims(db) && Enabled(db, Commit(tx))
    ensures LocksAreClaims(Committed(db, tx))
  {
    var next := Committed(db, tx);
    assert ClaimIsLocked(db, tx);
    forall k | k in next.locks ensures LockIsClaim(next, k) {
      assert LockIsClaim(db, k) && db.locks[k] != tx;
      assert Wanted(db.txs[tx].work) == Some(k) && !db.txs[tx].work.Importing? ==> db.txs[tx].claimed.None?;
    }
    forall t ensures ClaimIsLocked(next, t) {
      assert ClaimIsLocked(db, t);
    }
  }

  lemma CommitKeepsOwners(db: Db, tx: TxId)
    requires Consistent(db) && Enabled(db, Commit(tx))
    ensures HoldersOwn(Committed(db, tx))
  {
    CommitKeepsBounded(db, tx);
    var next := Committed(db, tx);
    var t := db.txs[tx];
    if Wanted(t.work).Some? && t.claimed.Some? { CommitIssuesNew(db, tx); }
    forall id | id in next.records ensures Owns(next, id, next.records[id]) {
      if id != t.work.id {
        assert Owns(db, id, db.records[id]);
      } else if !t.work.Inserts() {
        assert Owns(db, id, t.work.snapshot);
      }
    }
    forall u | u in next.txs && !next.txs[u].work.Inserts()
      ensures Owns(next, next.txs[u].work.id, next.txs[u].work.snapshot)
    {
      assert Owns(db, db.txs[u].work.id, db.txs[u].work.snapshot);
    }
  }

  lemma StepKeepsCreatesAlone(db: Db, e: Event)
    requires IdsAreOnce(db) && Enabled(db, e)
    ensures forall t :: CreatesAlone(Next(db, e), t)
  {
    forall t ensures CreatesAlone(Next(db, e), t) {
      assert CreatesAlone(db, t);
      if !e.Delete? { assert CreatesAlone(db, e.tx); }
    }
  }

  lemma StepKeepsTenants(db: Db, e: Event)
    requires IdsAreOnce(db) && Enabled(db, e)
    ensures forall t :: StaysWithTenant(Next(db, e), t)
  {
    var next := Next(db, e);
    forall t ensures StaysWithTenant(next, t) {
      assert StaysWithTenant(db, t);
      if e.Commit? { assert StaysWithTenant(db, e.tx) && CreatesAlone(db, e.tx); }
      forall u |
        u in next.txs && t in next.txs && !next.txs[t].work.Inserts() && next.txs[u].work.id == next.txs[t].work.id
        ensures TenantOf(next.txs[u].work) == TenantOf(next.txs[t].work)
      {
        assert StaysWithTenant(db, u) && CreatesAlone(db, u);
      }
    }
  }

  lemma StepKeepsIds(db: Db, e: Event)
    requires IdsAreOnce(db) && Enabled(db, e)
    ensures IdsAreOnce(Next(db, e))
  {
    StepKeepsCreatesAlone(db, e);
    StepKeepsTenants(db, e);
  }

  lemma CountersOnlyGrow(db: Db, e: Event, k: Key)
    requires Enabled(db, e) && !e.Commit?
    ensures Counter(db, k) <= Counter(Next(db, e), k)
    ensures k in db.locks ==> Counter(db, k) == Counter(Next(db, e), k)
  {
  }

  lemma OtherStepsKeepOwners(db: Db, e: Event)
    requires Bounded(db) && HoldersOwn(db) && Enabled(db, e) && !e.Commit?
    ensures Bounded(Next(db, e)) && HoldersOwn(Next(db, e)) && Remembers(db, Next(db, e))
  {
    var next := Next(db, e);
    assert next.issued == db.issued;
    forall k ensures Counter(db, k) <= Counter(next, k) { CountersOnlyGrow(db, e, k); }
    assert forall id :: id in next.records ==> id in db.records && next.records[id] == db.records[id];
    assert forall id, r :: Owns(db, id, r) ==> Owns(next, id, r);
  }

  lemma OtherStepsKeepImports(db: Db, e: Event)
    requires Bounded(db) && ImportsAreAlone(db) && Enabled(db, e) && !e.Commit?
    ensures ImportsAreAlone(Next(db, e))
  {
    var next := Next(db, e);
    forall t ensures ImportIsAlone(next, t) {
      assert ImportIsAlone(db, t);
      if t in next.txs && next.txs[t].work.Importing? && next.txs[t].claimed.Some? {
        var key, value := Wanted(next.txs[t].work).value, next.txs[t].claimed.value;
        CountersOnlyGrow(db, e, key);
        if e == ClaimForImport(t) {
          assert value == Counter(db, key) + 1;
        } else {
          assert HoldsImport(db, t, key, value);
        }
        forall u | HoldsImport(next, u, key, value) ensures u == t {
          assert ImportIsAlone(db, u);
          assert e != ClaimForImport(u) ==> HoldsImport(db, u, key, value);
        }
      }
    }
  }

  lemma StepKeepsConsistent(db: Db, e: Event)
    requires Consistent(db) && Enabled(db, e)
    ensures Consistent(Next(db, e)) && Remembers(db, Next(db, e))
  {
    StepKeepsIds(db, e);
    StepKeepsSaved(db, e);
    if e.Commit? {
      CommitKeepsClaims(db, e.tx);
      CommitKeepsBounded(db, e.tx);
      CommitKeepsImports(db, e.tx);
      CommitKeepsOwners(db, e.tx);
    } else {
      OtherStepsKeepImports(db, e);
      OtherStepsKeepOwners(db, e);
      if e.Claim? { ClaimKeepsClaims(db, e.tx); } else { OtherStepsKeepClaims(db, e); }
    }
  }

  lemma ClaimKeepsClaims(db: Db, tx: TxId)
    requires LocksAreClaims(db) && Enabled(db, Claim(tx))
    ensures LocksAreClaims(Next(db, Claim(tx)))
  {
    var next := Next(db, Claim(tx));
    forall k | k in next.locks ensures LockIsClaim(next, k) {
      assert Counter(next, k) == Counter(db, k);
      assert k in db.locks ==> LockIsClaim(db, k);
    }
    forall t ensures ClaimIsLocked(next, t) {
      assert ClaimIsLocked(db, t);
    }
  }

  lemma OtherStepsKeepClaims(db: Db, e: Event)
    requires LocksAreClaims(db) && Enabled(db, e) && !e.Commit? && !e.Claim?
    ensures LocksAreClaims(Next(db, e))
  {
    var next := Next(db, e);
    forall k | k in next.locks ensures LockIsClaim(next, k) {
      CountersOnlyGrow(db, e, k);
      assert LockIsClaim(db, k);
    }
    forall t ensures ClaimIsLocked(next, t) {
      assert ClaimIsLocked(db, t);
    }
  }

  lemma {:induction false} RunsKeepConsistent(db: Db, events: seq<Event>)
    requires Consistent(db) && Runs(db, events)
    ensures Consistent(After(db, events)) && Remembers(db, After(db, events))
    decreases |events|
  {
    if events != [] {
      StepKeepsConsistent(db, events[0]);
      RunsKeepConsistent(Next(db, events[0]), events[1..]);
    }
  }

  // ---------- Main results ----------

  /** Under every interleaving, no two records of a tenant carry the same formatted number. */
  lemma NumbersUnique(events: seq<Event>, a: RecordId, b: RecordId)
    requires Runs(EMPTY, events)
    requires var db := After(EMPTY, events);
      && a in db.records && b in db.records && db.records[a].tenantId == db.records[b].tenantId
      && db.records[a].recordNumber.Some? && db.records[a].recordNumber == db.records[b].recordNumber
    ensures a == b
  {
    RunsKeepConsistent(EMPTY, events);
    var db := After(EMPTY, events);
    assert Owns(db, a, db.records[a]) && Owns(db, b, db.records[b]);
  }

  /**
   * A number once committed stays with its record for good: whatever follows, deletion included, no
   * other record gets it.
   */
  lemma NeverReissued(earlier: seq<Event>, later: seq<Event>, a: RecordId, b: RecordId)
    requires Runs(EMPTY, earlier) && Runs(After(EMPTY, earlier), later)
    requires var before := After(EMPTY, earlier); var after := After(before, later);
      && a in before.records && b in after.records && before.records[a].tenantId == after.records[b].tenantId
      && before.records[a].recordNumber.Some? && before.records[a].recordNumber == after.records[b].recordNumber
    ensures a == b
  {
    RunsKeepConsistent(EMPTY, earlier);
    var before := After(EMPTY, earlier);
    RunsKeepConsistent(before, later);
    var after := After(before, later);
    assert Owns(before, a, before.records[a]) && Owns(after, b, after.records[b]);
  }

  // ---------- What is written ----------

  /**
   * The number reads back as this value of the series that clients, or cases, are numbered in; other
   * kinds have none.
   */
  ghost predicate NumberedAs(kind: EntityType, number: Option<string>, value: Option<nat>) {
    && (kind == Person || kind == Organization ==>
          value.Some? && number.Some? && ParseRecordNumber(number.value) == Some((CL, value.value)))
    && (kind == Case ==> value.Some? && number.Some? && ParseRecordNumber(number.value) == Some((CS, value.value)))
    && (kind == Lead || kind.Unnumbered? ==> number.None?)
  }

  /**
   * What each kind of commit leaves in the row: a number drawn by whatever had none and needs one, and
   * nothing lost.
   */
  lemma CommitWrites(db: Db, tx: TxId)
    requires Consistent(db) && Enabled(db, Commit(tx))
    ensures var w, drawn := db.txs[tx].work, db.txs[tx].claimed;
      && w.id in Next(db, Commit(tx)).records
      && var r := Next(db, Commit(tx)).records[w.id];
      && (w.Creating? || w.Importing? ==>
            r.tenantId == w.tenantId && r.kind == w.kind && NumberedAs(w.kind, r.recordNumber, drawn))
      && (w.Converting? ==> r.tenantId == w.snapshot.tenantId && r.kind == w.toKind)
      && (w.Converting? && w.snapshot.recordNumber.None? ==> NumberedAs(w.toKind, r.recordNumber, drawn))
      && (w.Converting? && w.snapshot.recordNumber.Some? ==> r.recordNumber == w.snapshot.recordNumber)
      && (w.Updating? ==> r == w.snapshot)
  {
    var t := db.txs[tx];
    if Wanted(t.work).Some? {
      RecordNumberRoundTrip(Wanted(t.work).value.series, t.claimed.value);
    }
    assert ClaimIsLocked(db, tx) && ImportIsAlone(db, tx);
  }

  /** What a claim draws: the counter of the tenant's clients, or cases, plus one. */
  lemma ClaimDrawsNext(db: Db, e: Event)
    requires Enabled(db, e) && (e.Claim? || e.ClaimForImport?)
    ensures var w := db.txs[e.tx].work; var kind := if w.Converting? then w.toKind else if w.Updating? then Lead
        else w.kind;
      var tenantId := if w.Converting? then w.snapshot.tenantId else if w.Updating? then "" else w.tenantId;
      && (kind == Person || kind == Organization || kind == Case)
      && var key := Key(tenantId, if kind == Case then CS else CL);
      && Next(db, e).txs[e.tx].claimed == Some((if key in db.counters then db.counters[key] else 0) + 1)
  {
  }

  /** Until it ends, a transaction keeps the work it began with and the number it has drawn. */
  lemma ClaimStays(db: Db, e: Event, t: TxId)
    requires Enabled(db, e) && t in db.txs && t in Next(db, e).txs
    ensures Next(db, e).txs[t].work == db.txs[t].work
    ensures db.txs[t].claimed.Some? ==> Next(db, e).txs[t].claimed == db.txs[t].claimed
  {
  }

  lemma {:induction false} ClaimStaysAlong(db: Db, events: seq<Event>, t: TxId)
    requires Runs(db, events) && t in db.txs && db.txs[t].claimed.Some?
    requires Commit(t) !in events && Rollback(t) !in events
    ensures t in After(db, events).txs
    ensures After(db, events).txs[t].work == db.txs[t].work && After(db, events).txs[t].claimed == db.txs[t].claimed
    decreases |events|
  {
    if events != [] {
      assert events[0] in events;
      ClaimStays(db, events[0], t);
      ClaimStaysAlong(Next(db, events[0]), events[1..], t);
    }
  }

  /**
   * Along every run: the row a creation or an import commits, as an interleaving goes on between
   * its claim and its commit, carries the number after the counter as it stood at the claim.
   */
  lemma CommitWritesTheClaim(db: Db, claim: Event, between: seq<Event>, tx: TxId)
    requires Consistent(db) && Enabled(db, claim) && (claim == Claim(tx) || claim == ClaimForImport(tx))
    requires var w := db.txs[tx].work; w.Creating? || w.Importing?
    requires Runs(Next(db, claim), between) && Commit(tx) !in between && Rollback(tx) !in between
    requires Enabled(After(Next(db, claim), between), Commit(tx))
    ensures var w := db.txs[tx].work; var key := Key(w.tenantId, if w.kind == Case then CS else CL);
      var records := Next(After(Next(db, claim), between), Commit(tx)).records;
      && w.id in records && records[w.id].tenantId == w.tenantId && records[w.id].kind == w.kind
      && NumberedAs(w.kind, records[w.id].recordNumber, Some((if key in db.counters then db.counters[key] else 0) + 1))
  {
    var begun := Next(db, claim);
    var at := After(begun, between);
    assert Consistent(at) by {
      StepKeepsConsistent(db, claim);
      RunsKeepConsistent(begun, between);
    }
    ClaimDrawsNext(db, claim);
    ClaimStays(db, claim, tx);
    ClaimStaysAlong(begun, between, tx);
    InsertedAtCommit(at, tx, db.txs[tx].work, begun.txs[tx].claimed);
  }

  lemma InsertedAtCommit(db: Db, tx: TxId, w: Work, drawn: Option<nat>)
    requires Consistent(db) && Enabled(db, Commit(tx)) && db.txs[tx].work == w && db.txs[tx].claimed == drawn
    requires w.Creating? || w.Importing?
    ensures var records := Next(db, Commit(tx)).records;
      && w.id in records && records[w.id].tenantId == w.tenantId && records[w.id].kind == w.kind
      && NumberedAs(w.kind, records[w.id].recordNumber, drawn)
  {
    CommitWrites(db, tx);
  }

  /** Six digits at least, led by the series. */
  lemma FirstNumber()
    ensures FormatRecordNumber(CL, 1) == "CL-000001" && FormatRecordNumber(CS, 1) == "CS-000001"
  {
    assert Render(1) == "1";
    assert PadStart("1", 6) == "000001";
  }

  ghost predicate Carries(db: Db, id: RecordId, tenantId: string, number: string) {
    id in db.records && db.records[id].tenantId == tenantId && db.records[id].recordNumber == Some(number)
  }

  lemma IssuingCommitWrites(db: Db, e: Event, tenantId: string, number: string)
    requires Enabled(db, e) && (tenantId, number) !in db.issued && (tenantId, number) in Next(db, e).issued
    ensures e.Commit? && Carries(Next(db, e), Next(db, e).issued[(tenantId, number)], tenantId, number)
  {
  }

  lemma OneEvent(db: Db, events: seq<Event>)
    requires Runs(db, events) && events != []
    ensures Runs(db, events[..1]) && After(db, events[..1]) == Next(db, events[0])
  {
    AfterNone(Next(db, events[0]));
    AfterStep(db, events[0], []);
    assert events[..1] == [events[0]] + [];
  }

  /** Every number issued along a run was written to its record, by the commit that issued it. */
  lemma {:induction false} IssuedWasWritten(db: Db, events: seq<Event>, tenantId: string,
                                            number: string) returns (k: nat)
    requires Consistent(db) && Runs(db, events)
    requires (tenantId, number) !in db.issued && (tenantId, number) in After(db, events).issued
    ensures k < |events| && events[k].Commit? && Runs(db, events[..k + 1])
    ensures Carries(After(db, events[..k + 1]), After(db, events).issued[(tenantId, number)], tenantId, number)
    decreases |events|
  {
    var e := events[0];
    var next := Next(db, e);
    StepKeepsConsistent(db, e);
    if (tenantId, number) in next.issued {
      k := 0;
      RunsKeepConsistent(next, events[1..]);
      IssuingCommitWrites(db, e, tenantId, number);
      OneEvent(db, events);
    } else {
      k := IssuedWasWritten(next, events[1..], tenantId, number);
      PrefixStep(db, events, k);
      k := k + 1;
    }
  }

  lemma PrefixStep(db: Db, events: seq<Event>, k: nat)
    requires k + 1 < |events| && Enabled(db, events[0]) && Runs(Next(db, events[0]), events[1..][..k + 1])
    ensures Runs(db, events[..k + 2])
    ensures After(db, events[..k + 2]) == After(Next(db, events[0]), events[1..][..k + 1])
  {
    assert events[..k + 2] == [events[0]] + events[1..][..k + 1];
    AfterStep(db, events[0], events[1..][..k + 1]);
  }

  // ---------- Gaps ----------

  ghost predicate Issued(db: Db, key: Key, n: nat) { (key.tenantId, FormatRecordNumber(key.series, n)) in db.issued }

  /** Some import under way has claimed the number. */
  ghost predicate Awaited(db: Db, key: Key, n: nat) { exists t :: HoldsImport(db, t, key, n) }

  /** Every number up to the counter is issued. */
  ghost predicate GapFree(db: Db, key: Key) {
    forall n: nat :: 1 <= n <= Counter(db, key) ==> Issued(db, key, n)
  }

  ghost predicate Filled(db: Db, key: Key) {
    forall n: nat :: 1 <= n <= Counter(db, key) ==> Issued(db, key, n) || Awaited(db, key, n)
  }

  /** Behind the counter, not issued, and with nobody left to issue it. */
  ghost predicate Burned(db: Db, key: Key, n: nat) {
    1 <= n <= Counter(db, key) && !Issued(db, key, n) && !Awaited(db, key, n)
  }

  /** An import of the series that has claimed fails to insert. */
  ghost predicate FailsImport(db: Db, e: Event, key: Key) {
    && e.Rollback? && e.tx in db.txs && db.txs[e.tx].work.Importing?
    && Wanted(db.txs[e.tx].work) == Some(key) && db.txs[e.tx].claimed.Some?
  }

  ghost predicate NoImportFails(db: Db, events: seq<Event>, key: Key)
    requires Runs(db, events)
    decreases |events|
  {
    events == [] || (!FailsImport(db, events[0], key) && NoImportFails(Next(db, events[0]), events[1..], key))
  }

  /** Whether a step issues a number that was not issued: only the commit that drew it does. */
  ghost predicate Issues(db: Db, e: Event, key: Key, n: nat) {
    && e.Commit? && e.tx in db.txs && Wanted(db.txs[e.tx].work) == Some(key) && db.txs[e.tx].claimed == Some(n)
  }

  lemma IssuedAfter(db: Db, e: Event, key: Key, n: nat)
    requires Enabled(db, e)
    ensures Issued(Next(db, e), key, n) <==> Issued(db, key, n) || Issues(db, e, key, n)
  {
    if e.Commit? && Wanted(db.txs[e.tx].work).Some? && db.txs[e.tx].claimed.Some? {
      var drawnKey, drawn := Wanted(db.txs[e.tx].work).value, db.txs[e.tx].claimed.value;
      if (key.tenantId, FormatRecordNumber(key.series, n))
          == (drawnKey.tenantId, FormatRecordNumber(drawnKey.series, drawn)) {
        RecordNumberInjective(key.series, n, drawnKey.series, drawn);
      }
    }
  }

  lemma HeldAfter(db: Db, e: Event, t: TxId, key: Key, n: nat)
    requires Enabled(db, e)
    ensures HoldsImport(Next(db, e), t, key, n)
       <==> || (HoldsImport(db, t, key, n) && e != Commit(t) && e != Rollback(t))
            || (e == ClaimForImport(t) && Wanted(db.txs[t].work) == Some(key) && n == Counter(db, key) + 1)
  {
  }

  lemma CounterAfter(db: Db, e: Event, key: Key)
    requires LocksAreClaims(db) && Enabled(db, e)
    ensures var claims := e.ClaimForImport? && Wanted(db.txs[e.tx].work) == Some(key);
      var draws :=
        && e.Commit? && !db.txs[e.tx].work.Importing?
        && Wanted(db.txs[e.tx].work) == Some(key) && db.txs[e.tx].claimed.Some?;
      && Counter(Next(db, e), key) == Counter(db, key) + (if claims || draws then 1 else 0)
      && (draws ==> db.txs[e.tx].claimed == Some(Counter(db, key) + 1))
  {
    if e.Commit? {
      assert ClaimIsLocked(db, e.tx);
      assert key in db.locks ==> LockIsClaim(db, key);
    }
  }

  /** A number without an issuer stays without one. */
  lemma BurnedStays(db: Db, e: Event, key: Key, n: nat)
    requires Consistent(db) && Enabled(db, e) && Burned(db, key, n)
    ensures Burned(Next(db, e), key, n)
  {
    IssuedAfter(db, e, key, n);
    CounterAfter(db, e, key);
    if Issues(db, e, key, n) && db.txs[e.tx].work.Importing? {
      assert HoldsImport(db, e.tx, key, n);
    }
    forall t ensures !HoldsImport(Next(db, e), t, key, n) { HeldAfter(db, e, t, key, n); }
  }

  lemma {:induction false} BurnedForGood(db: Db, events: seq<Event>, key: Key, n: nat)
    requires Consistent(db) && Runs(db, events) && Burned(db, key, n)
    ensures Burned(After(db, events), key, n)
    decreases |events|
  {
    if events != [] {
      BurnedStays(db, events[0], key, n);
      StepKeepsConsistent(db, events[0]);
      BurnedForGood(Next(db, events[0]), events[1..], key, n);
    }
  }

  lemma FailureBurns(db: Db, e: Event, key: Key)
    requires Consistent(db) && Enabled(db, e) && FailsImport(db, e, key)
    ensures Burned(Next(db, e), key, db.txs[e.tx].claimed.value)
  {
    var n := db.txs[e.tx].claimed.value;
    assert ImportIsAlone(db, e.tx);
    CounterAfter(db, e, key);
    forall t ensures !HoldsImport(Next(db, e), t, key, n) { HeldAfter(db, e, t, key, n); }
  }

  lemma StepKeepsFilled(db: Db, e: Event, key: Key)
    requires Consistent(db) && Enabled(db, e) && Filled(db, key) && !FailsImport(db, e, key)
    ensures Filled(Next(db, e), key)
  {
    var next := Next(db, e);
    CounterAfter(db, e, key);
    forall n: nat | 1 <= n <= Counter(next, key) ensures Issued(next, key, n) || Awaited(next, key, n) {
      IssuedAfter(db, e, key, n);
      if n == Counter(db, key) + 1 {
        if e.ClaimForImport? { HeldAfter(db, e, e.tx, key, n); }
      } else if !Issued(db, key, n) {
        var t :| HoldsImport(db, t, key, n);
        HeldAfter(db, e, t, key, n);
      }
    }
  }

  lemma {:induction false} FilledIffNoImportFails(db: Db, events: seq<Event>, key: Key)
    requires Consistent(db) && Runs(db, events) && Filled(db, key)
    ensures Filled(After(db, events), key) <==> NoImportFails(db, events, key)
    decreases |events|
  {
    if events != [] {
      var e := events[0];
      StepKeepsConsistent(db, e);
      if FailsImport(db, e, key) {
        FailureBurns(db, e, key);
        BurnedForGood(Next(db, e), events[1..], key, db.txs[e.tx].claimed.value);
      } else {
        StepKeepsFilled(db, e, key);
        FilledIffNoImportFails(Next(db, e), events[1..], key);
      }
    }
  }

  /**
   * The numbers of a series are gap-free exactly when the insert of every import claim of the
   * series has landed: none failed along the run, and none is still to come. Transactions that
   * roll back burn nothing.
   */
  lemma GapFreeIff(events: seq<Event>, key: Key)
    requires Runs(EMPTY, events)
    ensures GapFree(After(EMPTY, events), key)
       <==> NoImportFails(EMPTY, events, key) && forall n: nat :: !Awaited(After(EMPTY, events), key, n)
  {
    RunsKeepConsistent(EMPTY, events);
    FilledIffNoImportFails(EMPTY, events, key);
    var db := After(EMPTY, events);
    if GapFree(db, key) {
      forall t, n: nat ensures !HoldsImport(db, t, key, n) {
        assert ImportIsAlone(db, t);
        assert HoldsImport(db, t, key, n) ==> 1 <= n <= Counter(db, key) && !Issued(db, key, n);
      }
    }
  }

  /** No number is issued beyond the counter, imports and all. */
  lemma IssuedIsBehindCounter(events: seq<Event>, key: Key, n: nat)
    requires Runs(EMPTY, events) && Issued(After(EMPTY, events), key, n)
    ensures 1 <= n <= Counter(After(EMPTY, events), key)
  {
    RunsKeepConsistent(EMPTY, events);
  }

  // ---------- What a record keeps ----------

  /** A committing conversion or update leaves a record its number exactly when the row it read still had it. */
  lemma CommitKeepsNumber(db: Db, tx: TxId)
    requires Consistent(db) && Enabled(db, Commit(tx))
    requires var w := db.txs[tx].work; !w.Inserts() && w.id in db.records && db.records[w.id].recordNumber.Some?
    ensures var w := db.txs[tx].work;
      Next(db, Commit(tx)).records[w.id].recordNumber == db.records[w.id].recordNumber
      <==> w.snapshot.recordNumber == db.records[w.id].recordNumber
  {
    var t := db.txs[tx];
    var w := t.work;
    assert Owns(db, w.id, db.records[w.id]) && StaysWithTenant(db, tx);
    if DrawnNumber(t).Some? {
      CommitIssuesNew(db, tx);
    }
  }

  /**
   * The number was issued to this record, and all that is under way for it is conversions and updates
   * in its tenant.
   */
  ghost predicate Established(db: Db, id: RecordId, tenantId: string, number: string) {
    && id in db.usedIds
    && (tenantId, number) in db.issued && db.issued[(tenantId, number)] == id
    && (id in db.records ==> db.records[id].tenantId == tenantId)
    && (forall t :: t in db.txs && db.txs[t].work.id == id ==>
          !db.txs[t].work.Inserts() && TenantOf(db.txs[t].work) == tenantId)
  }

  lemma HolderIsEstablished(db: Db, id: RecordId, number: string)
    requires Consistent(db) && id in db.records && db.records[id].recordNumber == Some(number)
    ensures Established(db, id, db.records[id].tenantId, number)
  {
    assert Owns(db, id, db.records[id]);
    forall t | t in db.txs && db.txs[t].work.id == id
      ensures !db.txs[t].work.Inserts() && TenantOf(db.txs[t].work) == db.records[id].tenantId
    {
      assert CreatesAlone(db, t) && StaysWithTenant(db, t);
    }
  }

  lemma StepKeepsEstablished(db: Db, e: Event, id: RecordId, tenantId: string, number: string)
    requires Consistent(db) && Enabled(db, e) && Established(db, id, tenantId, number)
    ensures Established(Next(db, e), id, tenantId, number)
  {
    StepKeepsConsistent(db, e);
  }

  /**
   * What a conversion or update of an established record commits carries the number exactly when what
   * it read did, deleted since or not.
   */
  lemma CommitWritesNumberIff(db: Db, tx: TxId, tenantId: string, number: string)
    requires Consistent(db) && Enabled(db, Commit(tx)) && Established(db, db.txs[tx].work.id, tenantId, number)
    ensures var w := db.txs[tx].work;
      Next(db, Commit(tx)).records[w.id].recordNumber == Some(number) <==> w.snapshot.recordNumber == Some(number)
  {
    var t := db.txs[tx];
    if DrawnNumber(t).Some? {
      CommitIssuesNew(db, tx);
    }
  }

  ghost predicate Holds(db: Db, id: RecordId, number: string) {
    id in db.records ==> db.records[id].recordNumber == Some(number)
  }

  /** The record, whenever it exists, has the number at every state of the run. */
  ghost predicate HeldThroughout(db: Db, events: seq<Event>, id: RecordId, number: string)
    requires Runs(db, events)
    decreases |events|
  {
    Holds(db, id, number) && (events != [] ==> HeldThroughout(Next(db, events[0]), events[1..], id, number))
  }

  /** Whatever commits on the record, conversion or update, had read the number on its row. */
  ghost predicate ReadThroughout(db: Db, events: seq<Event>, id: RecordId, number: string)
    requires Runs(db, events)
    decreases |events|
  {
    events == [] ||
    (&& (events[0].Commit? && db.txs[events[0].tx].work.id == id ==>
          !db.txs[events[0].tx].work.Inserts() && db.txs[events[0].tx].work.snapshot.recordNumber == Some(number))
     && ReadThroughout(Next(db, events[0]), events[1..], id, number))
  }

  /**
   * Over every run from a state in which a record has a number: it has that number at every
   * state of the run exactly when every conversion and update that commits on it had read that number.
   */
  lemma NumberSurvives(db: Db, events: seq<Event>, id: RecordId, number: string)
    requires Consistent(db) && Runs(db, events)
    requires id in db.records && db.records[id].recordNumber == Some(number)
    ensures HeldThroughout(db, events, id, number) <==> ReadThroughout(db, events, id, number)
  {
    HolderIsEstablished(db, id, number);
    HeldIffRead(db, events, id, db.records[id].tenantId, number);
  }

  lemma {:induction false} HeldIffRead(db: Db, events: seq<Event>, id: RecordId, tenantId: string, number: string)
    requires Consistent(db) && Runs(db, events)
    requires Established(db, id, tenantId, number) && Holds(db, id, number)
    ensures HeldThroughout(db, events, id, number) <==> ReadThroughout(db, events, id, number)
    decreases |events|
  {
    if events != [] {
      var e := events[0];
      StepKeepsConsistent(db, e);
      StepKeepsEstablished(db, e, id, tenantId, number);
      if e.Commit? && db.txs[e.tx].work.id == id {
        CommitWritesNumberIff(db, e.tx, tenantId, number);
      }
      if Holds(Next(db, e), id, number) {
        HeldIffRead(Next(db, e), events[1..], id, tenantId, number);
      }
    }
  }

  function ClaimSaveCommit(tx: TxId): seq<Event> { [Claim(tx)] + ([Save(tx)] + ([Commit(tx)] + [])) }

  /** Work that wants a number of a free counter runs through, draws the next one and writes its row. */
  lemma WorkRunsThrough(db: Db, tx: TxId, key: Key) returns (next: Db)
    requires tx in db.txs && db.txs[tx].claimed.None? && !db.txs[tx].saved
    requires !db.txs[tx].work.Importing? && Wanted(db.txs[tx].work) == Some(key) && key !in db.locks
    ensures Runs(db, ClaimSaveCommit(tx)) && next == After(db, ClaimSaveCommit(tx))
    ensures var w := db.txs[tx].work;
      next.records == db.records[w.id := WrittenRecord(Tx(w, Some(Counter(db, key) + 1), true))]
    ensures next.txs == db.txs - {tx}
    ensures key !in next.locks && Counter(next, key) == Counter(db, key) + 1
  {
    var w := db.txs[tx].work;
    var db1 := Next(db, Claim(tx));
    var db2 := Next(db1, Save(tx));
    next := Next(db2, Commit(tx));
    assert db2.txs[tx] == Tx(w, Some(Counter(db, key) + 1), true);
    AfterNone(next);
    AfterStep(db2, Commit(tx), []);
    AfterStep(db1, Save(tx), [Commit(tx)] + []);
    AfterStep(db, Claim(tx), [Save(tx)] + ([Commit(tx)] + []));
    assert next.txs == db.txs - {tx};
  }

  /** An open conversion of an unnumbered row, whose counter is free, runs through and draws the next number. */
  lemma ConversionRunsThrough(db: Db, tx: TxId, key: Key) returns (next: Db)
    requires tx in db.txs && db.txs[tx].claimed.None? && !db.txs[tx].saved
    requires db.txs[tx].work.Converting? && Wanted(db.txs[tx].work) == Some(key) && key !in db.locks
    ensures Runs(db, ClaimSaveCommit(tx)) && next == After(db, ClaimSaveCommit(tx))
    ensures var w := db.txs[tx].work;
      next.records
      == db.records[w.id := Record(w.snapshot.tenantId, w.toKind,
                                   Some(FormatRecordNumber(key.series, Counter(db, key) + 1)))]
    ensures next.txs == db.txs - {tx}
    ensures key !in next.locks && Counter(next, key) == Counter(db, key) + 1
  {
    next := WorkRunsThrough(db, tx, key);
  }

  /** A new client or case, whose counter is free, is created with the next number, in every state. */
  lemma CreationRunsThrough(db: Db, tx: TxId, id: RecordId, tenantId: string, kind: EntityType) returns (next: Db)
    requires tx !in db.txs && id !in db.usedIds && (kind == Person || kind == Organization || kind == Case)
    requires Key(tenantId, if kind == Case then CS else CL) !in db.locks
    ensures var events := [BeginCreate(tx, id, tenantId, kind)] + ClaimSaveCommit(tx);
      Runs(db, events) && next == After(db, events)
    ensures var series := if kind == Case then CS else CL;
      next.records
      == db.records[id := Record(tenantId, kind,
                                 Some(FormatRecordNumber(series, Counter(db, Key(tenantId, series)) + 1)))]
  {
    var begun := Next(db, BeginCreate(tx, id, tenantId, kind));
    next := WorkRunsThrough(begun, tx, Key(tenantId, if kind == Case then CS else CL));
    AfterStep(db, BeginCreate(tx, id, tenantId, kind), ClaimSaveCommit(tx));
  }

  /** Both transactions read the lead before either writes; the first then runs through. */
  function FirstConversion(id: RecordId, t: TxId, u: TxId): seq<Event> {
    [BeginConvert(t, id, Person)] + ([BeginConvert(u, id, Person)] + ClaimSaveCommit(t))
  }

  lemma FirstConversionRuns(db: Db, id: RecordId, t: TxId, u: TxId) returns (middle: Db)
    requires t !in db.txs && u !in db.txs && t != u
    requires id in db.records && db.records[id].kind == Lead && db.records[id].recordNumber.None?
    requires Key(db.records[id].tenantId, CL) !in db.locks
    ensures Runs(db, FirstConversion(id, t, u)) && middle == After(db, FirstConversion(id, t, u))
    ensures var lead := db.records[id]; var key := Key(lead.tenantId, CL);
      && middle.records == db.records[id := Record(lead.tenantId, Person,
          Some(FormatRecordNumber(CL, Counter(db, key) + 1)))]
      && u in middle.txs && middle.txs[u] == Tx(Converting(id, lead, Person), None, false)
      && key !in middle.locks && Counter(middle, key) == Counter(db, key) + 1
  {
    var db1 := Next(db, BeginConvert(t, id, Person));
    var db2 := Next(db1, BeginConvert(u, id, Person));
    middle := ConversionRunsThrough(db2, t, Key(db.records[id].tenantId, CL));
    AfterStep(db1, BeginConvert(u, id, Person), ClaimSaveCommit(t));
    AfterStep(db, BeginConvert(t, id, Person), [BeginConvert(u, id, Person)] + ClaimSaveCommit(t));
  }

  /**
   * In every state with an unnumbered lead and a free counter, two overlapping
   * conversions of it both draw: the first assigns a number and the second replaces it.
   */
  lemma {:induction false} OverlapReplacesNumber(db: Db, id: RecordId, t: TxId, u: TxId) returns (middle: Db, last: Db)
    requires t !in db.txs && u !in db.txs && t != u
    requires id in db.records && db.records[id].kind == Lead && db.records[id].recordNumber.None?
    requires Key(db.records[id].tenantId, CL) !in db.locks
    ensures Runs(db, FirstConversion(id, t, u)) && middle == After(db, FirstConversion(id, t, u))
    ensures Runs(middle, ClaimSaveCommit(u)) && last == After(middle, ClaimSaveCommit(u))
    ensures var n := Counter(db, Key(db.records[id].tenantId, CL));
      && id in middle.records && middle.records[id].recordNumber == Some(FormatRecordNumber(CL, n + 1))
      && id in last.records && last.records[id].recordNumber == Some(FormatRecordNumber(CL, n + 2))
      && FormatRecordNumber(CL, n + 1) != FormatRecordNumber(CL, n + 2)
  {
    var n := Counter(db, Key(db.records[id].tenantId, CL));
    middle := FirstConversionRuns(db, id, t, u);
    last := ConversionRunsThrough(middle, u, Key(db.records[id].tenantId, CL));
    if FormatRecordNumber(CL, n + 1) == FormatRecordNumber(CL, n + 2) {
      RecordNumberInjective(CL, n + 1, CL, n + 2);
    }
  }

  /** An update reads the lead, a conversion of it runs through, and the update saves what it read. */
  function StaleUpdate(id: RecordId, t: TxId, u: TxId): seq<Event> {
    [BeginUpdate(u, id)] + ([BeginConvert(t, id, Person)] + ClaimSaveCommit(t))
  }

  function SaveCommit(tx: TxId): seq<Event> { [Save(tx)] + ([Commit(tx)] + []) }

  /**
   * In every state with an unnumbered lead and a free counter, an update that read the lead
   * before its conversion takes the number away again, though the conversion itself had read
   * the row as it was.
   */
  lemma {:induction false} StaleUpdateRemovesNumber(db: Db, id: RecordId, t: TxId,
                                                    u: TxId) returns (middle: Db, last: Db)
    requires t !in db.txs && u !in db.txs && t != u
    requires id in db.records && db.records[id].kind == Lead && db.records[id].recordNumber.None?
    requires Key(db.records[id].tenantId, CL) !in db.locks
    ensures Runs(db, StaleUpdate(id, t, u)) && middle == After(db, StaleUpdate(id, t, u))
    ensures Runs(middle, SaveCommit(u)) && last == After(middle, SaveCommit(u))
    ensures id in middle.records && middle.records[id].recordNumber.Some?
    ensures id in last.records && last.records[id] == db.records[id]
  {
    middle := ConversionUnderUpdate(db, id, t, u);
    last := UpdateRunsThrough(middle, u);
  }

  lemma ConversionUnderUpdate(db: Db, id: RecordId, t: TxId, u: TxId) returns (middle: Db)
    requires t !in db.txs && u !in db.txs && t != u
    requires id in db.records && db.records[id].kind == Lead && db.records[id].recordNumber.None?
    requires Key(db.records[id].tenantId, CL) !in db.locks
    ensures Runs(db, StaleUpdate(id, t, u)) && middle == After(db, StaleUpdate(id, t, u))
    ensures id in middle.records && middle.records[id].recordNumber.Some?
    ensures u in middle.txs && middle.txs[u] == Tx(Updating(id, db.records[id]), None, false)
  {
    var db1 := Next(db, BeginUpdate(u, id));
    var db2 := Next(db1, BeginConvert(t, id, Person));
    middle := ConversionRunsThrough(db2, t, Key(db.records[id].tenantId, CL));
    AfterStep(db1, BeginConvert(t, id, Person), ClaimSaveCommit(t));
    AfterStep(db, BeginUpdate(u, id), [BeginConvert(t, id, Person)] + ClaimSaveCommit(t));
  }

  /** An open update saves the row as it read it. */
  lemma UpdateRunsThrough(db: Db, tx: TxId) returns (next: Db)
    requires tx in db.txs && db.txs[tx].work.Updating? && db.txs[tx].claimed.None? && !db.txs[tx].saved
    ensures Runs(db, SaveCommit(tx)) && next == After(db, SaveCommit(tx))
    ensures next.records == db.records[db.txs[tx].work.id := db.txs[tx].work.snapshot]
  {
    var saved := Next(db, Save(tx));
    next := Next(saved, Commit(tx));
    AfterNone(next);
    AfterStep(saved, Commit(tx), []);
    AfterStep(db, Save(tx), [Commit(tx)] + []);
  }

  lemma AfterNone(db: Db)
    ensures Runs(db, []) && After(db, []) == db
  {
  }

  lemma AfterStep(db: Db, e: Event, rest: seq<Event>)
    requires Enabled(db, e) && Runs(Next(db, e), rest)
    ensures Runs(db, [e] + rest) && After(db, [e] + rest) == After(Next(db, e), rest)
  {
    assert ([e] + rest)[1..] == rest;
  }
}
