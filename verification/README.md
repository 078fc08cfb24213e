# Kernels of the meru-core backend, verified

meru-core is a NestJS and Postgres backend. Most of it is controllers and wiring; this project
models the kernels that carry its promises, and proves what they promise:

- **Audit** (`AuditChain.dfy`, `AuditLog.dfy`): the append-only hash chain, the walk that verifies it,
  the per-row checksum, and the retention sweep, the only other writer of the table.
- **Record numbers** (`RecordNumbers.dfy`, `InvoiceNumbers.dfy`): client and case numbering as a protocol of
  transactions that claim under a row lock, in every interleaving with the importer and with updates that save
  the row they read, and the count-then-plus-one invoice numbering beside it.
- **Relations and the completion gate** (`Relations.dfy`, `CompletionGate.dfy`): typed edges with cardinality,
  traversal, blockers, and what gated closing means for whole runs.
- **Structural writers** (`DeepMerge.dfy`, `Csv.dfy`, `PdfText.dfy`, `PdfForm.dfy`, `PdfFile.dfy`, `PdfObjects.dfy`,
  `PdfPage.dfy`, `MiniPdf.dfy`, `WordWrap.dfy`): each
  against an independent definition: section 2 of RFC 7396, a reader for section 2 of RFC 4180, readers for
  sections 7.3.4.2, 7.3.8.2 and 7.5.4 of ISO 32000-1, and every order-preserving split of a paragraph.
- **Time and money** (`Calendar.dfy`, `TimeBuckets.dfy`, `Billing.dfy`, `FeeSplit.dfy`, `FeeSchedule.dfy`, `Payments.dfy`,
  `StageArrears.dfy`, `TextAmounts.dfy`):
  UTC periods and the trend over them, the credit ledger and invoices, fee splitting and expansion, the payment ledger, and
  what an expansion holds until it is settled.
- **Document review** (`Documents.dfy`, `DocumentVersions.dfy`) and the **dependency scan** (`CjsDeps.dfy`).

`Common.dfy`, `Decimal.dfy` and `PaymentRows.dfy` hold shared vocabulary. Services whose methods update rows are classes whose
methods are proved against functions of the old state; the theorems about runs are about those functions.
`dafny verify dfyconfig.toml` checks everything.

## What the proofs found

Where the code and its own documentation differ, the model follows the code.

- A valid chain pins action, entity and user field by field exactly when none of them holds a colon, whatever a
  rival log holds (`TamperEvidenceByField`): a colon can move to the neighbouring field unnoticed
  (`ColonMovesUnnoticed`). Rows that also pass the checksum test are pinned in full, whatever characters they hold
  (`FullTamperEvidence`). A chain cut short at its end stays valid, with another end hash
  (`TruncationChangesEndHash`).
- A row just written passes `verifyLogIntegrity` exactly when both states were supplied and each comes back from its
  jsonb column (src/audit/entities/audit-log.entity.ts:103-107) as the text it went in with (`FreshRowVerifies`): an
  absent state is left out of the text hashed at write time and is null when the row is hashed again, and a column
  that gives an object its keys in another order changes the text.
- An atomic `logEvent` keeps its tenant's chain valid exactly when its row is read back last (`LogKeepsChainIff`).
- `convertEntity` reads its row before its transaction opens, so two overlapping conversions of one lead both
  draw, and the second replaces the number the first assigned (`OverlapReplacesNumber`). An update that read the lead
  before its conversion takes the number away again when it saves (`StaleUpdateRemovesNumber`). Numbers stay unique
  throughout; `NumberSurvives` says exactly along which runs a record keeps its number.
- The importer claims outside the transaction of its insert (src/integrations/services/import.service.ts:303-329), so
  a series is gap-free exactly when the insert of every import claim has landed (`GapFreeIff`); a rolled back
  transaction burns nothing.
- Two sessions draw the same invoice number exactly when no invoice commits between their counts
  (`SameNumberIff`).
- The merge assigns an object verbatim over a non-object, nested nulls included, so one application is JSON Merge
  Patch exactly under `NoNullIntoNothing`; two applications always are.
- A CSV loses an empty last row: rule 2 of section 2 of RFC 4180 lets a line break end the last record, so a header
  `h` over one missing cell reads back as the header alone (`EmptyLastRowIsLost`). A row without columns reads back as
  one empty field. Every other document reads back as written (`RoundTripIff`).
- An update to `status: null` is not gated (src/crm/crm.service.ts:702-705), and the DTO lets it through
  (src/crm/dto/update-entity.dto.ts:73-75). Clearing the status of one member dissolves a deadlock
  (`ClearingDissolves`), and by clearing alone every world is emptied of open records (`ClearingEmpties`).
  `StepKeepsDeadlockIff` says exactly which updates keep a deadlock.
- `Date.UTC` takes the years 0 to 99 for the twentieth century, so truncation goes back from a date, for every
  interval, exactly outside those years (`TruncatesBackIff`), and only there is `from` in the first period.
- A paragraph that ends in white space costs one empty line exactly when a space no longer fits on its last line
  (`ParagraphSoundAndOptimal`).
- A stage of no basis points still gets a row, of amount zero, and that row holds its step until somebody settles it
  (`ExpansionHoldsItsStages`). A fee all of whose rows were cancelled still counts as billed (`RepeatAfterSettling`).
- The balance and the base price are decimal columns (src/billing/entities/credit-ledger.entity.ts:47-51,
  src/billing/entities/billing-plan.entity.ts:60-61) that nothing converts to numbers, where
  src/billing/billing.service.ts:441 converts the usage amount. If the driver hands such a column over as text, `+` at
  lines 247, 464, 470 and 478 joins: a second top-up of whole credits adds nothing or one unit of the last digit, so the
  balance is right exactly when nothing is topped up (`TopUpOntoTextIff`), and one with a fraction is refused by the
  column (`SecondPointRefused`). The results about the ledger and invoices are for numbers.
- Two overlapping uploads of a document write two versions of one number; versions stay numbered one to n exactly
  when no upload commits on a stale number (`NumberedIffFresh`).
- Usage that credits have paid for is on the next invoice all the same (`PaidUsageIsBilledAgain`).
- The remainder of an uneven split is on the first instalment (src/billing/fee-schedule.service.ts:296), not on
  the final one as src/billing/payments.controller.ts:189 says.
- `expand` ignores the plan when it looks for existing rows, though its comment says idempotent per (entity, fee,
  plan), and one existing row for any requested key makes the whole call write nothing, new keys included
  (`WritesRowsIff`); `AcceptedIff` says which calls are accepted. A key named twice in one request is billed twice
  (`CallBillsExactly`).
- `decideReview` accepts the status the document already has, though its comment excepts it; and a decision that
  a new version sets aside stands in the history twice, once from being taken and once from being set aside
  (`Document.CreateNewVersion`).

## Model

| member | source | states |
|---|---|---|
| AuditChain.PayloadsEqual | src/audit/audit.service.ts:548-567 | two chain payloads of a tenant are equal exactly when previous hash, timestamp and the colon-joined rest are; the colons inside the ISO timestamp and the tenant id make no difference |
| AuditChain.ChainPayloadIsJoined | src/audit/audit.service.ts:548-567 | the text of a chain position is previous hash, tenant, ISO timestamp, action, entity, user and checksum, in this order, with colons between |
| AuditChain.LooseFields | src/audit/audit.service.ts:557-565 | with equal-length checksums the checksum is pinned, and so is the joined text of action, entity and user before it |
| AuditChain.RowPinnedIff | src/audit/audit.service.ts:557-565 | a row is pinned against every row with a checksum of its length if and only if its action, entity and user hold no colon |
| AuditChain.DelimitedLoose | src/audit/audit.service.ts:557-565 | a row with colon-free fields and checksum shares its joined text with no other row, whatever that row holds |
| AuditChain.ColonHasDouble | src/audit/audit.service.ts:557-565 | a row with a colon in a field has a double that differs in action, entity or user and joins to the same text |
| AuditChain.GenesisIsNoPayload | src/audit/audit.service.ts:541-546 | the genesis text is never the text of a chain position |
| AuditChain.GenesisPerTenant | src/audit/audit.service.ts:541-546 | two tenants share a genesis text only if they are one |
| AuditChain.TamperEvidence | src/audit/audit.service.ts:309-360 | two valid logs of a tenant end in the same hash if and only if they have the same length and agree row by row; asks only that the texts actually hashed do not collide |
| AuditChain.GenesisIsNotEnd | src/audit/audit.service.ts:529-546 | no non-empty valid chain ends in its genesis hash |
| AuditChain.TamperEvidenceByField | src/audit/audit.service.ts:309-360 | a valid log with colon-free checksums agrees with every valid log of its end hash on timestamp, action, entityId, userId and checksum in every row if and only if its own actions, entities and users hold no colon; nothing is asked of the other log |
| AuditChain.DoubleIsRival | src/audit/audit.service.ts:329-352 | replacing a row by its double leaves the log valid with the same end hash |
| AuditChain.FullTamperEvidence | src/audit/audit.service.ts:290-360 | if every row also passes the checksum test, the whole contents agree, before and after state and both hashes included, with no condition on characters |
| AuditChain.ColonMovesUnnoticed | src/audit/audit.service.ts:557-566 | for every tenant and checksum, two one-row logs that differ in entityId and userId are both valid with the same end hash |
| AuditChain.PrefixIntact | src/audit/audit.service.ts:329-352 | every prefix of a valid chain is valid, and hashes no text the whole does not |
| AuditChain.TruncationChangesEndHash | src/audit/audit.service.ts:307-360 | a log cut short at its end still verifies, so "no gaps" does not cover the end, but its end hash is another: one kept elsewhere shows every cut |
| AuditChain.HashesDistinct | src/audit/audit.service.ts:329-352 | no two positions of a valid chain, the genesis included, carry the same hash |
| AuditChain.RowDocumentIs | src/audit/audit.service.ts:290-305 | the members hashed when a row is checked, in order, null for a state there is not |
| AuditChain.EntryDocumentIs | src/audit/audit.service.ts:60-69 | the members hashed when an entry is written: the same five and then the states supplied |
| AuditChain.FreshRowVerifies | src/audit/audit.service.ts:60-96 | a row as `logEvent` writes it passes `verifyLogIntegrity` if and only if both states were supplied and each survives its column as text |
| AuditLog.AuditService.LogEvent | src/audit/audit.service.ts:55-113 | appends exactly one row, field by field what the event says, sealed with the checksum of the entry and the hash of the tenant's last row or its genesis |
| AuditLog.AuditService.VerifyChain | src/audit/audit.service.ts:309-360 | valid exactly when every link is good, then with valid equal to total; otherwise firstBrokenAt is the earliest bad link, with everything before it intact |
| AuditLog.LogsInTimeOrder | src/audit/audit.service.ts:531-538 | a tenant's log is its rows, each as often as the table has it, by timestamp and by creation time among equal timestamps |
| AuditLog.AuditService.VerifyLogIntegrity | src/audit/audit.service.ts:290-305 | not found exactly for an unknown id; otherwise whether the stored checksum is that of the contents |
| AuditLog.AuditService.VerifyTenantLogs | src/audit/audit.service.ts:362-384 | reports exactly the ids of the tenant's rows that fail, in order, with counts that add up |
| AuditLog.FailingAre | src/audit/audit.service.ts:362-384 | an id is reported exactly if a row of that id does not carry the digest of its own contents |
| AuditLog.AuditService.Sweep | src/audit/retention.service.ts:55-116 | flips `archived` on exactly the rows older than a declared period of their tenant and changes nothing else; a tenant without a period is reported with nothing archived |
| AuditLog.SweepMeans | src/audit/retention.service.ts:55-116 | a row is due exactly if its tenant declares a period of more than zero years and it is older than that period's cutoff; the count is of the rows due and not yet archived |
| AuditLog.LogsAppend | src/audit/audit.service.ts:531-538 | a row that none of its tenant's comes after is read back last, and no other tenant's log changes |
| AuditLog.ArchivingKeepsChains | src/audit/retention.service.ts:88-95 | tables that differ in `archived` alone verify alike, for every tenant |
| AuditLog.RunsKeepChains | src/audit/audit.service.ts:55-113 | every run of atomic `logEvent` calls that land last, over any number of tenants, interleaved with sweeps, leaves every chain valid; no assumption on the hash |
| AuditLog.TimedRunsKeepChains | src/audit/audit.service.ts:55-113 | a run from an empty table whose events increase in time, or in creation time at one time, leaves every chain valid |
| AuditLog.LogKeepsChainIff | src/audit/audit.service.ts:70-80 | a row sealed after the end hash keeps its tenant's chain valid if and only if no row of the tenant comes after it |
| AuditLog.ValidThroughoutIff | src/audit/audit.service.ts:55-113 | over every run of atomic `logEvent` calls and sweeps, all chains are valid at every state if and only if every event lands last |
| AuditLog.RaceBreaksAtLater | src/audit/audit.service.ts:70-80 | two rows sealed after the same hash, whichever is inserted first: the walk is intact through the earlier and breaks at the later |
| RecordNumbers.RecordNumberRoundTrip | src/crm/record-identity.ts:63-68 | every rendered number reads back to its series and value; padding is a minimum, not a cap |
| RecordNumbers.RecordNumberInjective | src/crm/record-identity.ts:55-68 | equal renderings mean equal series and value, past six digits too |
| RecordNumbers.FirstNumber | src/crm/record-identity.ts:55-68 | the first numbers are CL-000001 and CS-000001 |
| RecordNumbers.CounterTable.ClaimRecordNumber | src/crm/record-identity.ts:101-128 | a landed upsert advances one counter by one and returns a text that reads back as the new value; one that did not land assigns nothing |
| RecordNumbers.StepKeepsConsistent | src/crm/record-identity.ts:70-100 | every step of the protocol, imports and updates included, keeps locks matched to claims, issued numbers behind the counter, import claims apart, holders owning their numbers and ids used once and in one tenant, and forgets nothing issued |
| RecordNumbers.ClaimDrawsNext | src/crm/record-identity.ts:101-128 | a claim is for a person, an organization or a case, and draws its series' counter plus one, or one where there is no counter |
| RecordNumbers.CommitWrites | src/crm/crm.service.ts:377-399 | a commit leaves the record: of a creation or import with the number claimed if it is a person, organization or case and with none otherwise; of a conversion with the number claimed or the one it had; of an update with the row it read |
| RecordNumbers.CommitWritesTheClaim | src/crm/crm.service.ts:377-399 | whatever happens between the claim of a creation or import and its commit, the record carries a text that reads back to its series and the counter plus one at the claim |
| RecordNumbers.IssuedWasWritten | src/crm/crm.service.ts:377-399 | every number a run issues stands, right after some commit of the run, on the record it was issued to |
| RecordNumbers.CreationRunsThrough | src/crm/crm.service.ts:377-399 | wherever the counter is free, beginning, claiming, saving and committing run through, and the only change to the records is the new one with the next number |
| RecordNumbers.ConvertibleMeans | src/crm/crm.service.ts:79-89 | the conversions there are |
| RecordNumbers.RunsKeepConsistent | src/crm/crm.service.ts:377-399 | so does every interleaving of begin, claim, import claim, save, commit, rollback and delete |
| RecordNumbers.NumbersUnique | src/crm/crm.service.ts:377-399 | from an empty database, under every interleaving, no two records of a tenant carry the same formatted number |
| RecordNumbers.NeverReissued | src/crm/record-identity.ts:70-100 | a number a record once held is never held by another record later, deletion included |
| RecordNumbers.GapFreeIff | src/integrations/services/import.service.ts:303-329 | from an empty database, every number up to a series' counter is issued if and only if no import of the series failed after its claim and none is still to insert; rollbacks of creations and conversions burn none |
| RecordNumbers.BurnedForGood | src/integrations/services/import.service.ts:306-312 | a number whose import failed is issued by no later run |
| RecordNumbers.IssuedIsBehindCounter | src/crm/record-identity.ts:70-100 | no number beyond the counter is ever issued |
| RecordNumbers.CommitKeepsNumber | src/crm/crm.service.ts:853-879 | a committing conversion or update leaves a record its number if and only if the row it read already had that number |
| RecordNumbers.NumberSurvives | src/crm/crm.service.ts:843-879 | over every run from a state in which a record has a number, it has it at every state if and only if every conversion and update that commits on it had read that number |
| RecordNumbers.CommitWritesNumberIff | src/crm/crm.service.ts:853-879 | what a conversion or update commits carries a number issued to its record if and only if the row it read did, whether the record was deleted since or not |
| RecordNumbers.OverlapReplacesNumber | src/crm/crm.service.ts:791-879 | in every state with an unnumbered lead and a free counter, two overlapping conversions run through and the second replaces the number of the first |
| RecordNumbers.StaleUpdateRemovesNumber | src/crm/crm.service.ts:680-759 | in every such state, an update that read the lead before a conversion of it removes the number the conversion assigned |
| InvoiceNumbers.InvoiceNumberInjective | src/billing/billing.service.ts:653-657 | equal invoice numbers of a tenant and month come from equal counts |
| InvoiceNumbers.InvoiceNumberReads | src/billing/billing.service.ts:653-657 | the head, eight characters of the tenant at most, the month, and at least six digits that read as the count plus one |
| InvoiceNumbers.SameNumberIff | src/billing/billing.service.ts:653-657 | two sessions draw the same number if and only if no invoice commits between their counts |
| InvoiceNumbers.RaceDrawsDuplicate | src/billing/billing.service.ts:653-657 | an interleaving of two sessions that draws a duplicate |
| Relations.RelationService.FindEdge | src/crm/entity-relation.service.ts:122-127 | finds an edge exactly when there is one |
| Relations.RelationService.EnforceCardinality | src/crm/entity-relation.service.ts:338-370 | refuses a taken source unless many_to_many, and a taken target for one_to_one only |
| Relations.LinkAcceptedIff | src/crm/entity-relation.service.ts:80-142 | accepted if and only if the ends differ, are there, readable and of the types of the first definition of the key, and the edge is there already or no edge of the key takes its source, nor its target if one_to_one |
| Relations.UndefinedLinksNothing | src/crm/entity-relation.service.ts:80-100 | a key without a definition is refused for that, unless the two ends are one |
| Relations.RelationService.Link | src/crm/entity-relation.service.ts:80-142 | the whole new table, the new edge field by field, every refusal in the source's order, and soundness kept |
| Relations.RelationService.Unlink | src/crm/entity-relation.service.ts:144-154 | what stays is every edge that differs in key, source or target; or an unreadable source is refused and nothing changes; soundness kept |
| Relations.RelationService.AssertCompletable | src/crm/entity-relation.service.ts:306-336 | refuses exactly when there is an open blocker, readable or not, with the true count |
| Relations.BlockersAre | src/crm/entity-relation.service.ts:272-301 | what is counted is the targets of the record's edges under a blocking definition whose status is open, in progress or blocked |
| Relations.LinkKeepsSound | src/crm/entity-relation.service.ts:80-142 | linking keeps: no self-edge, no duplicate, one_to_one a partial injection, one_to_many one outgoing edge per source |
| Relations.SoundTables | src/crm/entity-relation.service.ts:80-142 | no edge of a sound table joins a record to itself, and no two agree in key, source and target |
| Relations.SoundCardinality | src/crm/entity-relation.service.ts:338-370 | no two edges of a one_to_one or one_to_many key share a source, and none of a one_to_one key a target |
| Relations.LinkIdempotent | src/crm/entity-relation.service.ts:122-127 | once linked, linking again by anybody changes nothing, and is refused exactly to who cannot read both ends |
| Relations.FilterKeepsSound | src/crm/entity-relation.service.ts:144-154 | removing any edges keeps the table sound |
| Relations.TraversalMirrors | src/crm/entity-relation.service.ts:163-231 | for an actor who reads both ends, y is outgoing from x exactly when x is incoming to y, exactly when the edge exists |
| Relations.NeighboursAre | src/crm/entity-relation.service.ts:163-231 | every neighbour shown is a readable record at the other end of an edge in that direction, with its own contents and the label of the edge's key |
| Relations.LabelsOf | src/crm/entity-relation.service.ts:185-231 | the labels are those of the last definition of the key; an inverse without a label is named after the title |
| Relations.TraversalHidesUnreadable | src/crm/entity-relation.service.ts:185-201 | a record the actor may not read appears in no traversal |
| CompletionGate.CrmService.UpdateEntity | src/crm/crm.service.ts:660-764 | refused exactly for a missing or unwritable record, or a transition from an unfinished into a finished status while the pack is consulted and some blocking edge leads to an open record; otherwise the status is what the update says and nothing else changes |
| CompletionGate.RunsKeepSound | src/crm/entity-relation.service.ts:80-154 | every run of links, unlinks and updates keeps the relation table sound |
| CompletionGate.StepKeepsDeadlockIff | src/crm/crm.service.ts:702-729 | a link or update of any kind keeps a deadlocked set if and only if it is not an accepted update that clears a member's status or finishes a member without the pack |
| CompletionGate.DeadlockedThroughoutIff | src/crm/crm.service.ts:702-729 | over every run of links and updates of any kind, the set is deadlocked throughout if and only if no step releases a member |
| CompletionGate.DeadlockIsForever | src/crm/crm.service.ts:702-714 | along every run of links and gated updates that clear no status, open records each with a blocking edge into the set stay open forever |
| CompletionGate.ClearingDissolves | src/crm/crm.service.ts:702-729 | clearing the status of any member of any deadlocked set is accepted from staff and dissolves it |
| CompletionGate.ClearingEmpties | src/crm/crm.service.ts:702-729 | from every world, clearing alone leaves nothing open |
| Relations.ShownAgainstCounted | src/crm/entity-relation.service.ts:240-301 | what a caller is shown is never more than the gate counts, all of it if and only if every open blocker is readable, and nothing if and only if none is |
| Relations.ShownAre | src/crm/entity-relation.service.ts:240-301 | who may read the record is shown the open records that hold it and that they may read; anyone else is told it is not there |
| CompletionGate.AllCanClose | src/crm/crm.service.ts:702-714 | with no deadlocked set, constructs a run of gated closes after which nothing is open |
| CompletionGate.CloseableIffNoDeadlock | src/crm/crm.service.ts:697-714 | some run of gated updates that clear no status closes everything if and only if no set of open records is deadlocked |
| CompletionGate.DeadlockIffCycle | src/crm/entity-relation.service.ts:272-301 | there is a deadlocked set if and only if blocking edges among open records form a cycle |
| CompletionGate.CloseableIffAcyclic | src/crm/crm.service.ts:697-714 | some run of gated updates that clear no status closes everything if and only if the blocking edges among open records are acyclic |
| DeepMerge.DeepMerge | src/common/deep-merge.ts:30-61 | the loop over the patch, in any order of its keys, yields the merge defined key by key |
| DeepMerge.MergedKeyByKey | src/common/deep-merge.ts:30-61 | a prototype key, an absent or an undefined one keeps what the base has, null removes the key, two objects merge, and anything else is what the patch sends |
| DeepMerge.TwiceIsMergePatch | src/common/deep-merge.ts:30-61 | applied twice it is JSON Merge Patch (section 2 of RFC 7396), for every base and every patch without forbidden keys |
| DeepMerge.MergePatchIsStable | src/common/deep-merge.ts:30-61 | what JSON Merge Patch yields is a fixed point of the merge |
| DeepMerge.ThirdChangesNothing | src/common/deep-merge.ts:30-61 | a third application changes nothing |
| DeepMerge.OnceIsMergePatchIff | src/common/deep-merge.ts:52-57 | one application is JSON Merge Patch if and only if no null of the patch lies below a key at which the base has no object |
| DeepMerge.NullIntoNothing | src/common/deep-merge.ts:52-57 | the smallest patch that one application gets wrong: the null below a missing key stays |
| DeepMerge.VerbatimIffNullFree | src/common/deep-merge.ts:57 | assigning an object verbatim is what the standard does if and only if it holds no null |
| DeepMerge.UnmentionedSurvives | src/common/deep-merge.ts:8-20 | every path the patch does not mention survives, at every depth, for every base and patch |
| DeepMerge.LeavesLand | src/common/deep-merge.ts:36-58 | every leaf the patch sends under permitted keys is what the result holds there |
| DeepMerge.ForbiddenKeysKept | src/common/deep-merge.ts:1-6 | a key of the prototype chain is never written at the level where the patch sends it |
| Csv.ToCsv | src/common/csv.ts:54-60 | an RFC 4180 reader gets exactly the defused texts, row by row, if and only if no line is without columns and a last row is not a single empty text; what it gets otherwise is stated too; and field by field it reads each header and cell as its own text, behind an apostrophe where that begins in a formula prefix |
| Csv.NeverFormula | src/common/csv.ts:34-36 | no text begins with a formula prefix, and it is the value's own text with at most an apostrophe before it |
| Csv.PlainFieldsUnquoted | src/common/csv.ts:38-45 | a text without comma, quote or line break is written as it stands |
| Csv.FieldReadsBack | src/common/csv.ts:24-45 | whatever follows it, a field reads back to its defused text |
| Csv.LineReadsBack | src/common/csv.ts:55-58 | so does every line of at least one field, before a line break or the end |
| Csv.DocumentReadsBack | src/common/csv.ts:54-60 | for every list of rows, what a reader with an optional final line break gets: all of them but an empty last one, a row without columns as one empty field |
| Csv.RoundTripIff | src/common/csv.ts:54-60 | the round trip holds if and only if no line is without columns, and no last line after another is a single empty field |
| Csv.EmptyLastRowIsLost | src/common/csv.ts:54-60 | a header and one row with a missing cell are written as the header and a line break, and read back as the header alone |
| PdfText.FoldedIsWinAnsi | scripts/lib/mini-pdf.js:35-43 | folded text holds only characters WinAnsi draws, none of them a control character |
| PdfText.DrawableUntouched | scripts/lib/mini-pdf.js:35-43 | text WinAnsi draws as it stands is not changed, but for the no-break space |
| PdfText.FoldStep | scripts/lib/mini-pdf.js:35-43 | the six passes fold each character on its own: quotes, dashes, the ellipsis and the no-break space to ASCII, what WinAnsi draws to itself, everything else to a question mark |
| PdfText.EscapeStep | scripts/lib/mini-pdf.js:17-27 | the three passes escape each character on its own: none escapes an escape |
| PdfText.EscapedReadsBack | scripts/lib/mini-pdf.js:22-27 | reading a literal string (section 7.3.4.2 of ISO 32000-1) gives the text back and stops at the parenthesis the writer put there |
| PdfText.ShownReadsBack | scripts/lib/mini-pdf.js:68-72 | for every text, what is shown is the folded text |
| PdfFile.EntryIsTwentyBytes | scripts/lib/mini-pdf.js:135-137 | a table entry takes 20 bytes if and only if its offset is below ten digits |
| PdfFile.TableReadsBack | scripts/lib/mini-pdf.js:133-138 | reading 20-byte entries after the free one gives every offset the writer put there |
| PdfFile.FindsEveryObject | scripts/lib/mini-pdf.js:126-144 | startxref points at the table and the table's entry for every object at its header, for every file shorter than ten billion bytes |
| MiniPdf.OperatorShowsText | scripts/lib/mini-pdf.js:64-73 | behind the operands of a text operator a viewer reads the folded text, whatever parentheses it holds |
| MiniPdf.PageShowsDocument | scripts/lib/mini-pdf.js:60-103 | reading font, size, baseline and text of every operator of the drawn stream, in order, gives the folded title, the folded lines that fit above the bottom margin, each at its baseline, and the folded footer; which lines fit is stated by heights alone |
| MiniPdf.LinesNeverOverlap | scripts/lib/mini-pdf.js:60-95 | for every title and lines, no two lines overlap and none crosses a margin |
| PdfObjects.StreamReadsBack | scripts/lib/mini-pdf.js:113-115 | the stated length is the stream's byte count: reading by it gives the stream, whatever it contains and whatever follows |
| PdfObjects.ReferencesResolve | scripts/lib/mini-pdf.js:107-141 | read back from the file, the trailer names the catalog, the catalog the page tree, the tree its page, and the page its parent, written before it exists, its two fonts and its contents |
| PdfObjects.ViewerSeesStream | scripts/lib/mini-pdf.js:105-144 | from nothing but the file, following startxref, the trailer and every reference gives the page's stream and both fonts |
| PdfFile.TrailerReadsBack | scripts/lib/mini-pdf.js:133-141 | behind as many entries as the table says it has, the trailer gives the number of objects and the root |
| PdfForm.NumbersReadBack | scripts/lib/mini-pdf.js:118-124 | the numbers a writer puts between fixed texts read back, whatever follows |
| MiniPdf.Draw | scripts/lib/mini-pdf.js:60-103 | the moving cursor draws the same operators as the page defined line by line, and read back they show the title, the lines that fit and the footer |
| MiniPdf.Assemble | scripts/lib/mini-pdf.js:105-144 | every object of the assembled file is found through startxref and the table, and a viewer arrives at its stream and fonts |
| MiniPdf.BuildPdf | scripts/lib/mini-pdf.js:53-144 | the same for every title, line list and footer; and from nothing but the file a viewer reads the folded title, the folded lines that fit and the folded footer, each at its place |
| WordWrap.NoEmptyWordsIff | src/documents/document-generation.service.ts:705 | splitting at white space leaves no empty word if and only if the paragraph begins and ends in something else |
| WordWrap.SplitSpacesMeans | src/documents/document-generation.service.ts:705 | the words hold none of the six white space characters, and the text is these words with nothing but white space, at least one character, between each two |
| WordWrap.Wrap | src/documents/document-generation.service.ts:695-717 | the nested loops yield the greedy lines of each paragraph, one paragraph after the other, the paragraphs being what stands between line breaks |
| WordWrap.WidthOfOne | src/documents/document-generation.service.ts:706-708 | every character counts with its own width |
| WordWrap.WrapSoundAndOptimal | src/documents/document-generation.service.ts:695-717 | the lines are the words in order, each fits unless it is one word, and no other order-preserving split into fitting lines uses fewer, for every additive width |
| WordWrap.ParagraphSoundAndOptimal | src/documents/document-generation.service.ts:703-715 | the same for every paragraph with a word: white space before the first is harmless, after the last it costs one empty line if and only if a space no longer fits |
| WordWrap.WordsBetweenSpaces | src/documents/document-generation.service.ts:705 | splitting leaves an empty word for each end in white space and nowhere else |
| WordWrap.BlankParagraph | src/documents/document-generation.service.ts:703-715 | a paragraph of white space alone is one empty line |
| WordWrap.Ahead | src/documents/document-generation.service.ts:705-713 | greedy's unfinished line always reaches at least as far as any rival's, so it never needs more lines |
| WordWrap.Truncate | src/documents/document-generation.service.ts:719-726 | untouched when it fits; otherwise the longest beginning, of at least one character, that fits with the ellipsis |
| Calendar.ClosedForm | src/analytics/pack-dashboard.service.ts:615-638 | the leap-year formula of section 21.4.1 of ECMA-262 is the count of days year by year, for every year |
| Calendar.MonthLength | src/analytics/pack-dashboard.service.ts:615-638 | consecutive months lie one month's days apart, over the end of a year too |
| Calendar.MonthTable | src/analytics/pack-dashboard.service.ts:615-638 | the day of the year on which each month begins, in common and in leap years |
| Calendar.WeekDaysCycle | src/analytics/pack-dashboard.service.ts:622-629 | the epoch is a Thursday, and the days of the week follow each other |
| Calendar.MonthOfUnique | src/analytics/pack-dashboard.service.ts:615-621 | a day falls in exactly one month of one year |
| TimeBuckets.AdvanceIsNext | src/analytics/pack-dashboard.service.ts:632-638 | one step from an aligned time is aligned, later, and nothing aligned lies between |
| TimeBuckets.AlignedMeans | src/analytics/pack-dashboard.service.ts:615-638 | aligned is a multiple of a day; for weeks one four days past a multiple of seven, a Monday; for months the first of one |
| TimeBuckets.TruncateIsFloor | src/analytics/pack-dashboard.service.ts:615-630 | outside the years 0 to 99, truncation is the last aligned time up to the date |
| TimeBuckets.EarlyYearsTruncateLate | src/analytics/pack-dashboard.service.ts:616-628 | in the years 0 to 99 truncation lands after the date, whatever the interval |
| TimeBuckets.EarlyYearsAreTwentieth | src/analytics/pack-dashboard.service.ts:616-628 | there it is what it is for the same date nineteen hundred years later |
| TimeBuckets.TruncatesBackIff | src/analytics/pack-dashboard.service.ts:615-630 | for every date and interval, truncation goes back from the date if and only if the year is not one of 0 to 99 |
| TimeBuckets.BuildPeriods | src/analytics/pack-dashboard.service.ts:593-613 | periods are aligned, contiguous, half-open and strictly increasing, begin at the truncated start, cover to the end when under the cap of 400, and hold `from` if and only if its year is not one of 0 to 99 |
| TimeBuckets.ExactlyOneBucket | src/analytics/pack-dashboard.service.ts:585-587 | every time of the union falls in exactly one period |
| TimeBuckets.PopulationsSum | src/analytics/pack-dashboard.service.ts:283-298 | bucket populations sum to the rows dated in the union: none lost, none twice |
| TimeBuckets.CountTrendConserves | src/analytics/pack-dashboard.service.ts:283-300 | a count trend's values sum to the matching rows of the union, its populations to all of them |
| TimeBuckets.PercentageUnknownIff | src/analytics/pack-dashboard.service.ts:441-450 | a percentage is withheld if and only if nothing in the period is in its population |
| TimeBuckets.BucketMeans | src/analytics/pack-dashboard.service.ts:283-300 | a bucket counts the rows dated from its start on and before its end; its value is the number of those that match, or the nearest tenth of a percent of those in the population, or nothing where there are none |
| TimeBuckets.RoundedMeans | src/analytics/pack-dashboard.service.ts:446-450 | no tenth of a percent is nearer to the fraction, and of two as near it is the higher |
| Billing.BillingAccount.AddCredits | src/billing/billing.service.ts:229-259 | appends one row whose balance is the balance before plus the amount, columns being numbers; the ledger stays balanced |
| Billing.BillingAccount.DeductCredits | src/billing/billing.service.ts:291-316 | refused exactly when the balance is short; otherwise one row that lowers the balance by the amount |
| Billing.BillingAccount.RecordUsage | src/billing/billing.service.ts:158-225 | appends an open usage row, deducts its amount when there is credit, and leaves the row even when the deduction is refused |
| Billing.BillingAccount.GenerateInvoice | src/billing/billing.service.ts:371-515 | columns being numbers, charges the base price and, by its own amount, exactly the usage dated in the period and not invoiced, and marks it; the subtotal is the base price plus the sum of those amounts, the tax as the plan's rate and kind say; due plus credit is the total, credit is within the balance and used up before anything is due |
| Billing.BalanceIsSum | src/billing/billing.service.ts:271-281 | the balance read from the last row is the sum of all amounts and never negative |
| Billing.UsageOnOneInvoice | src/billing/billing.service.ts:397-460 | in every reachable state no usage record is on two invoices |
| Billing.UsageOnOneItem | src/billing/billing.service.ts:439-460 | two items that bill one usage record are the same item of the same invoice |
| Billing.BilledAre | src/billing/billing.service.ts:439-460 | the metered items are exactly the open records of the period, each once |
| Billing.ItemsCharge | src/billing/billing.service.ts:439-449 | every metered item carries the amount of the record it names, and every open record of the period has one |
| Billing.ItemsSum | src/billing/billing.service.ts:432-449 | the items sum to the base price plus the amounts of the records of the period that were not invoiced |
| Billing.InvoiceBilledOnce | src/billing/billing.service.ts:456-459 | an invoice that marks what it bills keeps every record on at most one invoice |
| Billing.PaidUsageIsBilledAgain | src/billing/billing.service.ts:211-219 | usage fully deducted from credits is on the next invoice of its period all the same |
| TextAmounts.TopUpOntoTextIff | src/billing/billing.service.ts:237-247 | with a balance handed over as text, topping up whole credits leaves the balance or adds one unit of its last digit, so it is right if and only if nothing is added |
| TextAmounts.JoinedReadsAs | src/billing/billing.service.ts:247 | digits joined to a column's text are lost, but for the first one's say in rounding |
| TextAmounts.SecondPointRefused | src/billing/billing.service.ts:247 | an amount with a point of its own is refused by the column |
| FeeSplit.SplitStages | src/billing/fee-schedule.service.ts:317-335 | the running allocation yields the portions defined stage by stage |
| FeeSplit.InstallmentsExact | src/billing/fee-schedule.service.ts:287-301 | instalments sum to the amount, all after the first are equal, and the first exceeds them by less than the count |
| FeeSplit.StagesSum | src/billing/fee-schedule.service.ts:320-325 | stage portions sum to the amount, however the basis points divide |
| FeeSplit.StageBelowShare | src/billing/fee-schedule.service.ts:322-324 | every portion but the last is below its exact share by less than one unit |
| FeeSplit.LastStageOverShare | src/billing/fee-schedule.service.ts:322-324 | the last is over its exact share by less than the number of the others |
| FeeSplit.SplitExact | src/billing/fee-schedule.service.ts:255-336 | every accepted split of a positive amount has portions that sum to it, and none is negative if no stage is |
| FeeSplit.SplitMeans | src/billing/fee-schedule.service.ts:255-336 | which step and which due date each portion gets: one portion at the request's step upfront, instalments at that step an interval apart from the start on, stages at their own steps without a date |
| FeeSplit.SplitRefusedIff | src/billing/fee-schedule.service.ts:303-315 | a plan is refused exactly when its stages are there and do not sum to 10000 |
| FeeSchedule.OverridesReachOnlyFirmPrices | src/billing/fee-schedule.service.ts:118-151 | an override changes the price and currency of a firm's own fee and nothing else |
| FeeSchedule.AcceptedIff | src/billing/fee-schedule.service.ts:161-242 | a call is accepted if and only if keys and plan are defined and, unless some fee already has rows, there is one currency, the client resolves, and stages sum to 10000 wherever an amount is positive |
| FeeSchedule.FeeScheduleService.Expand | src/billing/fee-schedule.service.ts:161-242 | accepted exactly so; writes all rows of the call or none, and a refused call and one with existing rows write nothing |
| FeeSchedule.FeeScheduleService.BuildRows | src/billing/fee-schedule.service.ts:210-239 | the loop over the fees yields the rows defined key by key, or the first refusal |
| FeeSchedule.FeeScheduleService.SetOverrides | src/billing/fee-schedule.service.ts:436-539 | refused, with nothing written, exactly when some key is not a firm fee of the pack; otherwise the table holds exactly what was given, active and with its currency in capitals |
| FeeSchedule.FeeRowsExact | src/billing/fee-schedule.service.ts:210-239 | the rows of a fee sum to its amount, there are none exactly when it comes to nothing, and none is negative if no stage is |
| FeeSchedule.BilledPerKey | src/billing/fee-schedule.service.ts:210-239 | the rows built for a key sum to its amount as often as the request names it |
| FeeSchedule.CallKeepsBilled | src/billing/fee-schedule.service.ts:171-184 | the rows of a fee already billed on a matter never change or grow |
| FeeSchedule.CallBillsExactly | src/billing/fee-schedule.service.ts:161-242 | an accepted call on a matter without rows for its keys bills each key's override-adjusted, basis-multiplied amount, once per mention |
| FeeSchedule.ExpansionBills | src/billing/fee-schedule.service.ts:161-252 | after an accepted call on a matter without rows, the rows of a key named once sum to the price per case, the price times applicants, one at least, or the price times dependents; the price is the active override's for a firm fee and the pack's for any other |
| FeeSchedule.WrittenRowsMean | src/billing/fee-schedule.service.ts:210-239 | every row a call writes is pending and inbound, for the matter, client, reference and plan of the request, with the kind and currency of its fee |
| FeeSchedule.CallTouchesOnlyItsKeys | src/billing/fee-schedule.service.ts:210-239 | a call touches no other fee and no other matter |
| FeeSchedule.BilledByOneCall | src/billing/fee-schedule.service.ts:153-184 | over every run, all rows of a fee on a matter come from one call, none stood before it, and they sum to that call's amount, once per mention |
| FeeSchedule.DistinctKeysBillOnce | src/billing/fee-schedule.service.ts:392-395 | for distinct keys that is the amount itself |
| FeeSchedule.RepeatWritesNothing | src/billing/fee-schedule.service.ts:178-184 | repeating a call that created rows, under any overrides and plan, writes nothing |
| FeeSchedule.WritesRowsIff | src/billing/fee-schedule.service.ts:171-184 | a named fee of positive amount gets rows if and only if the call is acceptable in those terms and no fee it names has rows on the matter |
| Payments.PaymentsService.Create | src/billing/payments.service.ts:333-371 | refused exactly for an inbound row without a client, an outbound one without a payee, or a client that does not resolve; otherwise one pending row, field by field what was entered, of no fee, plan or step, with its currency in capitals |
| PaymentRows.UpperMeans | src/billing/payments.service.ts:356-369 | each letter of a currency becomes its capital and nothing else changes |
| Payments.EnteredHoldsNothing | src/billing/payments.service.ts:356-369 | a row entered by hand never holds a step |
| Payments.PaymentsService.Settle | src/billing/payments.service.ts:381-425 | accepted exactly for the seven transitions there are; the new status, the settlement time and the reference, everything else as it was; and each refusal |
| Payments.PaidAtMostOnce | src/billing/payments.service.ts:385-399 | over every run a payment enters paid at most once, and only from pending or failed |
| Payments.RunsKeepPaidAt | src/billing/payments.service.ts:410-414 | over every run a settlement time is there exactly for what is paid or refunded |
| Payments.PaidAtNeverMoves | src/billing/payments.service.ts:411-414 | once set, no later settlement moves it |
| Payments.TotalFor | src/billing/payments.service.ts:292-298 | the reduction over any grouping by currency, status and direction is the true total per currency of one direction |
| Payments.GroupsSumToTotal | src/billing/payments.service.ts:264-298 | summed over statuses the groups of a currency and direction are its total |
| Payments.RunsKeepTotals | src/billing/payments.service.ts:373-425 | totals per currency and direction never change along a run of settlements |
| Payments.NoArrearsIff | src/billing/fee-schedule.service.ts:345-372 | a step is free exactly when no unpaid row of the matter sits at it under a plan that gates |
| Payments.ArrearsNeverReappear | src/billing/fee-schedule.service.ts:345-372 | once a step is free, no run of settlements holds it again |
| Payments.FreeIffAllLeave | src/billing/payments.service.ts:381-425 | a step is free after a run of settlements if and only if the run has settled or cancelled every row that held it |
| StageArrears.ExpansionHoldsItsStages | src/billing/fee-schedule.service.ts:161-242 | an accepted expansion under a gating staged plan holds exactly the steps of its stages, if any fee comes to something, and leaves every other step as it was |
| StageArrears.HeldUntilSettled | src/billing/fee-schedule.service.ts:345-372 | after any run of settlements a step that was free before the expansion is free again if and only if each of the expansion's rows at it has been paid or cancelled |
| StageArrears.RepeatAfterSettling | src/billing/fee-schedule.service.ts:171-184 | whatever has been settled, refunded or cancelled since, repeating a call that created rows writes nothing |
| Documents.Document.constructor | src/documents/documents.service.ts:346-425 | a record without a file has no version; a direct upload is version one and current; nothing is reviewed |
| Documents.Document.CreateNewVersion | src/documents/documents.service.ts:449-574 | versions stay numbered one to n with the last current; the review returns to uploaded and what it was is appended to the history; a refused or rolled back call changes nothing |
| DocumentVersions.NumberedIffFresh | src/documents/documents.service.ts:460-560 | over every interleaving of uploads, versions stay numbered one to n if and only if no upload commits on a number moved on since it read it |
| DocumentVersions.OverlapWritesNumberTwice | src/documents/documents.service.ts:460-560 | two uploads that both read before either commits write two versions of one number |
| Documents.Document.StartReview | src/documents/documents.service.ts:972-1001 | refused exactly for a decided document; otherwise under review, repeatably |
| Documents.Document.DecideReview | src/documents/documents.service.ts:1010-1085 | a rejection needs a declared reason; a reason is there exactly for a rejection, an undecided document has no reviewer, and the last entry records the decision on the current version; history only grows, in version order |
| CjsDeps.ResolvePackageJson | scripts/check-cjs-deps.js:40-49 | the loop upwards finds what resolution is defined to find |
| CjsDeps.ResolveIsNearest | scripts/check-cjs-deps.js:40-49 | that is the copy in the deepest directory on the way up that holds one, and nothing exactly when none does |
| CjsDeps.OffendsMeans | scripts/check-cjs-deps.js:51-61 | what offends is declared a module, has no "require" anywhere in its exports, and its main file does not end in .cjs |
| CjsDeps.ReachableIff | scripts/check-cjs-deps.js:65-90 | reachable is what the project's dependencies resolve to and what the dependencies of a reachable package resolve to |
| CjsDeps.ClosedHoldsReachable | scripts/check-cjs-deps.js:65-85 | a visited set closed under dependencies holds everything reachable |
| CjsDeps.Scanner.Walk | scripts/check-cjs-deps.js:65-85 | ends on cyclic graphs; everything it adds is reachable and explored, every visited offender is recorded, every recorded chain is a real dependency path |
| CjsDeps.Scanner.Scan | scripts/check-cjs-deps.js:87-90 | visited is exactly the reachable packages, and the recorded names exactly those of reachable packages that cannot be required |
| CjsDeps.CheckDependencies | scripts/check-cjs-deps.js:87-105 | safe exactly when every such package is on the allow list |

## Left out

- SHA-256, `JSON.stringify`, `toISOString` and the texts a jsonb column gives back are parameters: digests are 64 hex characters, member lists whose values are JSON have different texts if they differ, timestamps render in 24 characters, and a column holds null or JSON other than null. No hash is assumed injective; collisions are excluded only among the texts actually hashed.
- RunsKeepChains: `logEvent` is atomic here; RaceBreaksAtLater says what a race does to the chain. Rows of one timestamp and creation time are read back in the order of insertion, which the database does not promise.
- Columns of an audit row that no hash covers (severity, entity type, changes, context, compliance metadata), and the export, query and report routes.
- SQL, TypeORM and row-level security: a table is a sequence or map, a transaction its steps. Relations, fees, payments and documents are one tenant's, billing one subscription's.
- RecordNumbers: a row is its tenant, type and record number; status and attributes are not modelled. Every writer that reads a whole row and saves it later (`updateEntity`, `addRelationship`, acceptances, document requests) is an update. The importer's updates name their columns and touch none of the three. The one-off backfill of numbers is left out.
- The unique index on the invoice number, on which the second commit of a race would fail.
- Access rules are flags: which records an actor reads, and whether it writes. The conditions behind them are not modelled.
- CompletionGate.CrmService.UpdateEntity: models what an update says about the status; locked fields, profile sets, stage history and the other attributes are left out. A call without a vertical bypasses the gate, as in the source, and the theorems about gated runs exclude it.
- CompletionGate.DeadlockIsForever: runs have no unlink, no conversion and no deletion (`deleteEntity`, src/crm/crm.service.ts:641-658, which no route reaches), each of which can dissolve a deadlock. An import row with a `status` column (src/integrations/services/import.service.ts:279-291, 345-353) finishes a record without the gate; it is an update that does not consult the pack, which StepKeepsDeadlockIff treats. Nor do the runs have an update that clears a status, which StepKeepsDeadlockIff and ClearingDissolves treat.
- DeepMerge.DeepMerge: JSON values only, so class instances, dates and `undefined` members are not modelled; the path laws are about objects, arrays being leaves.
- Csv.ToCsv: numbers, dates and objects arrive as their rendered text; the reader takes any character but a comma, quote or line break in a bare field, where the grammar lists printable ASCII.
- MiniPdf.BuildPdf: the cursor counts hundredths of a point instead of floating-point points; a line's size and gap are not negative; a character is one UTF-16 unit, and one beyond it folds to a single question mark.
- WordWrap.Wrap: text is taken as already sanitised, a width is a sum of character widths, and white space is the ASCII part of `\s`.
- TimeBuckets.CountTrendConserves: the sum and average aggregates, the default `from`, charts grouped by a field and the scan limit are not modelled; whether a row matches a filter is part of the row.
- Billing: amounts are exact reals and columns are numbers, which the database's decimals are not if its driver hands them over as text; TextAmounts says what that does to a top-up. The same joining in `generateInvoice`, rounding to the column's digits, credit expiry, subscription counters and the tax breakdown are left out; prices, rates and top-ups are taken as non-negative.
- FeeSplit.SplitExact: labels are left out.
- FeeSchedule.FeeScheduleService.SetOverrides: keys are distinct, the rows are written together, and their audit entries are left out; the source warns that a failure part-way leaves some written.
- FeeSchedule.FeeScheduleService.Expand: how a client id resolves is an input; metadata is left out.
- An empty client id, payee or plan key counts as an absent one.
- Payments.PaymentsService.Settle: metadata notes are left out.
- Documents.Document.CreateNewVersion: storage, encryption and file columns are left out; the writes of one transaction are one step that happens or does not, and uploads do not overlap; DocumentVersions treats those that do.
- CjsDeps.Scanner.Walk: paths are lists of segments, and no dependency is called `node_modules`.
- Template substitution, path lookup and page rendering of generated documents, and pdf-lib drawing: mostly calls into a library.
- Controllers, guards, configuration, search, notification, AI and storage services: wiring, or foreign services.
