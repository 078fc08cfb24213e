/** A document's versions and its review: new version, start, and decide, over every run. */
module Documents {
  import opened Common

  datatype ReviewStatus = Uploaded | UnderReview | Approved | Rejected

  datatype Entry = Entry(
    status: ReviewStatus,
    byId: string,
    at: int,
    versionNumber: nat,
    reasonKey: Option<string>,
    reasonNote: Option<string>)

  datatype Version = Version(id: string, number: nat)

  datatype Decision = Approve | Reject(reasonKey: Option<string>, note: Option<string>)

  datatype Error = Forbidden | AlreadyDecided | ReasonNotDeclared | NotSaved

  /** A history entry carries a text only when it says something. */
  function Truthy(text: Option<string>): Option<string> {
    if text.Some? && text.value != "" then text else None
  }

  predicate IsDeclared(reasonKey: Option<string>, declared: seq<string>) {
    Truthy(reasonKey).Some? && reasonKey.value in declared
  }

  predicate Decided(status: ReviewStatus) { status == Approved || status == Rejected }

  /** What a history entry may say: some review happened, and only a rejection gives a reason. */
  predicate Records(entry: Entry) {
    entry.status != Uploaded && (entry.reasonKey.Some? <==> entry.status == Rejected)
  }

  /** Entries speak of versions that exist, and never of an older one after a newer one. */
  ghost predicate InOrder(history: seq<Entry>, latest: nat) {
    && (forall i :: 0 <= i < |history| ==> history[i].versionNumber <= latest && Records(history[i]))
    && (forall i, j :: 0 <= i < j < |history| ==> history[i].versionNumber <= history[j].versionNumber)
  }

  class Document {
    var versionNumber: nat
    var currentVersionId: Option<string>
    var versions: seq<Version>
    var reviewStatus: ReviewStatus
    var reviewedById: Option<string>
    var reviewedAt: Option<int>
    var rejectionReasonKey: Option<string>
    var rejectionReasonNote: Option<string>
    var reviewHistory: seq<Entry>

    /** Versions are numbered from one without gaps, and the current one is the last. */
    ghost predicate VersionsNumbered()
      reads this
    {
      && |versions| == versionNumber
      && (forall i :: 0 <= i < |versions| ==> versions[i].number == i + 1)
      && currentVersionId == if versions == [] then None else Some(versions[|versions| - 1].id)
    }

    /** A reason is there exactly for a rejection; what is undecided has no reviewer. */
    ghost predicate ReviewCoherent()
      reads this
    {
      && (rejectionReasonKey.Some? <==> reviewStatus == Rejected)
      && (rejectionReasonNote.Some? ==> reviewStatus == Rejected)
      && (Decided(reviewStatus) <==> reviewedById.Some?)
      && (reviewedById.Some? <==> reviewedAt.Some?)
    }

    /** The entry that records the decision as it stands, on the current version. */
    function CurrentDecision(): Entry
      requires reviewedById.Some? && reviewedAt.Some?
      reads this
    {
      Entry(reviewStatus, reviewedById.value, reviewedAt.value, versionNumber,
            Truthy(rejectionReasonKey), Truthy(rejectionReasonNote))
    }

    ghost predicate HistoryCoherent()
      requires ReviewCoherent()
      reads this
    {
      && (Decided(reviewStatus) ==> reviewHistory != [] && reviewHistory[|reviewHistory| - 1] == CurrentDecision())
      && InOrder(reviewHistory, versionNumber)
    }

    ghost predicate Valid()
      reads this
    {
      && VersionsNumbered() && ReviewCoherent() && HistoryCoherent()
      && (rejectionReasonKey.Some? ==> rejectionReasonKey.value != "")
    }

    /** A record without a file has no version yet; a direct upload is version one. */
    constructor (directUpload: Option<string>)
      ensures Valid() && reviewStatus == Uploaded && reviewHistory == []
      ensures versionNumber == if directUpload.Some? then 1 else 0
      ensures versions == (if directUpload.Some? then [Version(directUpload.value, 1)] else [])
      ensures currentVersionId == directUpload
      ensures reviewedById.None? && reviewedAt.None? && rejectionReasonKey.None? && rejectionReasonNote.None?
    {
      versionNumber := if directUpload.Some? then 1 else 0;
      versions := if directUpload.Some? then [Version(directUpload.value, 1)] else [];
      currentVersionId := directUpload;
      reviewStatus := Uploaded;
      reviewedById, reviewedAt, rejectionReasonKey, rejectionReasonNote := None, None, None, None;
      reviewHistory := [];
    }

    /** Sends the document back to uploaded, keeping in the history what was decided about the previous file. */
    method SetReviewAside(now: int)
      requires ReviewCoherent() && versionNumber > 0 && reviewStatus != Uploaded
      modifies this
      ensures versions == old(versions) && versionNumber == old(versionNumber)
      ensures currentVersionId == old(currentVersionId)
      ensures reviewStatus == Uploaded && reviewedById.None? && reviewedAt.None?
      ensures rejectionReasonKey.None? && rejectionReasonNote.None?
      ensures reviewHistory == old(reviewHistory + [EntryAside(now)])
    {
      var entry := Entry(
        reviewStatus,
        if reviewedById.Some? then reviewedById.value else "unknown",
        if reviewedAt.Some? then reviewedAt.value else now,
        versionNumber - 1,
        Truthy(rejectionReasonKey),
        Truthy(rejectionReasonNote));
      reviewHistory := reviewHistory + [entry];
      reviewStatus := Uploaded;
      reviewedById, reviewedAt, rejectionReasonKey, rejectionReasonNote := None, None, None, None;
    }

    /**
     * What is kept of a review when a later version replaces the file: the decision, or that it was
     * still under way.
     */
    ghost function EntryAside(now: int): Entry
      requires ReviewCoherent() && versionNumber > 0
      reads this
    {
      if Decided(reviewStatus) then CurrentDecision().(versionNumber := versionNumber - 1)
      else Entry(UnderReview, "unknown", now, versionNumber - 1, None, None)
    }

    /** A new file puts the document back to uploaded; what was decided about the old file stays in the history. */
    method CreateNewVersion(id: string, canWrite: bool, committed: bool, now: int) returns (r: Result<Version, Error>)
      requires Valid()
      modifies this
      ensures Valid() && old(reviewHistory) <= reviewHistory && old(versions) <= versions
      ensures r.Ok? <==> canWrite && committed
      ensures r.Err? ==> unchanged(this)
      ensures r.Ok? ==>
        && r.value == Version(id, old(versionNumber) + 1) && versions == old(versions) + [r.value]
        && reviewStatus == Uploaded && reviewedById.None? && reviewedAt.None?
        && rejectionReasonKey.None? && rejectionReasonNote.None?
        && versionNumber == old(versionNumber) + 1 && currentVersionId == Some(id)
      ensures r.Ok? && old(reviewStatus) in {Approved, Rejected} ==>
        && |reviewHistory| == |old(reviewHistory)| + 1
        && var kept := reviewHistory[|reviewHistory| - 1];
           && kept.status == old(reviewStatus)
           && Some(kept.byId) == old(reviewedById) && Some(kept.at) == old(reviewedAt)
           && kept.versionNumber == old(versionNumber) && kept.reasonKey == old(rejectionReasonKey)
           && kept.reasonNote == if old(rejectionReasonNote) == Some("") then None else old(rejectionReasonNote)
      ensures r.Ok? && old(Decided(reviewStatus)) ==>
        && reviewHistory == old(reviewHistory + [CurrentDecision()])
        // The decision was recorded when it was taken, so it now stands in the history twice.
        && old(reviewHistory != [] && reviewHistory[|reviewHistory| - 1] == CurrentDecision())
      ensures r.Ok? && old(reviewStatus) == UnderReview ==>
        reviewHistory == old(reviewHistory) + [Entry(UnderReview, "unknown", now, old(versionNumber), None, None)]
      ensures r.Ok? && old(reviewStatus) == Uploaded ==> reviewHistory == old(reviewHistory)
    {
      if !canWrite {
        return Err(Forbidden);
      }
      if !committed {
        // The transaction rolls back; the stored row is as it was.
        return Err(NotSaved);
      }
      var version := Version(id, versionNumber + 1);
      versions := versions + [version];
      versionNumber := versionNumber + 1;
      currentVersionId := Some(version.id);
      if reviewStatus != Uploaded {
        SetReviewAside(now);
      }
      return Ok(version);
    }

    method StartReview(canWrite: bool) returns (r: Result<(), Error>)
      requires Valid()
      modifies this`reviewStatus
      ensures Valid()
      ensures !canWrite ==> r == Err(Forbidden)
      ensures canWrite ==> (r == Err(AlreadyDecided) <==> Decided(old(reviewStatus)))
      ensures canWrite ==> (r.Ok? <==> !Decided(old(reviewStatus)))
      ensures reviewStatus == if r.Ok? then UnderReview else old(reviewStatus)
      ensures r.Ok? <==> canWrite && old(reviewStatus) in {Uploaded, UnderReview}
    {
      if !canWrite {
        return Err(Forbidden);
      }
      if reviewStatus == Approved || reviewStatus == Rejected {
        return Err(AlreadyDecided);
      }
      if reviewStatus == Uploaded {
        reviewStatus := UnderReview;
      }
      return Ok(());
    }

    /** Decides from any status, over an earlier decision too; a rejection needs a reason the pack declares. */
    method DecideReview(actorId: string, canWrite: bool, decision: Decision, declared: seq<string>, now: int)
      returns (r: Result<(), Error>)
      requires Valid()
      modifies this
      ensures Valid() && old(reviewHistory) <= reviewHistory
      ensures r.Ok? <==> canWrite && (decision.Reject? ==> IsDeclared(decision.reasonKey, declared))
      ensures r.Ok? <==> canWrite && (decision.Reject? ==>
        decision.reasonKey.Some? && decision.reasonKey.value != "" && decision.reasonKey.value in declared)
      ensures r.Err? ==> unchanged(this)
      ensures r.Ok? ==>
        && |reviewHistory| == |old(reviewHistory)| + 1
        && var entry := reviewHistory[|old(reviewHistory)|];
           && entry.status == (if decision.Approve? then Approved else Rejected)
           && entry.byId == actorId && entry.at == now && entry.versionNumber == old(versionNumber)
           && entry.reasonKey == (if decision.Approve? then None else decision.reasonKey)
           && entry.reasonNote == if decision.Approve? || decision.note == Some("") then None else decision.note
      ensures r.Ok? ==>
        && reviewStatus == (if decision.Approve? then Approved else Rejected)
        && reviewedById == Some(actorId) && reviewedAt == Some(now)
        && rejectionReasonKey == (if decision.Reject? then decision.reasonKey else None)
        && rejectionReasonNote == (if decision.Reject? then decision.note else None)
        && reviewHistory == old(reviewHistory) + [CurrentDecision()]
        && versionNumber == old(versionNumber) && versions == old(versions) && currentVersionId == old(currentVersionId)
    {
      if !canWrite {
        return Err(Forbidden);
      }
      if decision.Reject? && !IsDeclared(decision.reasonKey, declared) {
        return Err(ReasonNotDeclared);
      }
      reviewStatus := if decision.Approve? then Approved else Rejected;
      reviewedById := Some(actorId);
      reviewedAt := Some(now);
      if decision.Approve? {
        // An approval carries no reason left over from an earlier rejection.
        rejectionReasonKey, rejectionReasonNote := None, None;
      } else {
        rejectionReasonKey, rejectionReasonNote := decision.reasonKey, decision.note;
      }
      var entry := Entry(reviewStatus, actorId, now, versionNumber, Truthy(rejectionReasonKey),
          Truthy(rejectionReasonNote));
      reviewHistory := reviewHistory + [entry];
      return Ok(());
    }
  }
}
