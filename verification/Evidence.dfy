/**
 Photo evidence of community reports: the report table beside an object store
 whose calls can fail. A failing delete may or may not have removed the object,
 and a failing upload may or may not have stored it.
 */
module Evidence {
  import opened Wrappers

  /** The object key of a report's photo; report ids are random and never used twice. */
  datatype Key = Key(report: nat, checksum: string)

  datatype Photo = Photo(key: Key, retainedUntil: int)

  datatype Status = Pending | Published | Rejected

  datatype Report = Report(id: nat, owner: nat, status: Status, photo: Option<Photo>, deletedAt: Option<int>)

  datatype DeleteOutcome = Removed | Kept | RemovedUnconfirmed

  datatype PutOutcome = Stored | NotStored | StoredUnconfirmed

  datatype Upload = Upload(checksum: string, retainedUntil: int, outcome: PutOutcome)

  /**
   The table, the store, and the uploads that nothing will clean up: the store kept
   one and reported a failure, or one could not be discarded.
   */
  datatype Evidence = Evidence(reports: map<nat, Report>, objects: set<Key>, leaked: set<Key>)

  const NO_EVIDENCE := Evidence(map[], {}, {})

  predicate IsAvailable(r: Report) {
    r.photo.Some? && r.deletedAt.None?
  }

  predicate IsExpired(r: Report, cutoff: int) {
    IsAvailable(r) && r.photo.value.retainedUntil <= cutoff
  }

  function AfterDelete(objects: set<Key>, key: Key, outcome: DeleteOutcome): set<Key> {
    if outcome.Kept? then objects else objects - {key}
  }

  // --------------------------------------------------------------- invariants

  predicate IsKeyed(reports: map<nat, Report>) {
    forall id :: id in reports ==>
                   && reports[id].id == id
                   && (reports[id].photo.Some? ==> reports[id].photo.value.key.report == id)
  }

  /** A report still marked as having its photo accounts for the object. */
  predicate IsHeld(reports: map<nat, Report>, key: Key) {
    && key.report in reports
    && IsAvailable(reports[key.report])
    && reports[key.report].photo.value.key == key
  }

  /** Every stored object is held by a report or known to have leaked. */
  predicate NoOrphans(e: Evidence) {
    forall key :: key in e.objects ==> key in e.leaked || IsHeld(e.reports, key)
  }

  predicate IsUnused(e: Evidence, id: nat) {
    && id !in e.reports
    && (forall key :: key in e.objects ==> key.report != id)
    && (forall key :: key in e.leaked ==> key.report != id)
  }

  // --------------------------------------------------------------- submission

  datatype Submission = Accepted | PersistenceFailed | StorageFailed

  /** Upload first, then the report; when the report cannot be saved the upload is discarded. */
  function Submitted(e: Evidence, id: nat, owner: nat, status: Status, upload: Option<Upload>,
                     saved: bool, discard: DeleteOutcome): (Evidence, Submission)
  {
    match upload
    case None =>
      if saved then (e.(reports := e.reports[id := Report(id, owner, status, None, None)]), Accepted)
      else (e, PersistenceFailed)
    case Some(u) =>
      var key := Key(id, u.checksum);
      match u.outcome
      case NotStored => (e, StorageFailed)
      case StoredUnconfirmed => (e.(objects := e.objects + {key}, leaked := e.leaked + {key}), StorageFailed)
      case Stored =>
        if saved then
          (e.(objects := e.objects + {key},
              reports := e.reports[id := Report(id, owner, status, Some(Photo(key, u.retainedUntil)), None)]), Accepted)
        else
          (e.(objects := AfterDelete(e.objects + {key}, key, discard),
              leaked := if discard.Kept? then e.leaked + {key} else e.leaked),
           if discard.Removed? then PersistenceFailed else StorageFailed)
  }

  /** Deletion of one report's photo, if it has one; the flag says whether it was confirmed. */
  function PhotoDeleted(e: Evidence, id: nat, at: int, outcome: DeleteOutcome): (Evidence, bool)
    requires id in e.reports
  {
    var r := e.reports[id];
    if !IsAvailable(r) then (e, true)
    else
      var after := e.(objects := AfterDelete(e.objects, r.photo.value.key, outcome));
      if outcome.Removed? then (after.(reports := e.reports[id := r.(deletedAt := Some(at))]), true)
      else (after, false)
  }

  lemma SubmissionLeavesNoOrphans(e: Evidence, id: nat, owner: nat, status: Status, upload: Option<Upload>,
                                  saved: bool, discard: DeleteOutcome)
    requires IsKeyed(e.reports) && NoOrphans(e) && IsUnused(e, id)
    ensures var after := Submitted(e, id, owner, status, upload, saved, discard).0;
            IsKeyed(after.reports) && NoOrphans(after)
  {
  }

  lemma DeletionLeavesNoOrphans(e: Evidence, id: nat, at: int, outcome: DeleteOutcome)
    requires IsKeyed(e.reports) && NoOrphans(e) && id in e.reports
    ensures var after := PhotoDeleted(e, id, at, outcome).0;
            IsKeyed(after.reports) && NoOrphans(after)
  {
  }

  lemma StatusLeavesNoOrphans(e: Evidence, id: nat, status: Status)
    requires IsKeyed(e.reports) && NoOrphans(e) && id in e.reports
    ensures var after := e.(reports := e.reports[id := e.reports[id].(status := status)]);
            IsKeyed(after.reports) && NoOrphans(after)
  {
  }
}
