/** Submission, moderation and purging of community reports, as one process runs them. */
module CommunityReporting {
  import opened Wrappers
  import opened Sorting
  import opened Evidence
  import opened EvidencePurge

  /** The community reports of one process, with the store they upload to. */
  class CommunityReports {
    var reports: map<nat, Report>
    /** The table's own order, that of insertion. */
    var order: seq<nat>
    var objects: set<Key>
    ghost var leaked: set<Key>

    ghost function Contents(): Evidence
      reads this
    {
      Evidence(reports, objects, leaked)
    }

    ghost predicate Valid()
      reads this
    {
      && IsKeyed(reports)
      && NoOrphans(Contents())
      && (forall i: nat, j: nat :: i < j < |order| ==> order[i] != order[j])
      && (forall id :: id in order <==> id in reports)
    }

    constructor ()
      ensures Valid() && Contents() == NO_EVIDENCE
    {
      reports, order, objects, leaked := map[], [], {}, {};
    }

    method Put(key: Key, outcome: PutOutcome) returns (confirmed: bool)
      modifies `objects
      ensures objects == if outcome.NotStored? then old(objects) else old(objects) + {key}
      ensures confirmed == outcome.Stored?
    {
      if !outcome.NotStored? {
        objects := objects + {key};
      }
      confirmed := outcome.Stored?;
    }

    method Delete(key: Key, outcome: DeleteOutcome) returns (confirmed: bool)
      modifies `objects
      ensures objects == AfterDelete(old(objects), key, outcome)
      ensures confirmed == outcome.Removed?
    {
      if !outcome.Kept? {
        objects := objects - {key};
      }
      confirmed := outcome.Removed?;
    }

    method Submit(id: nat, owner: nat, status: Status, upload: Option<Upload>, saved: bool, discard: DeleteOutcome)
        returns (result: Submission)
      requires Valid() && IsUnused(Contents(), id)
      modifies this
      ensures Valid()
      ensures (Contents(), result) == Submitted(old(Contents()), id, owner, status, upload, saved, discard)
      ensures result.Accepted? <==> saved && (upload.Some? ==> upload.value.outcome.Stored?)
      ensures result.PersistenceFailed? <==>
                !saved && (upload.Some? ==> upload.value.outcome.Stored? && discard.Removed?)
      ensures !result.Accepted? ==> reports == old(reports)
      ensures result.Accepted? ==>
                && id in reports && reports == old(reports)[id := reports[id]]
                && reports[id].owner == owner && reports[id].status == status && reports[id].deletedAt == None
                && (reports[id].photo.Some? <==> upload.Some?)
                && (upload.Some? ==> reports[id].photo.value == Photo(Key(id, upload.value.checksum),
                                                                      upload.value.retainedUntil))
      ensures forall key :: key in objects <==>
                key in old(objects)
                || (upload.Some? && key == Key(id, upload.value.checksum) && !upload.value.outcome.NotStored?
                    && (upload.value.outcome.Stored? ==> saved || discard.Kept?))
    {
      SubmissionLeavesNoOrphans(Contents(), id, owner, status, upload, saved, discard);
      var photo := None;
      if upload.Some? {
        var key := Key(id, upload.value.checksum);
        var stored := Put(key, upload.value.outcome);
        if !stored {
          if upload.value.outcome.StoredUnconfirmed? {
            leaked := leaked + {key};
          }
          return StorageFailed;
        }
        photo := Some(Photo(key, upload.value.retainedUntil));
      }
      if !saved {
        if photo.Some? {
          var discarded := Delete(photo.value.key, discard);
          if !discarded {
            if discard.Kept? {
              leaked := leaked + {photo.value.key};
            }
            return StorageFailed;
          }
        }
        return PersistenceFailed;
      }
      reports := reports[id := Report(id, owner, status, photo, None)];
      order := order + [id];
      return Accepted;
    }

    method DeleteReportPhoto(report: Report, at: int, outcome: DeleteOutcome) returns (confirmed: bool)
      requires Valid() && report.id in reports && reports[report.id] == report
      modifies `reports, `objects
      ensures Valid()
      ensures (Contents(), confirmed) == PhotoDeleted(old(Contents()), report.id, at, outcome)
      ensures report.photo.None? || report.deletedAt.Some? ==> confirmed && Contents() == old(Contents())
      ensures report.photo.Some? && report.deletedAt.None? ==>
                && (confirmed <==> outcome.Removed?)
                && objects == (if outcome.Kept? then old(objects) else old(objects) - {report.photo.value.key})
                && reports == if confirmed then old(reports)[report.id := report.(deletedAt := Some(at))]
                              else old(reports)
    {
      DeletionLeavesNoOrphans(Contents(), report.id, at, outcome);
      if !IsAvailable(report) {
        return true;
      }
      confirmed := Delete(report.photo.value.key, outcome);
      if confirmed {
        reports := reports[report.id := report.(deletedAt := Some(at))];
      }
    }

    /** A rejection sets the status first, and then deletes the photo. */
    method Moderate(id: nat, approved: bool, at: int, outcome: DeleteOutcome) returns (confirmed: Option<bool>)
      requires Valid()
      modifies `reports, `objects
      ensures Valid()
      ensures id !in old(reports) ==> confirmed == None && Contents() == old(Contents())
      ensures id in old(reports) && approved ==>
                && confirmed == Some(true)
                && Contents() == old(Contents()).(reports := old(reports)[id := old(reports)[id].(status := Published)])
      ensures id in old(reports) && !approved ==>
                var rejected := old(Contents()).(reports := old(reports)[id := old(reports)[id].(status := Rejected)]);
                (Contents(), confirmed) == (PhotoDeleted(rejected, id, at, outcome).0,
                                            Some(PhotoDeleted(rejected, id, at, outcome).1))
    {
      if id !in reports {
        return None;
      }
      StatusLeavesNoOrphans(Contents(), id, if approved then Published else Rejected);
      reports := reports[id := reports[id].(status := if approved then Published else Rejected)];
      if approved {
        return Some(true);
      }
      var done := DeleteReportPhoto(reports[id], at, outcome);
      return Some(done);
    }

    /** The expired photos, oldest deadline first, cut off at the limit. */
    method ExpiredMedia(cutoff: int, limit: nat) returns (batch: seq<Report>)
      requires Valid()
      ensures IsOldestBatch(reports, cutoff, limit, batch)
      ensures IsSorted(ByDeadline(cutoff), batch)
      ensures forall r :: r in batch ==>
                && r.id in reports && reports[r.id] == r
                && r.photo.Some? && r.deletedAt.None? && r.photo.value.retainedUntil <= cutoff
      ensures forall r, id :: r in batch && id in reports && reports[id] !in batch && reports[id].photo.Some?
                              && reports[id].deletedAt.None? && reports[id].photo.value.retainedUntil <= cutoff ==>
                |batch| == limit && r.photo.value.retainedUntil <= reports[id].photo.value.retainedUntil
    {
      var expired := ExpiredIn(RowsOf(reports, order), cutoff);
      batch := Head(Sort(ByDeadline(cutoff), expired), limit);
      HeadIsOldestBatch(reports, order, cutoff, limit);
      OldestBatchMeaning(reports, cutoff, limit, batch);
      ghost var rest := HeadIsBest(ByDeadline(cutoff), expired, limit);
    }

    method PurgeExpired(cutoff: int, limit: int, answers: Answers)
        returns (result: Option<PurgeResult>, batch: seq<Report>)
      requires Valid()
      modifies `reports, `objects
      ensures Valid()
      ensures !(1 <= limit <= MAX_PURGE) ==> result == None && Contents() == old(Contents())
      ensures 1 <= limit <= MAX_PURGE ==>
                && IsOldestBatch(old(reports), cutoff, limit, batch)
                && Contents() == Purged(old(Contents()), batch, cutoff, answers)
                && result.Some?
                && result.value.scanned == |batch|
                && result.value.deleted == |Confirmed(batch, answers)|
                && result.value.deleted + result.value.failed == result.value.scanned
      ensures forall id :: id in reports <==> id in old(reports)
      ensures forall id :: id in reports ==>
                var before := old(reports)[id];
                reports[id] == if before in batch && before.photo.Some? && answers(before.photo.value.key).Removed?
                               then before.(deletedAt := Some(cutoff)) else before
      ensures forall key :: key in objects <==>
                && key in old(objects)
                && !exists r :: r in batch && r.photo.Some? && r.photo.value.key == key && !answers(key).Kept?
    {
      if !(1 <= limit <= MAX_PURGE) {
        return None, [];
      }
      batch := ExpiredMedia(cutoff, limit);
      var deleted, failed := DeletePhotos(batch, cutoff, answers);
      result := Some(PurgeResult(|batch|, deleted, failed));
    }

    /** The purge's loop, which counts the failures and goes on. */
    method DeletePhotos(batch: seq<Report>, at: int, answers: Answers) returns (deleted: nat, failed: nat)
      requires Valid() && HasDistinctIds(batch) && AreExpiredRows(reports, at, batch)
      modifies `reports, `objects
      ensures Valid() && Contents() == Purged(old(Contents()), batch, at, answers)
      ensures deleted == |Confirmed(batch, answers)| && deleted + failed == |batch|
    {
      deleted, failed := 0, 0;
      ghost var before := Contents();
      assert Purged(before, batch[..0], at, answers) == before;
      for i := 0 to |batch|
        invariant Valid()
        invariant Contents() == Purged(before, batch[..i], at, answers)
        invariant deleted == |Confirmed(batch[..i], answers)| && deleted + failed == i
      {
        PurgeNext(before, batch, i, at, answers);
        ConfirmedNext(batch, i, answers);
        var confirmed := DeleteReportPhoto(batch[i], at, answers(batch[i].photo.value.key));
        if confirmed {
          deleted := deleted + 1;
        } else {
          failed := failed + 1;
        }
      }
      assert batch[..|batch|] == batch;
    }
  }
}
