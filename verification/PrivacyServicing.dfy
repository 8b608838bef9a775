/** Account deletion as one uninterrupted request: external data first, the account last. */
module PrivacyServicing {
  import opened Wrappers
  import opened Evidence
  import opened EvidencePurge
  import opened AccountErasure

  const DELETION_CONFIRMATION := "DELETE MY PARKSHIELD ACCOUNT"

  /** The signed-in user with what the credential checks say of the request. */
  datatype Claim = Claim(
    user: nat, isPrivileged: bool, confirmation: string, passwordMatches: bool, mfaEnabled: bool, mfaMatches: bool)

  datatype DeletionError = NotPermitted | ExternalDeletionFailed | AccountGone

  datatype RequestStatus = Processing | Completed

  predicate IsPermitted(claim: Claim) {
    && !claim.isPrivileged
    && claim.confirmation == DELETION_CONFIRMATION
    && claim.passwordMatches
    && (claim.mfaEnabled ==> claim.mfaMatches)
  }

  predicate AllConfirmed(keys: set<Key>, answers: Answers) {
    forall key :: key in keys ==> answers(key).Removed?
  }

  function SetOf(keys: seq<Key>): set<Key> {
    set key | key in keys
  }

  /** The deletion of the `k`th key is the first that is not confirmed. */
  predicate StopsAt(keys: seq<Key>, answers: Answers, k: nat)
    requires k < |keys|
  {
    !answers(keys[k]).Removed? && forall key :: key in keys[..k] ==> answers(key).Removed?
  }

  class PrivacyService {
    const hasStore: bool
    const hasAnalytics: bool
    const subjectOf: nat -> string
    var users: set<nat>
    var reports: map<nat, Report>
    var objects: set<Key>
    var events: seq<Event>
    var requests: map<nat, RequestStatus>

    constructor (hasStore: bool, hasAnalytics: bool, subjectOf: nat -> string)
      ensures this.hasStore == hasStore && this.hasAnalytics == hasAnalytics && this.subjectOf == subjectOf
      ensures users == {} && reports == map[] && objects == {} && events == [] && requests == map[]
    {
      this.hasStore, this.hasAnalytics, this.subjectOf := hasStore, hasAnalytics, subjectOf;
      users, reports, objects, events, requests := {}, map[], {}, [], map[];
    }

    /** The rows may come in any order. */
    method ActiveMediaKeys(user: nat) returns (keys: seq<Key>)
      ensures Lists(keys, ActiveKeys(reports, user))
      ensures forall key :: key in keys <==>
                exists id :: id in reports && reports[id].owner == user && reports[id].deletedAt.None?
                             && reports[id].photo.Some? && reports[id].photo.value.key == key
    {
      keys := [];
      var ids, seen := reports.Keys, {};
      while ids != {}
        invariant ids + seen == reports.Keys
        invariant forall key :: key in keys <==>
                    exists id :: id in seen && reports[id].owner == user && IsAvailable(reports[id])
                                 && reports[id].photo.value.key == key
        decreases ids
      {
        var id :| id in ids;
        if reports[id].owner == user && IsAvailable(reports[id]) {
          keys := keys + [reports[id].photo.value.key];
        }
        ids, seen := ids - {id}, seen + {id};
      }
    }

    /** Stops at the first deletion that is not confirmed, and leaves the objects after it alone. */
    method DeleteObjects(keys: seq<Key>, answers: Answers) returns (deleted: bool)
      modifies `objects
      ensures deleted <==> forall key :: key in keys ==> answers(key).Removed?
      ensures deleted ==> objects == old(objects) - SetOf(keys)
      ensures !deleted ==> exists k: nat :: k < |keys| && StopsAt(keys, answers, k)
                                            && objects == AfterDelete(old(objects) - SetOf(keys[..k]),
                                                                      keys[k], answers(keys[k]))
    {
      for i := 0 to |keys|
        invariant objects == old(objects) - SetOf(keys[..i])
        invariant forall key :: key in keys[..i] ==> answers(key).Removed?
      {
        objects := AfterDelete(objects, keys[i], answers(keys[i]));
        assert keys[..i + 1] == keys[..i] + [keys[i]];
        if !answers(keys[i]).Removed? {
          assert StopsAt(keys, answers, i);
          return false;
        }
      }
      assert keys[..|keys|] == keys;
      return true;
    }

    /** The photos first, the tracked events once every photo is confirmed gone. */
    method EraseExternalData(user: nat, answers: Answers, forgotten: bool) returns (erased: bool)
      modifies `objects, `events
      ensures var keys := ActiveKeys(reports, user);
              && (erased <==> (keys == {} || hasStore) && AllConfirmed(keys, answers) && (hasAnalytics ==> forgotten))
              && (erased ==> objects == old(objects) - keys)
              && objects <= old(objects) <= objects + keys
      ensures events == if erased && hasAnalytics then WithoutSubject(old(events), subjectOf(user)) else old(events)
    {
      var keys := ActiveMediaKeys(user);
      if keys != [] && !hasStore {
        assert keys[0] in ActiveKeys(reports, user);
        return false;
      }
      if hasStore {
        var deleted := DeleteObjects(keys, answers);
        if !deleted {
          return false;
        }
      }
      if hasAnalytics {
        if !forgotten {
          return false;
        }
        events := WithoutSubject(events, subjectOf(user));
      }
      return true;
    }

    /** Succeeds only after every deletion was confirmed; on failure the account and its reports are still there. */
    method DeleteAccount(claim: Claim, request: nat, answers: Answers, forgotten: bool)
        returns (result: Result<nat, DeletionError>)
      requires request !in requests
      modifies `users, `reports, `objects, `events, `requests
      ensures var keys := ActiveKeys(old(reports), claim.user);
              result.Ok? <==>
                && IsPermitted(claim)
                && (keys == {} || hasStore) && AllConfirmed(keys, answers)
                && (hasAnalytics ==> forgotten)
                && claim.user in old(users)
      ensures result.Ok? ==>
                && result.value == request && requests == old(requests)[request := Completed]
                && users == old(users) - {claim.user}
                && reports == WithoutOwner(old(reports), claim.user)
                && objects == old(objects) - ActiveKeys(old(reports), claim.user)
                && events == (if hasAnalytics then WithoutSubject(old(events), subjectOf(claim.user)) else old(events))
      ensures result.Err? && claim.user in old(users) ==>
                && users == old(users) && reports == old(reports) && events == old(events)
                && objects <= old(objects) <= objects + ActiveKeys(reports, claim.user)
                && (request in requests ==> requests[request] == Processing)
      ensures result == Err(NotPermitted) ==> objects == old(objects) && requests == old(requests)
      ensures result == Err(NotPermitted) <==>
                || claim.isPrivileged || claim.confirmation != "DELETE MY PARKSHIELD ACCOUNT"
                || !claim.passwordMatches || (claim.mfaEnabled && !claim.mfaMatches)
      ensures result.Ok? ==>
                && (forall id :: id in reports <==> id in old(reports) && old(reports)[id].owner != claim.user)
                && (forall id :: id in reports ==> reports[id] == old(reports)[id])
    {
      if !IsPermitted(claim) {
        return Err(NotPermitted);
      }
      requests := requests[request := Processing];
      var erased := EraseExternalData(claim.user, answers, forgotten);
      if !erased {
        return Err(ExternalDeletionFailed);
      }
      requests := requests[request := Completed];
      if claim.user !in users {
        return Err(AccountGone);
      }
      reports := WithoutOwner(reports, claim.user);
      users := users - {claim.user};
      return Ok(request);
    }
  }
}
