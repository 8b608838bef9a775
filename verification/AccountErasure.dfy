/**
 Account erasure beside the rest of the traffic. The deletion of an account
 lists the user's photos, deletes them one by one, has the analytics forget the
 user, and removes the account last. A submission uploads its photo, then saves
 its report, and discards the photo when that fails. A rejection or a purge has
 the store delete a photo, and then marks it. All these requests interleave at
 every step, and each may be cut off between two of its own.
 */
module AccountErasure {
  import opened Wrappers
  import opened Evidence

  datatype Event = Event(subject: string, name: string, expiresAt: int)

  /** Where an erasure stands: photos left to delete, or only the account left to remove. */
  datatype Phase = Deleting(left: seq<Key>) | Forgotten

  /** `late` and `trackedLate` are history: rows saved since the listing, events tracked since the forgetting. */
  datatype Erasure = Erasure(user: nat, phase: Phase, late: set<Key>, trackedLate: bool)

  datatype Stage = AwaitingSave | AwaitingDiscard

  /** A submission that has uploaded its photo. */
  datatype PendingUpload = PendingUpload(owner: nat, status: Status, photo: Photo, stage: Stage)

  /**
   Apart from the tables, the store and the running requests a world keeps
   history: who uploaded what, which uploads got their row, which deletions were
   confirmed, and why an object may be left without a row: its upload failed as if
   nothing had been stored, it could not be discarded, its submission was cut off,
   or its account went away.
   */
  datatype World = World(
    users: set<nat>,
    evidence: Evidence,
    events: seq<Event>,
    erasures: map<nat, Erasure>,
    uploads: map<nat, PendingUpload>,
    uploader: map<Key, nat>,
    rowed: set<Key>,
    released: set<Key>,
    unconfirmed: set<Key>,
    undiscarded: set<Key>,
    abandoned: set<Key>,
    outlived: set<Key>)

  const START := World({}, NO_EVIDENCE, [], map[], map[], map[], {}, {}, {}, {}, {}, {})

  datatype Config = Config(subjectOf: nat -> string, hasStore: bool, hasAnalytics: bool, maxEvents: nat)

  datatype Step =
    | Register(user: nat)
    | SavePlain(id: nat, owner: nat, status: Status)
    | Put(id: nat, owner: nat, status: Status, upload: Upload)
    | Save(id: nat, saved: bool)
    | Discard(id: nat, outcome: DeleteOutcome)
    | CutOff(id: nat)
    | SetStatus(id: nat, status: Status)
    | Release(key: Key, outcome: DeleteOutcome)
    | Mark(id: nat, at: int)
    | Track(owner: nat, name: string, expiresAt: int)
    | Begin(request: nat, user: nat, keys: seq<Key>)
    | DeleteNext(request: nat, outcome: DeleteOutcome)
    | Forget(request: nat, confirmed: bool)
    | Remove(request: nat)
    | GiveUp(request: nat)

  // ------------------------------------------------------------------- the data

  /** The objects of the reports that still have their photo, by owner. */
  function ActiveKeys(reports: map<nat, Report>, user: nat): set<Key> {
    set id | id in reports && reports[id].owner == user && IsAvailable(reports[id]) :: reports[id].photo.value.key
  }

  function WithoutOwner(reports: map<nat, Report>, user: nat): map<nat, Report> {
    map id | id in reports && reports[id].owner != user :: reports[id]
  }

  function WithoutSubject(events: seq<Event>, subject: string): (kept: seq<Event>)
    ensures forall e :: e in kept <==> e in events && e.subject != subject
  {
    if events == [] then []
    else (if events[0].subject == subject then [] else [events[0]]) + WithoutSubject(events[1..], subject)
  }

  /** The bounded buffer drops its oldest events. */
  function Published(events: seq<Event>, e: Event, maxEvents: nat): seq<Event> {
    var all := events + [e];
    if |all| > maxEvents then all[|all| - maxEvents..] else all
  }

  /** The buffer holds the newest events, at most so many, the last of them the new one. */
  lemma PublishedKeepsNewest(events: seq<Event>, e: Event, maxEvents: nat)
    ensures var after := Published(events, e, maxEvents);
            && |after| == (if |events| < maxEvents then |events| + 1 else maxEvents)
            && (maxEvents > 0 ==> after[|after| - 1] == e)
            && forall i: nat :: i < |after| - 1 ==> after[i] == events[|events| + 1 - |after| + i]
  {
  }

  ghost predicate Lists(keys: seq<Key>, wanted: set<Key>) {
    forall key :: key in keys <==> key in wanted
  }

  // ------------------------------------------------------------------ the steps

  /** Identifiers are random and never drawn twice. */
  ghost predicate IsFreshId(w: World, id: nat) {
    id !in w.evidence.reports && id !in w.uploads && forall key :: key in w.uploader ==> key.report != id
  }

  ghost predicate IsFreshUser(w: World, user: nat) {
    user !in w.users && forall key :: key in w.uploader ==> w.uploader[key] != user
  }

  predicate IsErasing(w: World, request: nat) {
    request in w.erasures && w.erasures[request].phase.Deleting?
  }

  predicate IsMarkable(w: World, id: nat) {
    && id in w.evidence.reports && w.evidence.reports[id].photo.Some?
    && w.evidence.reports[id].photo.value.key in w.released
  }

  /** A report can only be saved for an existing user, and only photos that got a row are ever deleted through it. */
  ghost predicate IsEnabled(c: Config, w: World, s: Step) {
    match s
    case Register(user) => IsFreshUser(w, user)
    case SavePlain(id, owner, _) => IsFreshId(w, id) && owner in w.users
    case Put(id, _, _, _) => IsFreshId(w, id)
    case Save(id, saved) =>
      id in w.uploads && w.uploads[id].stage.AwaitingSave? && (saved ==> w.uploads[id].owner in w.users)
    case Discard(id, _) => id in w.uploads && w.uploads[id].stage.AwaitingDiscard?
    case CutOff(id) => id in w.uploads
    case SetStatus(id, _) => id in w.evidence.reports
    case Release(key, _) => key in w.rowed
    case Mark(id, _) => IsMarkable(w, id)
    case Track(_, _, _) => true
    case Begin(request, user, keys) =>
      request !in w.erasures && user in w.users && Lists(keys, ActiveKeys(w.evidence.reports, user))
    case DeleteNext(request, _) => IsErasing(w, request) && w.erasures[request].phase.left != []
    case Forget(request, _) => IsErasing(w, request) && w.erasures[request].phase.left == []
    case Remove(request) => request in w.erasures && w.erasures[request].phase.Forgotten?
    case GiveUp(request) => request in w.erasures
  }

  function WithLate(erasures: map<nat, Erasure>, owner: nat, key: Key): map<nat, Erasure> {
    map r | r in erasures ::
      if erasures[r].user == owner then erasures[r].(late := erasures[r].late + {key}) else erasures[r]
  }

  function WithTracked(c: Config, erasures: map<nat, Erasure>, subject: string): map<nat, Erasure> {
    map r | r in erasures ::
      if c.subjectOf(erasures[r].user) == subject then erasures[r].(trackedLate := true) else erasures[r]
  }

  function AfterPut(w: World, id: nat, owner: nat, status: Status, u: Upload): World {
    var key := Key(id, u.checksum);
    match u.outcome
    case NotStored => w
    case StoredUnconfirmed =>
      w.(evidence := w.evidence.(objects := w.evidence.objects + {key}, leaked := w.evidence.leaked + {key}),
         uploader := w.uploader[key := owner],
         unconfirmed := w.unconfirmed + {key})
    case Stored =>
      w.(evidence := w.evidence.(objects := w.evidence.objects + {key}),
         uploader := w.uploader[key := owner],
         uploads := w.uploads[id := PendingUpload(owner, status, Photo(key, u.retainedUntil), AwaitingSave)])
  }

  function AfterSave(w: World, id: nat, saved: bool): World
    requires id in w.uploads
  {
    var u := w.uploads[id];
    var key := u.photo.key;
    if saved then
      w.(evidence := w.evidence.(reports :=
           w.evidence.reports[id := Report(id, u.owner, u.status, Some(u.photo), None)]),
         uploads := w.uploads - {id},
         rowed := w.rowed + {key},
         erasures := WithLate(w.erasures, u.owner, key))
    else w.(uploads := w.uploads[id := u.(stage := AwaitingDiscard)])
  }

  function AfterDiscard(w: World, id: nat, outcome: DeleteOutcome): World
    requires id in w.uploads
  {
    var key := w.uploads[id].photo.key;
    var after := w.(uploads := w.uploads - {id},
                    evidence := w.evidence.(objects := AfterDelete(w.evidence.objects, key, outcome)));
    if outcome.Kept?
    then after.(evidence := after.evidence.(leaked := w.evidence.leaked + {key}), undiscarded := w.undiscarded + {key})
    else after
  }

  /** A submission that is cancelled discards nothing. */
  function AfterCutOff(w: World, id: nat): World
    requires id in w.uploads
  {
    var key := w.uploads[id].photo.key;
    w.(uploads := w.uploads - {id},
       evidence := w.evidence.(leaked := w.evidence.leaked + {key}),
       abandoned := w.abandoned + {key})
  }

  function AfterRelease(w: World, key: Key, outcome: DeleteOutcome): World {
    w.(evidence := w.evidence.(objects := AfterDelete(w.evidence.objects, key, outcome)),
       released := if outcome.Removed? then w.released + {key} else w.released)
  }

  /** An erasure that meets a failure ends there, with the account in place. */
  function AfterDeleteNext(w: World, request: nat, outcome: DeleteOutcome): World
    requires IsErasing(w, request) && w.erasures[request].phase.left != []
  {
    var left := w.erasures[request].phase.left;
    var after := w.(evidence := w.evidence.(objects := AfterDelete(w.evidence.objects, left[0], outcome)));
    if outcome.Removed?
    then after.(erasures := w.erasures[request := w.erasures[request].(phase := Deleting(left[1..]))])
    else after.(erasures := w.erasures - {request})
  }

  function AfterForget(c: Config, w: World, request: nat, confirmed: bool): World
    requires request in w.erasures
  {
    var erasure := w.erasures[request];
    if c.hasAnalytics && !confirmed then w.(erasures := w.erasures - {request})
    else
      w.(events := if c.hasAnalytics then WithoutSubject(w.events, c.subjectOf(erasure.user)) else w.events,
         erasures := w.erasures[request := erasure.(phase := Forgotten, trackedLate := false)])
  }

  /** Removing the account takes its reports along; the store keeps what it still holds. */
  function AfterRemove(w: World, request: nat): World
    requires request in w.erasures
  {
    var user := w.erasures[request].user;
    if user !in w.users then w.(erasures := w.erasures - {request})
    else
      var orphans := ActiveKeys(w.evidence.reports, user) * w.evidence.objects;
      w.(users := w.users - {user},
         evidence := w.evidence.(reports := WithoutOwner(w.evidence.reports, user),
                                 leaked := w.evidence.leaked + orphans),
         erasures := w.erasures - {request},
         outlived := w.outlived + orphans)
  }

  function WithRow(w: World, r: Report): World {
    w.(evidence := w.evidence.(reports := w.evidence.reports[r.id := r]))
  }

  ghost function Next(c: Config, w: World, s: Step): World
    requires IsEnabled(c, w, s)
  {
    match s
    case Register(user) => w.(users := w.users + {user})
    case SavePlain(id, owner, status) => WithRow(w, Report(id, owner, status, None, None))
    case Put(id, owner, status, upload) => AfterPut(w, id, owner, status, upload)
    case Save(id, saved) => AfterSave(w, id, saved)
    case Discard(id, outcome) => AfterDiscard(w, id, outcome)
    case CutOff(id) => AfterCutOff(w, id)
    case SetStatus(id, status) =>
      w.(evidence := w.evidence.(reports := w.evidence.reports[id := w.evidence.reports[id].(status := status)]))
    case Release(key, outcome) => AfterRelease(w, key, outcome)
    case Mark(id, at) =>
      w.(evidence := w.evidence.(reports := w.evidence.reports[id := w.evidence.reports[id].(deletedAt := Some(at))]))
    case Track(owner, name, expiresAt) =>
      var subject := c.subjectOf(owner);
      w.(events := Published(w.events, Event(subject, name, expiresAt), c.maxEvents),
         erasures := WithTracked(c, w.erasures, subject))
    case Begin(request, user, keys) =>
      if keys != [] && !c.hasStore then w
      else w.(erasures := w.erasures[request := Erasure(user, Deleting(if c.hasStore then keys else []), {}, false)])
    case DeleteNext(request, outcome) => AfterDeleteNext(w, request, outcome)
    case Forget(request, confirmed) => AfterForget(c, w, request, confirmed)
    case Remove(request) => AfterRemove(w, request)
    case GiveUp(request) => w.(erasures := w.erasures - {request})
  }

  // --------------------------------------------------------------- the invariant

  /** The object of a submission that has not saved its report yet. */
  predicate IsPending(w: World, key: Key) {
    key.report in w.uploads && w.uploads[key.report].photo.key == key
  }

  predicate IsAccounted(w: World, key: Key) {
    key in w.evidence.leaked || IsHeld(w.evidence.reports, key) || IsPending(w, key)
  }

  predicate ObjectsAreAccounted(w: World) {
    forall key :: key in w.evidence.objects ==> key in w.uploader && IsAccounted(w, key)
  }

  predicate RowIsOwned(w: World, id: nat)
    requires id in w.evidence.reports
  {
    var r := w.evidence.reports[id];
    && r.id == id && r.owner in w.users && id !in w.uploads
    && (r.photo.Some? ==>
          var key := r.photo.value.key;
          key.report == id && key in w.uploader && w.uploader[key] == r.owner && key in w.rowed)
  }

  predicate RowsAreOwned(w: World) {
    forall id :: id in w.evidence.reports ==> RowIsOwned(w, id)
  }

  predicate UploadsAreOwned(w: World) {
    forall id :: id in w.uploads ==>
      var key := w.uploads[id].photo.key;
      key.report == id && key in w.uploader && w.uploader[key] == w.uploads[id].owner
      && key !in w.rowed && key !in w.released
  }

  /** Deleted objects do not come back, and what the history names was uploaded. */
  predicate HistoryIsSound(w: World) {
    && w.evidence.leaked == w.unconfirmed + w.undiscarded + w.abandoned + w.outlived
    && (forall key :: key in w.rowed ==> key in w.uploader)
    && (forall key :: key in w.released ==> key in w.rowed && key !in w.evidence.objects)
    && (forall key :: key in w.outlived ==> key in w.uploader && w.uploader[key] !in w.users)
  }

  /** Every object still held by the user's reports is on the erasure's list, or its row was saved after the listing. */
  predicate IsCovered(e: Evidence, erasure: Erasure) {
    forall key :: key in e.objects && key in ActiveKeys(e.reports, erasure.user) ==>
      key in erasure.late || (erasure.phase.Deleting? && key in erasure.phase.left)
  }

  predicate IsForgotten(c: Config, events: seq<Event>, erasure: Erasure) {
    erasure.phase.Forgotten? && !erasure.trackedLate && c.hasAnalytics ==>
      forall e :: e in events ==> e.subject != c.subjectOf(erasure.user)
  }

  predicate ErasuresAreSound(c: Config, w: World) {
    forall r :: r in w.erasures ==>
      IsCovered(w.evidence, w.erasures[r]) && IsForgotten(c, w.events, w.erasures[r])
  }

  predicate Inv(c: Config, w: World) {
    && ObjectsAreAccounted(w)
    && RowsAreOwned(w)
    && UploadsAreOwned(w)
    && HistoryIsSound(w)
    && ErasuresAreSound(c, w)
  }

  lemma StartIsGood(c: Config)
    ensures Inv(c, START)
  {
  }

  lemma HeldIsActive(reports: map<nat, Report>, key: Key)
    requires IsHeld(reports, key)
    ensures key in ActiveKeys(reports, reports[key.report].owner)
  {
  }

  // ------------------------------------------------------- every step keeps it

  /** Where no object and no active row comes new, every erasure stays covered. */
  predicate OnlyLoses(before: Evidence, after: Evidence) {
    && after.objects <= before.objects
    && forall id :: id in after.reports && IsAvailable(after.reports[id]) ==>
         && id in before.reports && IsAvailable(before.reports[id])
         && before.reports[id].owner == after.reports[id].owner
         && before.reports[id].photo == after.reports[id].photo
  }

  lemma LosingKeepsCover(before: Evidence, after: Evidence, erasure: Erasure)
    requires OnlyLoses(before, after) && IsCovered(before, erasure)
    ensures IsCovered(after, erasure)
  {
    assert ActiveKeys(after.reports, erasure.user) <= ActiveKeys(before.reports, erasure.user);
  }

  /** Steps that leave events and erasures alone. */
  lemma LosingKeepsErasures(c: Config, w: World, after: World)
    requires ErasuresAreSound(c, w) && OnlyLoses(w.evidence, after.evidence)
    requires after.events == w.events && after.erasures == w.erasures
    ensures ErasuresAreSound(c, after)
  {
    forall r | r in after.erasures
      ensures IsCovered(after.evidence, after.erasures[r]) && IsForgotten(c, after.events, after.erasures[r])
    {
      LosingKeepsCover(w.evidence, after.evidence, w.erasures[r]);
    }
  }

  lemma RowKeepsInv(c: Config, w: World, r: Report)
    requires Inv(c, w) && IsFreshId(w, r.id) && r.owner in w.users && r.photo.None?
    ensures Inv(c, WithRow(w, r))
  {
    LosingKeepsErasures(c, w, WithRow(w, r));
  }

  lemma PutKeepsErasures(c: Config, w: World, id: nat, owner: nat, status: Status, u: Upload)
    requires Inv(c, w) && IsFreshId(w, id)
    ensures ErasuresAreSound(c, AfterPut(w, id, owner, status, u))
  {
    var after := AfterPut(w, id, owner, status, u);
    assert after.evidence.reports == w.evidence.reports && after.events == w.events;
    forall r | r in after.erasures
      ensures IsCovered(after.evidence, after.erasures[r]) && IsForgotten(c, after.events, after.erasures[r])
    {
      assert IsCovered(w.evidence, w.erasures[r]);
      forall key | key in ActiveKeys(w.evidence.reports, w.erasures[r].user) ensures key.report != id {}
    }
  }

  lemma PutKeepsAccounts(c: Config, w: World, id: nat, owner: nat, status: Status, u: Upload)
    requires Inv(c, w) && IsFreshId(w, id)
    ensures ObjectsAreAccounted(AfterPut(w, id, owner, status, u))
  {
    var after := AfterPut(w, id, owner, status, u);
    forall key | key in after.evidence.objects ensures key in after.uploader && IsAccounted(after, key) {
      assert key in w.evidence.objects ==> IsAccounted(w, key);
    }
  }

  lemma PutKeepsRows(c: Config, w: World, id: nat, owner: nat, status: Status, u: Upload)
    requires Inv(c, w) && IsFreshId(w, id)
    ensures RowsAreOwned(AfterPut(w, id, owner, status, u))
  {
    var after := AfterPut(w, id, owner, status, u);
    assert after.evidence.reports == w.evidence.reports && after.users == w.users && after.rowed == w.rowed;
    forall other | other in after.evidence.reports ensures RowIsOwned(after, other) {
      assert RowIsOwned(w, other) && other != id;
    }
  }

  lemma PutKeepsUploads(c: Config, w: World, id: nat, owner: nat, status: Status, u: Upload)
    requires Inv(c, w) && IsFreshId(w, id)
    ensures UploadsAreOwned(AfterPut(w, id, owner, status, u))
  {
    assert Key(id, u.checksum) !in w.uploader;
  }

  lemma PutKeepsHistory(c: Config, w: World, id: nat, owner: nat, status: Status, u: Upload)
    requires Inv(c, w) && IsFreshId(w, id)
    ensures HistoryIsSound(AfterPut(w, id, owner, status, u))
  {
    assert Key(id, u.checksum) !in w.uploader;
  }

  lemma PutKeepsInv(c: Config, w: World, id: nat, owner: nat, status: Status, u: Upload)
    requires Inv(c, w) && IsFreshId(w, id)
    ensures Inv(c, AfterPut(w, id, owner, status, u))
  {
    PutKeepsErasures(c, w, id, owner, status, u);
    PutKeepsAccounts(c, w, id, owner, status, u);
    PutKeepsRows(c, w, id, owner, status, u);
    PutKeepsUploads(c, w, id, owner, status, u);
    PutKeepsHistory(c, w, id, owner, status, u);
  }

  lemma SaveKeepsInv(c: Config, w: World, id: nat, saved: bool)
    requires Inv(c, w) && IsEnabled(c, w, Save(id, saved))
    ensures Inv(c, AfterSave(w, id, saved))
  {
    var after := AfterSave(w, id, saved);
    if saved {
      SavedErasuresAreSound(c, w, id);
      SavedObjectsAreAccounted(c, w, id);
    }
  }

  lemma SavedObjectsAreAccounted(c: Config, w: World, id: nat)
    requires Inv(c, w) && IsEnabled(c, w, Save(id, true))
    ensures ObjectsAreAccounted(AfterSave(w, id, true))
  {
    var after := AfterSave(w, id, true);
    forall key | key in after.evidence.objects ensures IsAccounted(after, key) {
      assert IsAccounted(w, key);
    }
  }

  lemma SavedErasuresAreSound(c: Config, w: World, id: nat)
    requires Inv(c, w) && IsEnabled(c, w, Save(id, true))
    ensures ErasuresAreSound(c, AfterSave(w, id, true))
  {
    var after := AfterSave(w, id, true);
    forall r | r in after.erasures
      ensures IsCovered(after.evidence, after.erasures[r]) && IsForgotten(c, after.events, after.erasures[r])
    {
      var user := w.erasures[r].user;
      assert IsCovered(w.evidence, w.erasures[r]) && IsForgotten(c, w.events, w.erasures[r]);
      forall key | key in ActiveKeys(after.evidence.reports, user)
        ensures key in ActiveKeys(w.evidence.reports, user) || key in after.erasures[r].late
      {
      }
    }
  }

  lemma DiscardKeepsInv(c: Config, w: World, id: nat, outcome: DeleteOutcome)
    requires Inv(c, w) && IsEnabled(c, w, Discard(id, outcome))
    ensures Inv(c, AfterDiscard(w, id, outcome))
  {
    var after := AfterDiscard(w, id, outcome);
    LosingKeepsErasures(c, w, after);
    forall key | key in after.evidence.objects ensures IsAccounted(after, key) {
      assert IsAccounted(w, key);
    }
  }

  lemma CutOffKeepsInv(c: Config, w: World, id: nat)
    requires Inv(c, w) && IsEnabled(c, w, CutOff(id))
    ensures Inv(c, AfterCutOff(w, id))
  {
    var after := AfterCutOff(w, id);
    LosingKeepsErasures(c, w, after);
    forall key | key in after.evidence.objects ensures IsAccounted(after, key) {
      assert IsAccounted(w, key);
    }
  }

  lemma StatusKeepsInv(c: Config, w: World, id: nat, status: Status)
    requires Inv(c, w) && id in w.evidence.reports
    ensures Inv(c, Next(c, w, SetStatus(id, status)))
  {
    var after := Next(c, w, SetStatus(id, status));
    LosingKeepsErasures(c, w, after);
    forall key | key in after.evidence.objects ensures IsAccounted(after, key) {
      assert IsAccounted(w, key);
    }
    forall other | other in after.evidence.reports ensures RowIsOwned(after, other) {
      assert RowIsOwned(w, other);
    }
  }

  lemma ReleaseKeepsInv(c: Config, w: World, key: Key, outcome: DeleteOutcome)
    requires Inv(c, w) && key in w.rowed
    ensures Inv(c, AfterRelease(w, key, outcome))
  {
    LosingKeepsErasures(c, w, AfterRelease(w, key, outcome));
    var after := AfterRelease(w, key, outcome);
    forall other | other in after.evidence.objects ensures IsAccounted(after, other) {
      assert IsAccounted(w, other);
    }
    forall id | id in after.evidence.reports ensures RowIsOwned(after, id) {
      assert RowIsOwned(w, id);
    }
  }

  lemma MarkKeepsInv(c: Config, w: World, id: nat, at: int)
    requires Inv(c, w) && IsMarkable(w, id)
    ensures Inv(c, Next(c, w, Mark(id, at)))
  {
    var after := Next(c, w, Mark(id, at));
    LosingKeepsErasures(c, w, after);
    forall key | key in after.evidence.objects ensures IsAccounted(after, key) {
      assert IsAccounted(w, key) && key !in w.released;
    }
    forall other | other in after.evidence.reports ensures RowIsOwned(after, other) {
      assert RowIsOwned(w, other);
    }
  }

  lemma TrackKeepsInv(c: Config, w: World, s: Step)
    requires Inv(c, w) && s.Track?
    ensures Inv(c, Next(c, w, s))
  {
    var after := Next(c, w, s);
    forall r | r in after.erasures
      ensures IsCovered(after.evidence, after.erasures[r]) && IsForgotten(c, after.events, after.erasures[r])
    {
      assert IsCovered(w.evidence, w.erasures[r]) && IsForgotten(c, w.events, w.erasures[r]);
    }
  }

  lemma BeginKeepsInv(c: Config, w: World, s: Step)
    requires Inv(c, w) && s.Begin? && IsEnabled(c, w, s)
    ensures Inv(c, Next(c, w, s))
  {
  }

  lemma DeleteNextKeepsInv(c: Config, w: World, request: nat, outcome: DeleteOutcome)
    requires Inv(c, w) && IsEnabled(c, w, DeleteNext(request, outcome))
    ensures Inv(c, AfterDeleteNext(w, request, outcome))
  {
    var left := w.erasures[request].phase.left;
    var after := AfterDeleteNext(w, request, outcome);
    forall r | r in after.erasures
      ensures IsCovered(after.evidence, after.erasures[r]) && IsForgotten(c, after.events, after.erasures[r])
    {
      assert IsCovered(w.evidence, w.erasures[r]) && IsForgotten(c, w.events, w.erasures[r]);
      assert left == [left[0]] + left[1..];
    }
    forall key | key in after.evidence.objects ensures IsAccounted(after, key) {
      assert IsAccounted(w, key);
    }
  }

  lemma ForgetKeepsInv(c: Config, w: World, request: nat, confirmed: bool)
    requires Inv(c, w) && IsEnabled(c, w, Forget(request, confirmed))
    ensures Inv(c, AfterForget(c, w, request, confirmed))
  {
    var after := AfterForget(c, w, request, confirmed);
    forall r | r in after.erasures
      ensures IsCovered(after.evidence, after.erasures[r]) && IsForgotten(c, after.events, after.erasures[r])
    {
      assert IsCovered(w.evidence, w.erasures[r]) && IsForgotten(c, w.events, w.erasures[r]);
    }
  }

  lemma RemoveKeepsInv(c: Config, w: World, request: nat)
    requires Inv(c, w) && IsEnabled(c, w, Remove(request))
    ensures Inv(c, AfterRemove(w, request))
  {
    var after := AfterRemove(w, request);
    forall r | r in after.erasures
      ensures IsCovered(after.evidence, after.erasures[r]) && IsForgotten(c, after.events, after.erasures[r])
    {
      LosingKeepsCover(w.evidence, after.evidence, w.erasures[r]);
      assert IsForgotten(c, w.events, w.erasures[r]);
    }
    forall key | key in after.evidence.objects ensures IsAccounted(after, key) {
      assert IsAccounted(w, key);
      if IsHeld(w.evidence.reports, key) {
        HeldIsActive(w.evidence.reports, key);
      }
    }
    forall key | key in after.outlived ensures key in after.uploader && after.uploader[key] !in after.users {
      if key !in w.outlived {
        assert key in ActiveKeys(w.evidence.reports, w.erasures[request].user);
      }
    }
  }

  lemma StepKeepsInv(c: Config, w: World, s: Step)
    requires Inv(c, w) && IsEnabled(c, w, s)
    ensures Inv(c, Next(c, w, s))
  {
    match s
    case Register(_) =>
    case SavePlain(id, owner, status) => RowKeepsInv(c, w, Report(id, owner, status, None, None));
    case Put(id, owner, status, upload) => PutKeepsInv(c, w, id, owner, status, upload);
    case Save(id, saved) => SaveKeepsInv(c, w, id, saved);
    case Discard(id, outcome) => DiscardKeepsInv(c, w, id, outcome);
    case CutOff(id) => CutOffKeepsInv(c, w, id);
    case SetStatus(id, status) => StatusKeepsInv(c, w, id, status);
    case Release(key, outcome) => ReleaseKeepsInv(c, w, key, outcome);
    case Mark(id, at) => MarkKeepsInv(c, w, id, at);
    case Track(_, _, _) => TrackKeepsInv(c, w, s);
    case Begin(_, _, _) => BeginKeepsInv(c, w, s);
    case DeleteNext(request, outcome) => DeleteNextKeepsInv(c, w, request, outcome);
    case Forget(request, confirmed) => ForgetKeepsInv(c, w, request, confirmed);
    case Remove(request) => RemoveKeepsInv(c, w, request);
    case GiveUp(_) =>
  }

  // ------------------------------------------------------------- what follows

  /** A run: `worlds[i + 1]` comes from `worlds[i]` by `steps[i]`. */
  ghost predicate IsRun(c: Config, worlds: seq<World>, steps: seq<Step>) {
    && |worlds| == |steps| + 1
    && worlds[0] == START
    && forall i: nat :: i < |steps| ==> LeadsAt(c, worlds, steps, i)
  }

  ghost predicate LeadsAt(c: Config, worlds: seq<World>, steps: seq<Step>, i: nat)
    requires |worlds| == |steps| + 1 && i < |steps|
  {
    Leads(c, worlds[i], steps[i], worlds[i + 1])
  }

  ghost predicate Leads(c: Config, w: World, s: Step, after: World) {
    IsEnabled(c, w, s) && after == Next(c, w, s)
  }

  lemma {:induction false} RunKeepsInv(c: Config, worlds: seq<World>, steps: seq<Step>, i: nat)
    requires IsRun(c, worlds, steps) && i < |worlds|
    ensures Inv(c, worlds[i])
  {
    if i == 0 {
      StartIsGood(c);
    } else {
      RunKeepsInv(c, worlds, steps, i - 1);
      assert LeadsAt(c, worlds, steps, i - 1);
      StepKeepsInv(c, worlds[i - 1], steps[i - 1]);
    }
  }

  /**
   In every run, every stored object is held by a report that has its photo, waits
   for its submission to go on, was stored by an upload that reported a failure and
   so is never discarded, could not be discarded, was left by a submission that was
   cut off, or outlived its account.
   */
  lemma EvidenceIsAccountedFor(c: Config, worlds: seq<World>, steps: seq<Step>, i: nat, key: Key)
    requires IsRun(c, worlds, steps) && i < |worlds| && key in worlds[i].evidence.objects
    ensures || IsHeld(worlds[i].evidence.reports, key)
            || IsPending(worlds[i], key)
            || key in worlds[i].unconfirmed
            || key in worlds[i].undiscarded
            || key in worlds[i].abandoned
            || key in worlds[i].outlived
  {
    RunKeepsInv(c, worlds, steps, i);
    assert IsAccounted(worlds[i], key);
  }

  /** A stored object of the user's that no submission is busy with and none gave up on. */
  predicate IsUsersObject(w: World, user: nat, key: Key) {
    && key in w.evidence.objects
    && key in w.uploader && w.uploader[key] == user
    && !IsPending(w, key)
    && key !in w.unconfirmed && key !in w.undiscarded && key !in w.abandoned
  }

  lemma UsersObjectIsActive(c: Config, w: World, user: nat, key: Key)
    requires Inv(c, w) && user in w.users && IsUsersObject(w, user, key)
    ensures key in ActiveKeys(w.evidence.reports, user)
  {
    assert IsAccounted(w, key);
    HeldIsActive(w.evidence.reports, key);
    assert RowIsOwned(w, key.report);
  }

  /** With an account go its reports; of its objects exactly those stay whose row was saved after the listing. */
  lemma RemovalErasesAllButLate(c: Config, w: World, request: nat, key: Key)
    requires Inv(c, w) && IsEnabled(c, w, Remove(request)) && w.erasures[request].user in w.users
    ensures var erasure, after := w.erasures[request], Next(c, w, Remove(request));
            && (forall id :: id in after.evidence.reports <==>
                  id in w.evidence.reports && w.evidence.reports[id].owner != erasure.user)
            && (forall id :: id in after.evidence.reports ==> after.evidence.reports[id] == w.evidence.reports[id])
            && after.evidence.objects == w.evidence.objects && after.users == w.users - {erasure.user}
            && (IsUsersObject(after, erasure.user, key)
                <==> key in erasure.late && IsUsersObject(w, erasure.user, key))
            && (key in after.outlived && key !in w.outlived ==> key in erasure.late)
  {
    var erasure := w.erasures[request];
    assert IsCovered(w.evidence, erasure);
    if IsUsersObject(w, erasure.user, key) {
      UsersObjectIsActive(c, w, erasure.user, key);
    }
  }

  /** The step saves the row of an upload of the user. */
  predicate SavesRow(w: World, s: Step, user: nat, key: Key) {
    && s.Save? && s.saved && s.id in w.uploads
    && w.uploads[s.id].owner == user && w.uploads[s.id].photo.key == key
  }

  ghost predicate SavedBetween(worlds: seq<World>, steps: seq<Step>, from: nat, to: nat, user: nat, key: Key)
    requires |worlds| == |steps| + 1 && to < |worlds|
  {
    exists j: nat :: from <= j < to && SavesRow(worlds[j], steps[j], user, key)
  }

  predicate StaysOpen(worlds: seq<World>, from: nat, to: nat, request: nat)
    requires to < |worlds|
  {
    forall k: nat :: from <= k <= to ==> request in worlds[k].erasures
  }

  /** An erasure's late photos are exactly those whose row was saved since the step that listed the photos. */
  lemma {:induction false} LateMeansSavedSince(c: Config, worlds: seq<World>, steps: seq<Step>,
                                               from: nat, to: nat, request: nat, key: Key)
    requires IsRun(c, worlds, steps) && from <= to < |worlds|
    requires StaysOpen(worlds, from, to, request) && worlds[from].erasures[request].late == {}
    ensures worlds[to].erasures[request].user == worlds[from].erasures[request].user
    ensures key in worlds[to].erasures[request].late
            <==> SavedBetween(worlds, steps, from, to, worlds[from].erasures[request].user, key)
  {
    if from < to {
      LateMeansSavedSince(c, worlds, steps, from, to - 1, request, key);
      LateGrowsBySaves(c, worlds, steps, to - 1, request, key);
      SavedOneMore(worlds, steps, from, to, worlds[from].erasures[request].user, key);
    }
  }

  lemma LateGrowsBySaves(c: Config, worlds: seq<World>, steps: seq<Step>, i: nat, request: nat, key: Key)
    requires IsRun(c, worlds, steps) && i < |steps|
    requires request in worlds[i].erasures && request in worlds[i + 1].erasures
    ensures var before, after := worlds[i].erasures[request], worlds[i + 1].erasures[request];
            && after.user == before.user
            && (key in after.late <==> key in before.late || SavesRow(worlds[i], steps[i], before.user, key))
  {
    assert LeadsAt(c, worlds, steps, i);
  }

  lemma SavedOneMore(worlds: seq<World>, steps: seq<Step>, from: nat, to: nat, user: nat, key: Key)
    requires |worlds| == |steps| + 1 && from < to < |worlds|
    ensures SavedBetween(worlds, steps, from, to, user, key)
            <==> SavedBetween(worlds, steps, from, to - 1, user, key)
                 || SavesRow(worlds[to - 1], steps[to - 1], user, key)
  {
    if SavedBetween(worlds, steps, from, to, user, key) {
      var j: nat :| from <= j < to && SavesRow(worlds[j], steps[j], user, key);
      assert j < to - 1 ==> SavedBetween(worlds, steps, from, to - 1, user, key);
    }
  }

  /** An account removed after the analytics forgot the user leaves no event, unless one was tracked in between. */
  lemma RemovalLeavesNoEvents(c: Config, w: World, request: nat)
    requires Inv(c, w) && IsEnabled(c, w, Remove(request)) && c.hasAnalytics && !w.erasures[request].trackedLate
    ensures forall e :: e in Next(c, w, Remove(request)).events ==>
                          e.subject != c.subjectOf(w.erasures[request].user)
  {
    assert IsForgotten(c, w.events, w.erasures[request]);
  }

  predicate Tracks(c: Config, s: Step, subject: string) {
    s.Track? && c.subjectOf(s.owner) == subject
  }

  ghost predicate TrackedBetween(c: Config, steps: seq<Step>, from: nat, to: nat, subject: string)
    requires to <= |steps|
  {
    exists j: nat :: from <= j < to && Tracks(c, steps[j], subject)
  }

  /** A forgotten user counts as tracked again exactly when an event of the user was tracked since. */
  lemma {:induction false} TrackedMeansTrackedSince(c: Config, worlds: seq<World>, steps: seq<Step>,
                                                    from: nat, to: nat, request: nat)
    requires IsRun(c, worlds, steps) && from <= to < |worlds| && StaysOpen(worlds, from, to, request)
    requires worlds[from].erasures[request].phase.Forgotten? && !worlds[from].erasures[request].trackedLate
    ensures var erasure := worlds[to].erasures[request];
            && erasure.phase.Forgotten? && erasure.user == worlds[from].erasures[request].user
            && (erasure.trackedLate <==> TrackedBetween(c, steps, from, to, c.subjectOf(erasure.user)))
  {
    if from < to {
      TrackedMeansTrackedSince(c, worlds, steps, from, to - 1, request);
      TrackedByTracks(c, worlds, steps, to - 1, request);
      TrackedOneMore(c, steps, from, to, c.subjectOf(worlds[from].erasures[request].user));
    }
  }

  lemma TrackedByTracks(c: Config, worlds: seq<World>, steps: seq<Step>, i: nat, request: nat)
    requires IsRun(c, worlds, steps) && i < |steps|
    requires request in worlds[i].erasures && request in worlds[i + 1].erasures
    requires worlds[i].erasures[request].phase.Forgotten?
    ensures var before, after := worlds[i].erasures[request], worlds[i + 1].erasures[request];
            && after.phase == before.phase && after.user == before.user
            && (after.trackedLate <==> before.trackedLate || Tracks(c, steps[i], c.subjectOf(before.user)))
  {
    assert LeadsAt(c, worlds, steps, i);
  }

  lemma TrackedOneMore(c: Config, steps: seq<Step>, from: nat, to: nat, subject: string)
    requires from < to <= |steps|
    ensures TrackedBetween(c, steps, from, to, subject)
            <==> TrackedBetween(c, steps, from, to - 1, subject) || Tracks(c, steps[to - 1], subject)
  {
    if TrackedBetween(c, steps, from, to, subject) {
      var j: nat :| from <= j < to && Tracks(c, steps[j], subject);
      assert j < to - 1 ==> TrackedBetween(c, steps, from, to - 1, subject);
    }
  }

  /** What is left of a user's events when the account goes was tracked since the user was forgotten. */
  lemma EventsLeftWereTrackedSince(c: Config, worlds: seq<World>, steps: seq<Step>,
                                   from: nat, to: nat, request: nat, e: Event)
    requires IsRun(c, worlds, steps) && from < to < |steps| && c.hasAnalytics
    requires steps[from].Forget? && steps[from].request == request && steps[to] == Remove(request)
    requires StaysOpen(worlds, from + 1, to, request)
    requires e in worlds[to + 1].events && e.subject == c.subjectOf(worlds[to].erasures[request].user)
    ensures TrackedBetween(c, steps, from + 1, to, e.subject)
  {
    assert LeadsAt(c, worlds, steps, from) && LeadsAt(c, worlds, steps, to);
    TrackedMeansTrackedSince(c, worlds, steps, from + 1, to, request);
    RunKeepsInv(c, worlds, steps, to);
    if !worlds[to].erasures[request].trackedLate {
      RemovalLeavesNoEvents(c, worlds[to], request);
    }
  }

  lemma OnlyRemovalTakesUsers(c: Config, w: World, s: Step, user: nat)
    requires IsEnabled(c, w, s) && user in w.users && user !in Next(c, w, s).users
    ensures s.Remove? && w.erasures[s.request].user == user && w.erasures[s.request].phase.Forgotten?
  {
  }

  /** An account disappears only by the last step of an erasure whose deletions were all confirmed. */
  lemma AccountsLeaveOnlyErased(c: Config, w: World, s: Step, user: nat)
    requires Inv(c, w) && IsEnabled(c, w, s) && user in w.users && user !in Next(c, w, s).users
    ensures s.Remove? && w.erasures[s.request].user == user && w.erasures[s.request].phase.Forgotten?
    ensures forall key :: IsUsersObject(w, user, key) ==> key in w.erasures[s.request].late
  {
    OnlyRemovalTakesUsers(c, w, s, user);
    ForgottenIsErased(c, w, s.request);
  }

  lemma ForgottenIsErased(c: Config, w: World, request: nat)
    requires Inv(c, w) && request in w.erasures && w.erasures[request].phase.Forgotten?
    requires w.erasures[request].user in w.users
    ensures forall key :: IsUsersObject(w, w.erasures[request].user, key) ==> key in w.erasures[request].late
  {
    var user := w.erasures[request].user;
    forall key | IsUsersObject(w, user, key) ensures key in w.erasures[request].late {
      UsersObjectIsActive(c, w, user, key);
      assert IsCovered(w.evidence, w.erasures[request]);
    }
  }

  /** No account was removed after a row of its user had been saved behind the listing. */
  ghost predicate NothingSavedLate(worlds: seq<World>, steps: seq<Step>)
    requires |worlds| == |steps| + 1
  {
    forall i: nat :: i < |steps| && steps[i].Remove? && steps[i].request in worlds[i].erasures ==>
                       worlds[i].erasures[steps[i].request].late == {}
  }

  /** In such runs a stored object that no submission is busy with or gave up on belongs to a current user. */
  lemma {:induction false} ErasedUsersLeaveNothing(c: Config, worlds: seq<World>, steps: seq<Step>, i: nat)
    requires IsRun(c, worlds, steps) && NothingSavedLate(worlds, steps) && i < |worlds|
    ensures worlds[i].outlived == {}
    ensures forall user, key :: IsUsersObject(worlds[i], user, key) ==> user in worlds[i].users
  {
    RunKeepsInv(c, worlds, steps, i);
    if i > 0 {
      RunKeepsInv(c, worlds, steps, i - 1);
      ErasedUsersLeaveNothing(c, worlds, steps, i - 1);
      assert LeadsAt(c, worlds, steps, i - 1);
      NothingNewOutlives(c, worlds[i - 1], steps[i - 1]);
    }
    forall user, key | IsUsersObject(worlds[i], user, key) ensures user in worlds[i].users {
      assert IsAccounted(worlds[i], key);
      assert RowIsOwned(worlds[i], key.report);
    }
  }

  lemma NothingNewOutlives(c: Config, w: World, s: Step)
    requires Inv(c, w) && IsEnabled(c, w, s)
    requires s.Remove? ==> w.erasures[s.request].late == {}
    ensures Next(c, w, s).outlived == w.outlived
  {
    if s.Remove? && w.erasures[s.request].user in w.users {
      forall key ensures key in Next(c, w, s).outlived ==> key in w.outlived {
        RemovalErasesAllButLate(c, w, s.request, key);
      }
    }
  }

  // ------------------------------------------------------ submissions without interruption

  /** The steps of a submission of a photo, one after the other, do what `Submitted` says. */
  lemma SubmissionIsItsSteps(c: Config, w: World, id: nat, owner: nat, status: Status, u: Upload,
                             saved: bool, discard: DeleteOutcome)
    requires Inv(c, w) && IsFreshId(w, id) && (saved ==> owner in w.users)
    ensures var stored := AfterPut(w, id, owner, status, u);
            var end := if !u.outcome.Stored? then stored
                       else if saved then AfterSave(stored, id, true)
                       else AfterDiscard(AfterSave(stored, id, false), id, discard);
            end.evidence == Submitted(w.evidence, id, owner, status, Some(u), saved, discard).0
            && end.uploads == w.uploads
  {
    if u.outcome.Stored? {
      if saved {
        SavedIsItsSteps(w, id, owner, status, u, discard);
      } else {
        UnsavedIsItsSteps(w, id, owner, status, u, discard);
      }
    }
  }

  lemma SavedIsItsSteps(w: World, id: nat, owner: nat, status: Status, u: Upload, discard: DeleteOutcome)
    requires u.outcome.Stored? && id !in w.uploads
    ensures var end := AfterSave(AfterPut(w, id, owner, status, u), id, true);
            end.evidence == Submitted(w.evidence, id, owner, status, Some(u), true, discard).0
            && end.uploads == w.uploads
  {
    assert AfterPut(w, id, owner, status, u).uploads - {id} == w.uploads;
  }

  lemma UnsavedIsItsSteps(w: World, id: nat, owner: nat, status: Status, u: Upload, discard: DeleteOutcome)
    requires u.outcome.Stored? && id !in w.uploads
    ensures var end := AfterDiscard(AfterSave(AfterPut(w, id, owner, status, u), id, false), id, discard);
            end.evidence == Submitted(w.evidence, id, owner, status, Some(u), false, discard).0
            && end.uploads == w.uploads
  {
    assert AfterSave(AfterPut(w, id, owner, status, u), id, false).uploads - {id} == w.uploads;
  }

  /** Releasing the photo of a report and marking it, one after the other, do what `PhotoDeleted` says. */
  lemma DeletionIsItsSteps(c: Config, w: World, id: nat, at: int, outcome: DeleteOutcome)
    requires Inv(c, w) && id in w.evidence.reports && IsAvailable(w.evidence.reports[id])
    ensures var key := w.evidence.reports[id].photo.value.key;
            && IsEnabled(c, w, Release(key, outcome))
            && var released := Next(c, w, Release(key, outcome));
               if outcome.Removed? then
                 && IsEnabled(c, released, Mark(id, at))
                 && Next(c, released, Mark(id, at)).evidence == PhotoDeleted(w.evidence, id, at, outcome).0
               else released.evidence == PhotoDeleted(w.evidence, id, at, outcome).0
  {
    assert RowIsOwned(w, id);
  }

  // ---------------------------------------------------------- a photo saved late

  const LATE_PHOTO := Key(5, "photo")

  const LATE_UPLOAD := PendingUpload(1, Pending, Photo(LATE_PHOTO, 30), AwaitingSave)

  /** A photo is uploaded before its owner's erasure lists the photos, and its row saved after. */
  function LateWorld(i: nat): World {
    var uploaded := START.(users := {1}, evidence := Evidence(map[], {LATE_PHOTO}, {}),
                           uploader := map[LATE_PHOTO := 1], uploads := map[5 := LATE_UPLOAD]);
    var erasing := uploaded.(erasures := map[7 := Erasure(1, Deleting([]), {}, false)]);
    var report := Report(5, 1, Pending, Some(Photo(LATE_PHOTO, 30)), None);
    var saved := erasing.(evidence := Evidence(map[5 := report], {LATE_PHOTO}, {}), uploads := map[],
                          rowed := {LATE_PHOTO},
                          erasures := map[7 := Erasure(1, Deleting([]), {LATE_PHOTO}, false)]);
    match i
    case 0 => START
    case 1 => START.(users := {1})
    case 2 => uploaded
    case 3 => erasing
    case 4 => saved
    case 5 => saved.(erasures := map[7 := Erasure(1, Forgotten, {LATE_PHOTO}, false)])
    case _ => saved.(users := {}, evidence := Evidence(map[], {LATE_PHOTO}, {LATE_PHOTO}),
                     erasures := map[], outlived := {LATE_PHOTO})
  }

  const LATE_PUT := Put(5, 1, Pending, Upload("photo", 30, Stored))

  lemma LatePut(c: Config)
    ensures Leads(c, LateWorld(0), Register(1), LateWorld(1))
    ensures Leads(c, LateWorld(1), LATE_PUT, LateWorld(2))
  {
  }

  lemma LateBegin(c: Config)
    ensures Leads(c, LateWorld(2), Begin(7, 1, []), LateWorld(3))
  {
    assert ActiveKeys(LateWorld(2).evidence.reports, 1) == {};
  }

  lemma LateSave(c: Config)
    ensures Leads(c, LateWorld(3), Save(5, true), LateWorld(4))
  {
    var none: set<Key> := {};
    assert none + {LATE_PHOTO} == {LATE_PHOTO};
    assert WithLate(LateWorld(3).erasures, 1, LATE_PHOTO) == LateWorld(4).erasures;
    assert LateWorld(3).uploads - {5} == map[];
  }

  lemma LateForget(c: Config)
    ensures Leads(c, LateWorld(4), Forget(7, true), LateWorld(5))
  {
  }

  lemma LateRemove(c: Config)
    ensures Leads(c, LateWorld(5), Remove(7), LateWorld(6))
  {
    var reports := LateWorld(5).evidence.reports;
    assert ActiveKeys(reports, 1) == {LATE_PHOTO} by {
      assert 5 in reports && IsAvailable(reports[5]);
    }
    assert WithoutOwner(reports, 1) == map[];
  }

  function LateStep(i: nat): Step {
    match i
    case 0 => Register(1)
    case 1 => LATE_PUT
    case 2 => Begin(7, 1, [])
    case 3 => Save(5, true)
    case 4 => Forget(7, true)
    case _ => Remove(7)
  }

  lemma LateLeads(c: Config, i: nat)
    requires i < 6
    ensures Leads(c, LateWorld(i), LateStep(i), LateWorld(i + 1))
  {
    match i
    case 0 => LatePut(c);
    case 1 => LatePut(c);
    case 2 => LateBegin(c);
    case 3 => LateSave(c);
    case 4 => LateForget(c);
    case _ => LateRemove(c);
  }

  lemma LateRun(c: Config, worlds: seq<World>, steps: seq<Step>)
    requires worlds == seq(7, i requires 0 <= i => LateWorld(i)) && steps == seq(6, i requires 0 <= i => LateStep(i))
    ensures IsRun(c, worlds, steps)
  {
    forall i: nat | i < |steps| ensures LeadsAt(c, worlds, steps, i) {
      LateLeads(c, i);
    }
  }

  /** The condition is needed, and the upload may come first: only the row has to be saved after the listing. */
  lemma LatePhotoOutlivesAccount(c: Config) returns (worlds: seq<World>, steps: seq<Step>)
    ensures IsRun(c, worlds, steps)
    ensures |steps| == 6 && steps[1].Put? && steps[2].Begin? && steps[3].Save? && steps[5].Remove?
    ensures var last := worlds[|worlds| - 1];
            && last.users == {} && last.evidence.reports == map[] && last.uploads == map[]
            && last.unconfirmed == {} && last.undiscarded == {} && last.abandoned == {}
            && last.evidence.objects == {LATE_PHOTO} && last.uploader == map[LATE_PHOTO := 1]
  {
    worlds, steps := seq(7, i requires 0 <= i => LateWorld(i)), seq(6, i requires 0 <= i => LateStep(i));
    LateRun(c, worlds, steps);
  }
}
