/**
 Store purchases: what a verified delivery does to the subscription table and
 to the event ledger, in the PostgreSQL adapter and in the in-memory one, and
 what tier a user ends up with. Times are integers; `id` fields are numbers.
 */
module Billing {
  import opened Wrappers

  datatype StorePlatform = AppleAppStore | GooglePlay

  datatype StoreEnvironment = Sandbox | Production

  datatype EntitlementCode = Premium

  datatype SubscriptionStatus = Active | GracePeriod | Paused | Expired | Revoked

  type UserId = nat

  datatype Subscription = Subscription(
    id: nat,
    user: UserId,
    platform: StorePlatform,
    productId: string,
    entitlement: EntitlementCode,
    status: SubscriptionStatus,
    environment: StoreEnvironment,
    transaction: string,
    original: string,
    purchasedAt: int,
    expiresAt: Option<int>,
    verifiedAt: int,
    autoRenews: bool)

  datatype Event = Event(
    id: nat, subscriptionId: nat, reference: string, status: SubscriptionStatus, occurredAt: int, receivedAt: int)

  datatype Delivery = Delivery(subscription: Subscription, event: Event)

  /** The columns of the unique index on subscriptions. */
  datatype Key = Key(platform: StorePlatform, environment: StoreEnvironment, original: string)

  function KeyOf(s: Subscription): Key {
    Key(s.platform, s.environment, s.original)
  }

  function DeliveredKey(d: Delivery): Key {
    KeyOf(d.subscription)
  }

  /** Everything a row says apart from the identifier it was first stored under. */
  function Content(s: Subscription): Subscription {
    s.(id := 0)
  }

  // --------------------------------------------------------- PostgreSQL adapter

  datatype Ledger = Ledger(subscriptions: map<Key, Subscription>, events: map<string, Event>)

  const EMPTY_LEDGER := Ledger(map[], map[])

  function Upserted(subscriptions: map<Key, Subscription>, s: Subscription): map<Key, Subscription> {
    var key := KeyOf(s);
    if key !in subscriptions then subscriptions[key := s]
    else if s.verifiedAt >= subscriptions[key].verifiedAt
    then subscriptions[key := s.(id := subscriptions[key].id)]
    else subscriptions
  }

  function Reconciled(ledger: Ledger, d: Delivery): Ledger {
    var subscriptions := Upserted(ledger.subscriptions, d.subscription);
    var persisted := subscriptions[DeliveredKey(d)];
    Ledger(subscriptions,
           if d.event.reference in ledger.events then ledger.events
           else ledger.events[d.event.reference := d.event.(subscriptionId := persisted.id)])
  }

  function Run(ds: seq<Delivery>): Ledger
    decreases |ds|
  {
    if ds == [] then EMPTY_LEDGER else Reconciled(Run(ds[..|ds| - 1]), ds[|ds| - 1])
  }

  class SqlBillingRepository {
    var subscriptions: map<Key, Subscription>
    var events: map<string, Event>

    constructor ()
      ensures View() == EMPTY_LEDGER
    {
      subscriptions, events := map[], map[];
    }

    ghost function View(): Ledger
      reads this
    {
      Ledger(subscriptions, events)
    }

    method Reconcile(d: Delivery) returns (persisted: Subscription)
      modifies this
      ensures View() == Reconciled(old(View()), d)
      ensures DeliveredKey(d) in subscriptions && persisted == subscriptions[DeliveredKey(d)]
    {
      var s, key := d.subscription, DeliveredKey(d);
      if key !in subscriptions {
        subscriptions := subscriptions[key := s];
      } else if s.verifiedAt >= subscriptions[key].verifiedAt {
        subscriptions := subscriptions[key := s.(id := subscriptions[key].id)];
      }
      persisted := subscriptions[key];
      if d.event.reference !in events {
        events := events[d.event.reference := d.event.(subscriptionId := persisted.id)];
      }
    }
  }

  // -------------------------------------------------------------- convergence

  /** Delivery `j` is not about the key, was verified earlier than `w`, or came no later than it. */
  predicate Yields(ds: seq<Delivery>, key: Key, w: nat, j: nat)
    requires w < |ds| && j < |ds|
  {
    || DeliveredKey(ds[j]) != key
    || ds[j].subscription.verifiedAt < ds[w].subscription.verifiedAt
    || (ds[j].subscription.verifiedAt == ds[w].subscription.verifiedAt && j <= w)
  }

  /** The last delivered of the deliveries on a key that were verified latest. */
  ghost predicate IsWinner(ds: seq<Delivery>, key: Key, w: nat) {
    w < |ds| && DeliveredKey(ds[w]) == key && forall j: nat :: j < |ds| ==> Yields(ds, key, w, j)
  }

  ghost predicate IsFirst(ds: seq<Delivery>, key: Key, f: nat) {
    f < |ds| && DeliveredKey(ds[f]) == key && forall j: nat :: j < f ==> DeliveredKey(ds[j]) != key
  }

  ghost predicate HoldsWinner(ds: seq<Delivery>, key: Key, row: Subscription) {
    exists w: nat :: IsWinner(ds, key, w) && Content(row) == Content(ds[w].subscription)
  }

  ghost predicate KeepsFirstId(ds: seq<Delivery>, key: Key, row: Subscription) {
    exists f: nat :: IsFirst(ds, key, f) && row.id == ds[f].subscription.id
  }

  lemma WinnerExtends(ds: seq<Delivery>, d: Delivery, key: Key, w: nat)
    requires IsWinner(ds, key, w)
    ensures IsWinner(ds + [d], key,
                     if DeliveredKey(d) == key && d.subscription.verifiedAt >= ds[w].subscription.verifiedAt
                     then |ds| else w)
  {
    var longer := ds + [d];
    var w' := if DeliveredKey(d) == key && d.subscription.verifiedAt >= ds[w].subscription.verifiedAt
              then |ds| else w;
    forall j: nat | j < |longer| ensures Yields(longer, key, w', j) {
      if j < |ds| {
        assert Yields(ds, key, w, j);
      }
    }
  }

  lemma KeptRow(ds: seq<Delivery>, d: Delivery, key: Key, before: map<Key, Subscription>)
    requires key in before && HoldsWinner(ds, key, before[key])
    ensures HoldsWinner(ds + [d], key, Upserted(before, d.subscription)[key])
  {
    var w: nat :| IsWinner(ds, key, w) && Content(before[key]) == Content(ds[w].subscription);
    WinnerExtends(ds, d, key, w);
    var w' := if DeliveredKey(d) == key && d.subscription.verifiedAt >= ds[w].subscription.verifiedAt
              then |ds| else w;
    assert Content(Upserted(before, d.subscription)[key]) == Content((ds + [d])[w'].subscription);
  }

  lemma KeptId(ds: seq<Delivery>, d: Delivery, key: Key, before: map<Key, Subscription>)
    requires key in before && KeepsFirstId(ds, key, before[key])
    ensures KeepsFirstId(ds + [d], key, Upserted(before, d.subscription)[key])
  {
    var f: nat :| IsFirst(ds, key, f) && before[key].id == ds[f].subscription.id;
    assert IsFirst(ds + [d], key, f);
  }

  lemma NewRow(ds: seq<Delivery>, d: Delivery)
    requires !Delivered(ds, DeliveredKey(d))
    ensures HoldsWinner(ds + [d], DeliveredKey(d), d.subscription)
    ensures KeepsFirstId(ds + [d], DeliveredKey(d), d.subscription)
  {
    var longer, key := ds + [d], DeliveredKey(d);
    forall j: nat | j < |longer| ensures Yields(longer, key, |ds|, j) {
      assert j < |ds| ==> DeliveredKey(ds[j]) != key;
    }
    assert IsWinner(longer, key, |ds|);
    assert IsFirst(longer, key, |ds|);
  }

  ghost predicate Delivered(ds: seq<Delivery>, key: Key) {
    exists i: nat :: i < |ds| && DeliveredKey(ds[i]) == key
  }

  lemma DeliveredExtends(ds: seq<Delivery>, d: Delivery, key: Key)
    ensures Delivered(ds + [d], key) <==> Delivered(ds, key) || DeliveredKey(d) == key
  {
    var longer := ds + [d];
    assert DeliveredKey(longer[|ds|]) == DeliveredKey(d);
    if Delivered(ds, key) {
      var i: nat :| i < |ds| && DeliveredKey(ds[i]) == key;
      assert DeliveredKey(longer[i]) == key;
    }
  }

  /**
   After any deliveries exactly the delivered keys have rows. A row says what the
   winning delivery of its key said, under the identifier of the first.
   */
  lemma {:induction false} RowsAreWinners(ds: seq<Delivery>, key: Key)
    ensures key in Run(ds).subscriptions <==> Delivered(ds, key)
    ensures key in Run(ds).subscriptions ==>
              HoldsWinner(ds, key, Run(ds).subscriptions[key]) && KeepsFirstId(ds, key, Run(ds).subscriptions[key])
    decreases |ds|
  {
    if ds != [] {
      var front, d := ds[..|ds| - 1], ds[|ds| - 1];
      RowsAreWinners(front, key);
      DeliveredExtends(front, d, key);
      assert ds == front + [d];
      if key in Run(front).subscriptions {
        KeptRow(front, d, key, Run(front).subscriptions);
        KeptId(front, d, key, Run(front).subscriptions);
      } else if DeliveredKey(d) == key {
        NewRow(front, d);
      }
    }
  }

  /** Deliveries on one key that were verified at the same time say the same. */
  ghost predicate NoTies(ds: seq<Delivery>, es: seq<Delivery>) {
    forall i: nat, j: nat :: i < |ds| && j < |es| ==> NoTie(ds[i].subscription, es[j].subscription)
  }

  predicate NoTie(s: Subscription, t: Subscription) {
    KeyOf(s) == KeyOf(t) && s.verifiedAt == t.verifiedAt ==> Content(s) == Content(t)
  }

  /** Whatever is delivered in `ds` is delivered, in content, somewhere in `es`. */
  ghost predicate Covered(ds: seq<Delivery>, es: seq<Delivery>) {
    forall i: nat :: i < |ds| ==> CoveredAt(ds[i].subscription, es)
  }

  ghost predicate CoveredAt(s: Subscription, es: seq<Delivery>) {
    exists j: nat :: j < |es| && Content(s) == Content(es[j].subscription)
  }

  lemma CoveredKey(ds: seq<Delivery>, es: seq<Delivery>, key: Key)
    requires Covered(ds, es) && Delivered(ds, key)
    ensures Delivered(es, key)
  {
  }

  lemma CoveredWinner(ds: seq<Delivery>, es: seq<Delivery>, key: Key, w: nat, v: nat)
    requires Covered(ds, es) && IsWinner(ds, key, w) && IsWinner(es, key, v)
    ensures ds[w].subscription.verifiedAt <= es[v].subscription.verifiedAt
  {
    assert CoveredAt(ds[w].subscription, es);
    var j: nat :| j < |es| && Content(ds[w].subscription) == Content(es[j].subscription);
    assert Yields(es, key, v, j);
  }

  lemma RowIsDelivered(ds: seq<Delivery>, key: Key) returns (w: nat)
    requires key in Run(ds).subscriptions
    ensures IsWinner(ds, key, w) && Content(Run(ds).subscriptions[key]) == Content(ds[w].subscription)
  {
    RowsAreWinners(ds, key);
    w :| IsWinner(ds, key, w) && Content(Run(ds).subscriptions[key]) == Content(ds[w].subscription);
  }

  lemma WinnersAgree(ds: seq<Delivery>, es: seq<Delivery>, key: Key, w: nat, v: nat)
    requires Covered(ds, es) && Covered(es, ds) && NoTies(ds, es)
    requires IsWinner(ds, key, w) && IsWinner(es, key, v)
    ensures Content(ds[w].subscription) == Content(es[v].subscription)
  {
    CoveredWinner(ds, es, key, w, v);
    CoveredWinner(es, ds, key, v, w);
    assert NoTie(ds[w].subscription, es[v].subscription);
  }

  lemma SameKeysDelivered(ds: seq<Delivery>, es: seq<Delivery>, key: Key)
    requires Covered(ds, es) && Covered(es, ds)
    ensures key in Run(ds).subscriptions <==> key in Run(es).subscriptions
  {
    RowsAreWinners(ds, key);
    RowsAreWinners(es, key);
    if Delivered(ds, key) { CoveredKey(ds, es, key); }
    if Delivered(es, key) { CoveredKey(es, ds, key); }
  }

  /** Order and repetition of the deliveries do not matter to what the table says. */
  lemma Convergence(ds: seq<Delivery>, es: seq<Delivery>, key: Key)
    requires Covered(ds, es) && Covered(es, ds) && NoTies(ds, es)
    ensures key in Run(ds).subscriptions <==> key in Run(es).subscriptions
    ensures key in Run(ds).subscriptions ==>
              Content(Run(ds).subscriptions[key]) == Content(Run(es).subscriptions[key])
  {
    SameKeysDelivered(ds, es, key);
    if key in Run(ds).subscriptions {
      var w := RowIsDelivered(ds, key);
      var v := RowIsDelivered(es, key);
      WinnersAgree(ds, es, key, w, v);
    }
  }

  // ------------------------------------------------------------------- events

  ghost predicate IsFirstReport(ds: seq<Delivery>, reference: string, f: nat) {
    && f < |ds| && ds[f].event.reference == reference
    && forall j: nat :: j < f ==> ds[j].event.reference != reference
  }

  /** The ledger has delivery `f`'s event, and it names the row of the delivery's key. */
  predicate Records(ledger: Ledger, d: Delivery) {
    var reference, key := d.event.reference, DeliveredKey(d);
    && reference in ledger.events && key in ledger.subscriptions
    && ledger.events[reference] == d.event.(subscriptionId := ledger.subscriptions[key].id)
  }

  lemma RecordIsKept(ledger: Ledger, d: Delivery, e: Delivery)
    requires Records(ledger, d)
    ensures Records(Reconciled(ledger, e), d)
  {
  }

  /**
   After any deliveries exactly the delivered references have events. An event is
   that of the first delivery of its reference, and names a row of the table.
   */
  lemma {:induction false} EventsAreFirstReports(ds: seq<Delivery>, reference: string)
    ensures reference in Run(ds).events <==> exists f: nat :: IsFirstReport(ds, reference, f)
    ensures reference in Run(ds).events ==>
              exists f: nat :: IsFirstReport(ds, reference, f) && Records(Run(ds), ds[f])
    decreases |ds|
  {
    if ds != [] {
      var front, d := ds[..|ds| - 1], ds[|ds| - 1];
      EventsAreFirstReports(front, reference);
      if reference in Run(front).events {
        var f: nat :| IsFirstReport(front, reference, f) && Records(Run(front), front[f]);
        RecordIsKept(Run(front), front[f], d);
        assert IsFirstReport(ds, reference, f) && ds[f] == front[f];
      } else {
        forall f: nat | f < |front| ensures front[f].event.reference != reference {
          if front[f].event.reference == reference {
            var g := FirstReport(front, reference, f);
            assert false;
          }
        }
        forall f: nat | f < |front| ensures IsFirstReport(ds, reference, f) == IsFirstReport(front, reference, f) {
          SameReport(ds, reference, f);
        }
        if d.event.reference == reference {
          assert IsFirstReport(ds, reference, |front|) && Records(Run(ds), ds[|front|]);
        }
      }
    }
  }

  lemma SameReport(ds: seq<Delivery>, reference: string, f: nat)
    requires f < |ds| - 1
    ensures IsFirstReport(ds, reference, f) == IsFirstReport(ds[..|ds| - 1], reference, f)
  {
    assert forall j: nat :: j <= f ==> ds[..|ds| - 1][j] == ds[j];
  }

  lemma FirstReport(ds: seq<Delivery>, reference: string, i: nat) returns (f: nat)
    requires i < |ds| && ds[i].event.reference == reference
    ensures IsFirstReport(ds, reference, f)
  {
    f := 0;
    while ds[f].event.reference != reference
      invariant f <= i
      invariant forall j: nat :: j < f ==> ds[j].event.reference != reference
      decreases i - f
    {
      f := f + 1;
    }
  }

  // -------------------------------------------------------------- entitlement

  /** A row that `current` may return: among the user's rows none was verified later. */
  ghost predicate IsCurrent(subscriptions: map<Key, Subscription>, user: UserId, s: Subscription) {
    && s in subscriptions.Values && s.user == user
    && forall key :: key in subscriptions && subscriptions[key].user == user ==>
         subscriptions[key].verifiedAt <= s.verifiedAt
  }

  datatype Snapshot = Snapshot(premium: bool, status: Option<SubscriptionStatus>)

  /** `entitlement` at time `now`; without a row the user is on the free tier. */
  function Entitlement(current: Option<Subscription>, now: int): Snapshot {
    match current
    case None => Snapshot(false, None)
    case Some(s) =>
      var expired := s.expiresAt.Some? && s.expiresAt.value <= now;
      Snapshot((s.status.Active? || s.status.GracePeriod?) && !expired,
               Some(if expired then Expired else s.status))
  }

  /** No key is ever delivered for two users. */
  ghost predicate KeysBelong(ds: seq<Delivery>) {
    forall i: nat, j: nat :: i < |ds| && j < |ds| && DeliveredKey(ds[i]) == DeliveredKey(ds[j]) ==>
      ds[i].subscription.user == ds[j].subscription.user
  }

  ghost predicate IsNewest(ds: seq<Delivery>, user: UserId, n: nat) {
    && n < |ds| && ds[n].subscription.user == user
    && forall j: nat :: j < |ds| && ds[j].subscription.user == user ==>
         ds[j].subscription.verifiedAt <= ds[n].subscription.verifiedAt
  }

  /** The user's own row bounds every delivery made for the user. */
  lemma CurrentBoundsDeliveries(ds: seq<Delivery>, user: UserId, s: Subscription, j: nat)
    requires KeysBelong(ds) && IsCurrent(Run(ds).subscriptions, user, s)
    requires j < |ds| && ds[j].subscription.user == user
    ensures ds[j].subscription.verifiedAt <= s.verifiedAt
  {
    var key := DeliveredKey(ds[j]);
    RowsAreWinners(ds, key);
    assert Delivered(ds, key);
    var w := RowIsDelivered(ds, key);
    assert Yields(ds, key, w, j);
  }

  /**
   If every key belongs to one user, the row that decides a user's tier is the
   user's newest verification over all subscriptions.
   */
  lemma NewestVerificationDecides(ds: seq<Delivery>, user: UserId, s: Subscription, now: int) returns (n: nat)
    requires KeysBelong(ds) && IsCurrent(Run(ds).subscriptions, user, s)
    ensures IsNewest(ds, user, n) && Content(s) == Content(ds[n].subscription)
    ensures var newest, snapshot := ds[n].subscription, Entitlement(Some(s), now);
            && (snapshot.premium <==>
                  newest.status in {Active, GracePeriod} && (newest.expiresAt.Some? ==> now < newest.expiresAt.value))
            && (if newest.expiresAt.Some? && newest.expiresAt.value <= now then snapshot.status == Some(Expired)
                else snapshot.status == Some(newest.status))
  {
    var key :| key in Run(ds).subscriptions && Run(ds).subscriptions[key] == s;
    n := RowIsDelivered(ds, key);
    assert ds[n].subscription.user == user && ds[n].subscription.verifiedAt == s.verifiedAt by {
      assert Content(s).user == user && Content(s).verifiedAt == s.verifiedAt;
    }
    forall j: nat | j < |ds| && ds[j].subscription.user == user
      ensures ds[j].subscription.verifiedAt <= ds[n].subscription.verifiedAt
    {
      CurrentBoundsDeliveries(ds, user, s, j);
    }
    assert Content(s).status == Content(ds[n].subscription).status;
    assert Content(s).expiresAt == Content(ds[n].subscription).expiresAt;
  }

  /** A delivery for the user that won its key. */
  ghost predicate WinsFor(ds: seq<Delivery>, user: UserId, w: nat) {
    w < |ds| && ds[w].subscription.user == user && IsWinner(ds, DeliveredKey(ds[w]), w)
  }

  lemma SameWinner(ds: seq<Delivery>, key: Key, w: nat, v: nat)
    requires IsWinner(ds, key, w) && IsWinner(ds, key, v)
    ensures w == v
  {
    assert Yields(ds, key, w, v) && Yields(ds, key, v, w);
  }

  /** The user's rows are those of the keys that the user's deliveries won. */
  lemma RowIsForWinner(ds: seq<Delivery>, key: Key)
    requires key in Run(ds).subscriptions
    ensures exists w: nat :: WinsFor(ds, Run(ds).subscriptions[key].user, w) && DeliveredKey(ds[w]) == key
  {
    var w := RowIsDelivered(ds, key);
    assert Content(Run(ds).subscriptions[key]).user == Content(ds[w].subscription).user;
    assert WinsFor(ds, Run(ds).subscriptions[key].user, w);
  }

  lemma WinnerHasRow(ds: seq<Delivery>, user: UserId, w: nat)
    requires WinsFor(ds, user, w)
    ensures var key := DeliveredKey(ds[w]);
            key in Run(ds).subscriptions && Run(ds).subscriptions[key].user == user
  {
    var key := DeliveredKey(ds[w]);
    RowsAreWinners(ds, key);
    assert Delivered(ds, key);
    var v := RowIsDelivered(ds, key);
    SameWinner(ds, key, w, v);
    assert Content(Run(ds).subscriptions[key]).user == Content(ds[v].subscription).user;
  }

  /** Among finitely many rows with one for the user, one of the user's was verified latest. */
  lemma {:induction false} NewestRow(subscriptions: map<Key, Subscription>, user: UserId, key: Key)
      returns (s: Subscription)
    requires key in subscriptions && subscriptions[key].user == user
    ensures IsCurrent(subscriptions, user, s)
    decreases |subscriptions|
  {
    s := subscriptions[key];
    var others := subscriptions - {key};
    assert subscriptions.Keys == others.Keys + {key};
    if k :| k in others && others[k].user == user {
      var t := NewestRow(others, user, k);
      if t.verifiedAt > s.verifiedAt {
        s := t;
      }
    }
    assert s in subscriptions.Values;
  }

  /** In every run a user has a current subscription exactly when a delivery for the user won its key. */
  lemma UserHasCurrentIff(ds: seq<Delivery>, user: UserId)
    ensures (exists s :: IsCurrent(Run(ds).subscriptions, user, s)) <==> (exists w: nat :: WinsFor(ds, user, w))
  {
    var rows := Run(ds).subscriptions;
    if s :| IsCurrent(rows, user, s) {
      var key :| key in rows && rows[key] == s;
      RowIsForWinner(ds, key);
    }
    if w: nat :| WinsFor(ds, user, w) {
      WinnerHasRow(ds, user, w);
      var s := NewestRow(rows, user, DeliveredKey(ds[w]));
    }
  }

  /** What the service answers about the user: a snapshot of a current row, or the free tier. */
  ghost predicate Reports(subscriptions: map<Key, Subscription>, user: UserId, now: int, snapshot: Snapshot) {
    if exists s :: IsCurrent(subscriptions, user, s)
    then exists s :: IsCurrent(subscriptions, user, s) && snapshot == Entitlement(Some(s), now)
    else snapshot == Entitlement(None, now)
  }

  /** Of the deliveries that won their keys, delivery `w` is a newest for the user. */
  ghost predicate IsNewestWinner(ds: seq<Delivery>, user: UserId, w: nat) {
    && WinsFor(ds, user, w)
    && forall v: nat :: WinsFor(ds, user, v) ==> ds[v].subscription.verifiedAt <= ds[w].subscription.verifiedAt
  }

  lemma CurrentIsNewestWinner(ds: seq<Delivery>, user: UserId, s: Subscription) returns (w: nat)
    requires IsCurrent(Run(ds).subscriptions, user, s)
    ensures IsNewestWinner(ds, user, w) && Content(s) == Content(ds[w].subscription)
  {
    var rows := Run(ds).subscriptions;
    var key :| key in rows && rows[key] == s;
    w := RowIsDelivered(ds, key);
    assert ds[w].subscription.user == user && ds[w].subscription.verifiedAt == s.verifiedAt by {
      assert Content(s).user == user && Content(s).verifiedAt == s.verifiedAt;
    }
    assert WinsFor(ds, user, w);
    forall v: nat | WinsFor(ds, user, v)
      ensures ds[v].subscription.verifiedAt <= ds[w].subscription.verifiedAt
    {
      WinnerHasRow(ds, user, v);
      var u := RowIsDelivered(ds, DeliveredKey(ds[v]));
      SameWinner(ds, DeliveredKey(ds[v]), u, v);
      assert Content(rows[DeliveredKey(ds[v])]).verifiedAt == ds[v].subscription.verifiedAt;
    }
  }

  /**
   After any deliveries whatever: a user for whom no delivery won a key is on the
   free tier. Any other user is premium exactly when a newest of the winning
   deliveries is active or in its grace period and has not expired.
   */
  lemma TierIsThatOfNewestWinner(ds: seq<Delivery>, user: UserId, now: int, snapshot: Snapshot)
    requires Reports(Run(ds).subscriptions, user, now, snapshot)
    ensures (forall w: nat :: !WinsFor(ds, user, w)) ==> !snapshot.premium && snapshot.status == None
    ensures (exists w: nat :: WinsFor(ds, user, w)) ==>
              exists w: nat :: IsNewestWinner(ds, user, w) &&
                var newest := ds[w].subscription;
                var lapsed := newest.expiresAt.Some? && newest.expiresAt.value <= now;
                && snapshot.status == Some(if lapsed then Expired else newest.status)
                && (snapshot.premium <==> newest.status in {Active, GracePeriod} && !lapsed)
  {
    UserHasCurrentIff(ds, user);
    if exists s :: IsCurrent(Run(ds).subscriptions, user, s) {
      var s :| IsCurrent(Run(ds).subscriptions, user, s) && snapshot == Entitlement(Some(s), now);
      var w := CurrentIsNewestWinner(ds, user, s);
      assert Content(s).status == Content(ds[w].subscription).status;
      assert Content(s).expiresAt == Content(ds[w].subscription).expiresAt;
    }
  }

  /** Where no key changes users, every user with a delivery has a current subscription. */
  lemma DeliveredUserHasCurrent(ds: seq<Delivery>, user: UserId, j: nat)
    requires KeysBelong(ds) && j < |ds| && ds[j].subscription.user == user
    ensures exists s :: IsCurrent(Run(ds).subscriptions, user, s)
  {
    var key := DeliveredKey(ds[j]);
    RowsAreWinners(ds, key);
    assert Delivered(ds, key);
    var w := RowIsDelivered(ds, key);
    assert WinsFor(ds, user, w);
    UserHasCurrentIff(ds, user);
  }

  /** A key delivered for a second user, no older than before, takes the subscription from a user who had no other. */
  lemma ReassignedKeyLosesFirstUser(ds: seq<Delivery>, e: Delivery, user: UserId)
    requires e.subscription.user != user
    requires forall j: nat :: j < |ds| && ds[j].subscription.user == user ==>
               DeliveredKey(ds[j]) == DeliveredKey(e) && ds[j].subscription.verifiedAt <= e.subscription.verifiedAt
    ensures forall s :: !IsCurrent(Run(ds + [e]).subscriptions, user, s)
  {
    var all := ds + [e];
    UserHasCurrentIff(all, user);
    forall w: nat ensures !WinsFor(all, user, w) {
      if w < |all| && all[w].subscription.user == user {
        assert all[w] == ds[w] && all[|ds|] == e;
        assert !Yields(all, DeliveredKey(e), w, |ds|);
      }
    }
  }
}
