/**
 The in-memory billing adapter, which drops a repeated event outright, and its
 agreement with the PostgreSQL adapter, which applies the purchase again.
 A dictionary keyed by `id` is a sequence in insertion order.
 */
module BillingMemory {
  import opened Wrappers
  import opened Billing

  datatype Memory = Memory(subscriptions: seq<Subscription>, events: map<string, Event>)

  const EMPTY_MEMORY := Memory([], map[])

  /** The first subscription stored under the key. */
  function Find(subscriptions: seq<Subscription>, key: Key): Option<Subscription> {
    if subscriptions == [] then None
    else if KeyOf(subscriptions[0]) == key then Some(subscriptions[0])
    else Find(subscriptions[1..], key)
  }

  /** `pop(id, None)`. */
  function Without(subscriptions: seq<Subscription>, id: nat): seq<Subscription> {
    if subscriptions == [] then []
    else if subscriptions[0].id == id then subscriptions[1..]
    else [subscriptions[0]] + Without(subscriptions[1..], id)
  }

  /** Assignment under `s.id`: in place if the identifier is taken, at the end otherwise. */
  function Put(subscriptions: seq<Subscription>, s: Subscription): seq<Subscription> {
    if subscriptions == [] then [s]
    else if subscriptions[0].id == s.id then [s] + subscriptions[1..]
    else [subscriptions[0]] + Put(subscriptions[1..], s)
  }

  function Remembered(m: Memory, d: Delivery): Memory {
    var existing := Find(m.subscriptions, DeliveredKey(d));
    var events := m.events[d.event.reference := d.event];
    if d.event.reference in m.events && existing.Some? then m
    else if existing.Some? && existing.value.verifiedAt > d.subscription.verifiedAt then Memory(m.subscriptions, events)
    else
      var others := if existing.Some? then Without(m.subscriptions, existing.value.id) else m.subscriptions;
      Memory(Put(others, d.subscription), events)
  }

  function RunMemory(ds: seq<Delivery>): Memory
    decreases |ds|
  {
    if ds == [] then EMPTY_MEMORY else Remembered(RunMemory(ds[..|ds| - 1]), ds[|ds| - 1])
  }

  /** At `k` stands a subscription of the user that none of the user's outdates, and none before it equals in time. */
  predicate IsFirstLatest(subscriptions: seq<Subscription>, user: UserId, k: nat) {
    && k < |subscriptions| && subscriptions[k].user == user
    && (forall j: nat :: j < |subscriptions| && subscriptions[j].user == user ==>
          subscriptions[j].verifiedAt <= subscriptions[k].verifiedAt)
    && (forall j: nat :: j < k && subscriptions[j].user == user ==>
          subscriptions[j].verifiedAt < subscriptions[k].verifiedAt)
  }

  class InMemoryBillingRepository {
    var subscriptions: seq<Subscription>
    var events: map<string, Event>

    constructor ()
      ensures View() == EMPTY_MEMORY
    {
      subscriptions, events := [], map[];
    }

    ghost function View(): Memory
      reads this
    {
      Memory(subscriptions, events)
    }

    method FindExisting(key: Key) returns (existing: Option<Subscription>)
      ensures existing == Find(subscriptions, key)
    {
      for i := 0 to |subscriptions|
        invariant Find(subscriptions, key) == Find(subscriptions[i..], key)
      {
        if KeyOf(subscriptions[i]) == key {
          return Some(subscriptions[i]);
        }
        assert subscriptions[i..][1..] == subscriptions[i + 1..];
      }
      return None;
    }

    method Reconcile(d: Delivery) returns (persisted: Subscription)
      modifies this
      ensures View() == Remembered(old(View()), d)
      ensures var existing := Find(old(subscriptions), DeliveredKey(d));
              persisted == if existing.Some? && (d.event.reference in old(events)
                                                 || existing.value.verifiedAt > d.subscription.verifiedAt)
                           then existing.value else d.subscription
    {
      var existing := FindExisting(DeliveredKey(d));
      if d.event.reference in events && existing.Some? {
        return existing.value;
      }
      if existing.Some? && existing.value.verifiedAt > d.subscription.verifiedAt {
        events := events[d.event.reference := d.event];
        return existing.value;
      }
      if existing.Some? {
        subscriptions := Without(subscriptions, existing.value.id);
      }
      subscriptions := Put(subscriptions, d.subscription);
      events := events[d.event.reference := d.event];
      persisted := d.subscription;
    }

    /** The first of the user's subscriptions that was verified latest. */
    method Current(user: UserId) returns (current: Option<Subscription>)
      ensures current.None? <==> forall s :: s in subscriptions ==> s.user != user
      ensures current.Some? ==>
                exists k: nat :: IsFirstLatest(subscriptions, user, k) && current.value == subscriptions[k]
    {
      current := None;
      ghost var k: nat := 0;
      for i := 0 to |subscriptions|
        invariant current.None? <==> forall s :: s in subscriptions[..i] ==> s.user != user
        invariant current.Some? ==> IsFirstLatest(subscriptions[..i], user, k) && current.value == subscriptions[k]
      {
        var s := subscriptions[i];
        assert subscriptions[..i + 1] == subscriptions[..i] + [s];
        if s.user == user && (current.None? || s.verifiedAt > current.value.verifiedAt) {
          current, k := Some(s), i;
        }
      }
      assert subscriptions[..|subscriptions|] == subscriptions;
    }
  }

  // --------------------------------------------------------------- dictionary

  /** At most one subscription for a key, and identifiers that determine keys. */
  ghost predicate IsIndexed(subscriptions: seq<Subscription>) {
    forall i: nat, j: nat :: i < j < |subscriptions| ==> Differ(subscriptions[i], subscriptions[j])
  }

  predicate Differ(s: Subscription, t: Subscription) {
    s.id != t.id && KeyOf(s) != KeyOf(t)
  }

  lemma {:induction false} FindMeaning(subscriptions: seq<Subscription>, key: Key)
    ensures match Find(subscriptions, key)
            case None => forall s :: s in subscriptions ==> KeyOf(s) != key
            case Some(s) => s in subscriptions && KeyOf(s) == key
  {
    if subscriptions != [] {
      FindMeaning(subscriptions[1..], key);
    }
  }

  lemma TailIsIndexed(subscriptions: seq<Subscription>)
    requires subscriptions != [] && IsIndexed(subscriptions)
    ensures IsIndexed(subscriptions[1..])
    ensures forall s :: s in subscriptions[1..] ==> Differ(subscriptions[0], s)
  {
  }

  lemma ConsIsIndexed(s: Subscription, rest: seq<Subscription>)
    requires IsIndexed(rest) && forall t :: t in rest ==> Differ(s, t)
    ensures IsIndexed([s] + rest)
  {
  }

  /** Removing a stored subscription by its identifier removes exactly that one. */
  lemma {:induction false} WithoutMeaning(subscriptions: seq<Subscription>, old_: Subscription, key: Key)
    requires IsIndexed(subscriptions) && old_ in subscriptions
    ensures var rest := Without(subscriptions, old_.id);
            && IsIndexed(rest)
            && (forall s :: s in rest <==> s in subscriptions && s != old_)
            && Find(rest, key) == if key == KeyOf(old_) then None else Find(subscriptions, key)
  {
    var head, tail := subscriptions[0], subscriptions[1..];
    TailIsIndexed(subscriptions);
    assert subscriptions == [head] + tail;
    if head.id == old_.id {
      assert head == old_;
      FindMeaning(tail, key);
    } else {
      WithoutMeaning(tail, old_, key);
      ConsIsIndexed(head, Without(tail, old_.id));
    }
  }

  /** Storing a subscription whose identifier and key are new adds exactly that one. */
  lemma {:induction false} PutMeaning(subscriptions: seq<Subscription>, new_: Subscription, key: Key)
    requires IsIndexed(subscriptions) && forall s :: s in subscriptions ==> Differ(s, new_)
    ensures var all := Put(subscriptions, new_);
            && IsIndexed(all)
            && (forall s :: s in all <==> s in subscriptions || s == new_)
            && Find(all, key) == if key == KeyOf(new_) then Some(new_) else Find(subscriptions, key)
  {
    if subscriptions != [] {
      var head, tail := subscriptions[0], subscriptions[1..];
      TailIsIndexed(subscriptions);
      assert subscriptions == [head] + tail;
      PutMeaning(tail, new_, key);
      assert Differ(head, new_) && forall t :: t in Put(tail, new_) ==> Differ(head, t);
      ConsIsIndexed(head, Put(tail, new_));
    }
  }

  // --------------------------------------------------------------- refinement

  /** An event reference stands for one purchase. */
  ghost predicate EventsDetermine(ds: seq<Delivery>) {
    forall i: nat, j: nat :: i < |ds| && j < |ds| ==> EventDetermines(ds[i], ds[j])
  }

  predicate EventDetermines(d: Delivery, e: Delivery) {
    d.event.reference == e.event.reference ==> Content(d.subscription) == Content(e.subscription)
  }

  /** Two events on one key were verified at different times. */
  ghost predicate EventsAreTimed(ds: seq<Delivery>) {
    forall i: nat, j: nat :: i < |ds| && j < |ds| ==> AreTimed(ds[i], ds[j])
  }

  predicate AreTimed(d: Delivery, e: Delivery) {
    DeliveredKey(d) == DeliveredKey(e) && d.event.reference != e.event.reference ==>
      d.subscription.verifiedAt != e.subscription.verifiedAt
  }

  /** Subscription identifiers are derived from user and key, so they determine the key. */
  ghost predicate IdsDetermineKeys(ds: seq<Delivery>) {
    forall i: nat, j: nat :: i < |ds| && j < |ds| ==> IdDetermines(ds[i].subscription, ds[j].subscription)
  }

  predicate IdDetermines(s: Subscription, t: Subscription) {
    s.id == t.id ==> KeyOf(s) == KeyOf(t)
  }

  ghost predicate IsRegular(ds: seq<Delivery>) {
    EventsDetermine(ds) && EventsAreTimed(ds) && IdsDetermineKeys(ds)
  }

  predicate SameRow(found: Option<Subscription>, subscriptions: map<Key, Subscription>, key: Key) {
    match found
    case None => key !in subscriptions
    case Some(s) => key in subscriptions && Content(s) == Content(subscriptions[key])
  }

  /** The two stores hold the same subscriptions, identifiers aside, and the same event references. */
  ghost predicate Agree(m: Memory, l: Ledger) {
    && (forall key :: SameRow(Find(m.subscriptions, key), l.subscriptions, key))
    && m.events.Keys == l.events.Keys
  }

  ghost predicate IsDelivered(ds: seq<Delivery>, s: Subscription) {
    exists i: nat :: i < |ds| && ds[i].subscription == s
  }

  ghost predicate Recorded(ds: seq<Delivery>, reference: string) {
    exists i: nat :: i < |ds| && ds[i].event.reference == reference
  }

  ghost predicate MemoryInv(ds: seq<Delivery>, m: Memory) {
    && IsIndexed(m.subscriptions)
    && (forall s :: s in m.subscriptions ==> IsDelivered(ds, s))
  }

  lemma RegularPrefix(ds: seq<Delivery>)
    requires ds != [] && IsRegular(ds)
    ensures IsRegular(ds[..|ds| - 1])
  {
  }

  /** The ledger records exactly the references that were delivered. */
  lemma {:induction false} LedgerRecordsAll(ds: seq<Delivery>, reference: string)
    ensures reference in Run(ds).events <==> Recorded(ds, reference)
    decreases |ds|
  {
    if ds != [] {
      var front, d := ds[..|ds| - 1], ds[|ds| - 1];
      LedgerRecordsAll(front, reference);
      if Recorded(front, reference) {
        var i: nat :| i < |front| && front[i].event.reference == reference;
        assert ds[i].event.reference == reference;
      }
      if d.event.reference == reference {
        assert ds[|ds| - 1].event.reference == reference;
      }
    }
  }

  /** Redelivering an event leaves what the row says as it was. */
  lemma RedeliveryKeepsRow(front: seq<Delivery>, d: Delivery)
    requires IsRegular(front + [d]) && Recorded(front, d.event.reference)
    ensures var key := DeliveredKey(d);
            && key in Run(front).subscriptions
            && Content(Upserted(Run(front).subscriptions, d.subscription)[key])
               == Content(Run(front).subscriptions[key])
  {
    var ds, key, n := front + [d], DeliveredKey(d), |front|;
    var i: nat :| i < n && front[i].event.reference == d.event.reference;
    assert EventDetermines(ds[i], ds[n]);
    assert DeliveredKey(front[i]) == key;
    RowsAreWinners(front, key);
    assert Delivered(front, key);
    var w := RowIsDelivered(front, key);
    assert Yields(front, key, w, i);
    assert AreTimed(ds[w], ds[i]) && EventDetermines(ds[w], ds[i]);
  }

  /** A new event on a stored key was verified at another time than the stored row. */
  lemma NewEventIsTimed(front: seq<Delivery>, d: Delivery)
    requires IsRegular(front + [d]) && !Recorded(front, d.event.reference)
    requires DeliveredKey(d) in Run(front).subscriptions
    ensures Run(front).subscriptions[DeliveredKey(d)].verifiedAt != d.subscription.verifiedAt
  {
    var ds, key := front + [d], DeliveredKey(d);
    var w := RowIsDelivered(front, key);
    assert AreTimed(ds[w], ds[|front|]);
    assert Content(Run(front).subscriptions[key]).verifiedAt == Run(front).subscriptions[key].verifiedAt;
  }

  lemma StoredDiffer(ds: seq<Delivery>, subscriptions: seq<Subscription>, d: Delivery)
    requires IdsDetermineKeys(ds) && IsDelivered(ds, d.subscription)
    requires forall s :: s in subscriptions ==> IsDelivered(ds, s) && KeyOf(s) != DeliveredKey(d)
    ensures forall s :: s in subscriptions ==> Differ(s, d.subscription)
  {
  }

  lemma MemoryKeepsInv(front: seq<Delivery>, d: Delivery, m: Memory)
    requires IdsDetermineKeys(front + [d]) && MemoryInv(front, m)
    ensures MemoryInv(front + [d], Remembered(m, d))
    ensures forall key :: Find(Remembered(m, d).subscriptions, key)
                          == if key == DeliveredKey(d) && Stores(m, d) then Some(d.subscription)
                             else Find(m.subscriptions, key)
  {
    var ds, found := front + [d], Find(m.subscriptions, DeliveredKey(d));
    FindMeaning(m.subscriptions, DeliveredKey(d));
    forall s | s in m.subscriptions ensures IsDelivered(ds, s) {
      assert IsDelivered(front, s);
      var i: nat :| i < |front| && front[i].subscription == s;
      assert ds[i].subscription == s;
    }
    if Stores(m, d) {
      assert ds[|front|].subscription == d.subscription;
      assert IsDelivered(ds, d.subscription);
      StoresOne(ds, m.subscriptions, found, d);
    }
  }

  /** Whether a delivery replaces or adds a subscription. */
  predicate Stores(m: Memory, d: Delivery) {
    var found := Find(m.subscriptions, DeliveredKey(d));
    found.None? || (d.event.reference !in m.events && found.value.verifiedAt <= d.subscription.verifiedAt)
  }

  lemma StoresOne(ds: seq<Delivery>, before: seq<Subscription>, found: Option<Subscription>, d: Delivery)
    requires IdsDetermineKeys(ds) && IsIndexed(before) && found == Find(before, DeliveredKey(d))
    requires IsDelivered(ds, d.subscription) && forall s :: s in before ==> IsDelivered(ds, s)
    ensures var after := Put(if found.Some? then Without(before, found.value.id) else before, d.subscription);
            && IsIndexed(after)
            && (forall s :: s in after ==> IsDelivered(ds, s))
            && (forall key :: Find(after, key)
                              == if key == DeliveredKey(d) then Some(d.subscription) else Find(before, key))
  {
    var key := DeliveredKey(d);
    FindMeaning(before, key);
    var others := if found.Some? then Without(before, found.value.id) else before;
    if found.Some? {
      WithoutMeaning(before, found.value, key);
      forall s | s in others ensures KeyOf(s) != key {
        FindMeaning(others, key);
      }
    }
    StoredDiffer(ds, others, d);
    forall k ensures Find(Put(others, d.subscription), k)
                     == if k == key then Some(d.subscription) else Find(before, k) {
      PutMeaning(others, d.subscription, k);
      if found.Some? {
        WithoutMeaning(before, found.value, k);
      }
    }
    PutMeaning(others, d.subscription, key);
  }

  lemma DeliveryKeepsAgreement(front: seq<Delivery>, d: Delivery, m: Memory)
    requires IsRegular(front + [d]) && MemoryInv(front, m) && Agree(m, Run(front))
    ensures Agree(Remembered(m, d), Reconciled(Run(front), d))
  {
    var l, key := Run(front), DeliveredKey(d);
    MemoryKeepsInv(front, d, m);
    LedgerRecordsAll(front, d.event.reference);
    assert SameRow(Find(m.subscriptions, key), l.subscriptions, key);
    if d.event.reference in l.events {
      RedeliveryKeepsRow(front, d);
    } else if key in l.subscriptions {
      NewEventIsTimed(front, d);
      assert Content(Find(m.subscriptions, key).value).verifiedAt == Content(l.subscriptions[key]).verifiedAt;
    }
    forall k ensures SameRow(Find(Remembered(m, d).subscriptions, k), Reconciled(l, d).subscriptions, k) {
      assert SameRow(Find(m.subscriptions, k), l.subscriptions, k);
    }
  }

  /** After any regular deliveries both adapters hold the same subscriptions and event references. */
  lemma {:induction false} MemoryRefinesLedger(ds: seq<Delivery>)
    requires IsRegular(ds)
    ensures MemoryInv(ds, RunMemory(ds)) && Agree(RunMemory(ds), Run(ds))
    decreases |ds|
  {
    if ds != [] {
      var front, d := ds[..|ds| - 1], ds[|ds| - 1];
      assert ds == front + [d];
      RegularPrefix(ds);
      MemoryRefinesLedger(front);
      MemoryKeepsInv(front, d, RunMemory(front));
      DeliveryKeepsAgreement(front, d, RunMemory(front));
    }
  }

  /**
   After regular deliveries the adapters disagree on a redelivered event exactly
   when the new verification is not older than the row of its key and says
   something else: only PostgreSQL takes it over.
   */
  lemma RedeliveryTellsApart(ds: seq<Delivery>, e: Delivery)
    requires IsRegular(ds) && Recorded(ds, e.event.reference) && Delivered(ds, DeliveredKey(e))
    ensures DeliveredKey(e) in Run(ds).subscriptions
    ensures var row := Run(ds).subscriptions[DeliveredKey(e)];
            Agree(RunMemory(ds + [e]), Run(ds + [e])) <==>
              e.subscription.verifiedAt < row.verifiedAt || Content(row) == Content(e.subscription)
  {
    var all, key, before := ds + [e], DeliveredKey(e), Run(ds).subscriptions;
    assert all[..|ds|] == ds;
    MemoryRefinesLedger(ds);
    LedgerRecordsAll(ds, e.event.reference);
    RowsAreWinners(ds, key);
    var m := RunMemory(ds);
    assert SameRow(Find(m.subscriptions, key), before, key);
    assert RunMemory(all) == m && Run(all) == Reconciled(Run(ds), e);
    var after := Run(all).subscriptions;
    forall k
      ensures SameRow(Find(m.subscriptions, k), after, k) <==> k != key || Content(after[key]) == Content(before[key])
    {
      assert SameRow(Find(m.subscriptions, k), before, k);
    }
    assert SameRow(Find(m.subscriptions, key), after, key) <==> Content(after[key]) == Content(before[key]);
  }
}
