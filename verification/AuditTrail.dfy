/**
 Appending to the audit chain from many database transactions at once.

 `append` takes a transaction-scoped lock, reads the newest visible row and
 inserts its successor. Here each of those statements is one step of a state
 machine, so that the steps of any number of transactions interleave freely;
 a transaction ends by committing or by rolling back. A step that is not
 enabled leaves the database as it is.
 */
module AuditTrail {
  import opened Wrappers
  import opened Timestamps
  import opened AuditChain

  const MAX_ACTION_LENGTH := 96

  type TxnId = nat

  datatype Row = Row(sequence: nat, record: AuditRecord)

  /** Where a transaction stands inside `append`; `Failed` awaits its rollback. */
  datatype Phase = Idle | Locked | HasTail(previous: string) | Failed

  datatype Txn = Txn(phase: Phase, pending: seq<Row>)

  datatype Database = Database(
    committed: seq<Row>,
    txns: map<TxnId, Txn>,
    lock: Option<TxnId>,
    nextSequence: nat)

  /** What `append` is given, with the identifier and the clock reading it draws. */
  datatype Entry = Entry(id: Uuid, actor: Uuid, action: string, subject: Option<Uuid>, at: DateTime)

  datatype Step =
    | AcquireLock(t: TxnId)
    | ReadTail(t: TxnId)
    | InsertRow(t: TxnId, entry: Entry)
    | Commit(t: TxnId)
    | Rollback(t: TxnId)

  const EMPTY := Database([], map[], None, 1)

  function TxnOf(db: Database, t: TxnId): Txn {
    if t in db.txns then db.txns[t] else Txn(Idle, [])
  }

  /** A statement sees the committed rows and those of its own transaction. */
  function Visible(db: Database, t: TxnId): seq<Row> {
    db.committed + TxnOf(db, t).pending
  }

  /** `ORDER BY sequence DESC LIMIT 1`. */
  function Latest(rows: seq<Row>): (row: Row)
    requires rows != []
    ensures row in rows && forall r :: r in rows ==> r.sequence <= row.sequence
  {
    if |rows| == 1 then rows[0]
    else
      var best := Latest(rows[1..]);
      assert rows == [rows[0]] + rows[1..];
      if rows[0].sequence > best.sequence then rows[0] else best
  }

  function TailHash(rows: seq<Row>): string {
    if rows == [] then GENESIS_HASH else Latest(rows).record.eventHash
  }

  /** The hash that the next record of a session has to name: that of the newest row it sees. */
  predicate IsTipOf(rows: seq<Row>, hash: string) {
    if rows == [] then hash == GENESIS_HASH
    else exists row :: row in rows && row.record.eventHash == hash
                       && forall other :: other in rows ==> other.sequence <= row.sequence
  }

  /** The record says what the entry says. */
  predicate Carries(r: AuditRecord, e: Entry) {
    r.id == e.id && r.actor == e.actor && r.action == e.action && r.subject == e.subject && r.occurredAt == e.at
  }

  function NewRecord(digest: EventDigest, e: Entry, previous: string): AuditRecord {
    AuditRecord(e.id, e.actor, e.action, e.subject, e.at, previous,
                digest(Content(e.actor, e.action, e.subject, e.at), previous))
  }

  /** The column width and the unique constraints of the table. */
  predicate Rejected(rows: seq<Row>, record: AuditRecord) {
    || |record.action| > MAX_ACTION_LENGTH
    || exists row :: row in rows && (row.record.id == record.id || row.record.eventHash == record.eventHash)
  }

  /** The action fits its column, and no row has the identifier or the hash. */
  predicate Fits(rows: seq<Row>, id: Uuid, action: string, hash: string) {
    && |action| <= MAX_ACTION_LENGTH
    && forall row :: row in rows ==> row.record.id != id && row.record.eventHash != hash
  }

  /** The row that the entry asks for, after some newest row of those given, does not fit. */
  ghost predicate Clashes(digest: EventDigest, rows: seq<Row>, e: Entry) {
    exists tip :: IsTipOf(rows, tip) &&
      !Fits(rows, e.id, e.action, digest(Content(e.actor, e.action, e.subject, e.at), tip))
  }

  function Released(db: Database, t: TxnId): Database {
    db.(txns := db.txns - {t}, lock := if db.lock == Some(t) then None else db.lock)
  }

  function After(digest: EventDigest, db: Database, step: Step): Database {
    var t := step.t;
    var txn := TxnOf(db, t);
    match step
    case AcquireLock(_) =>
      if txn.phase == Idle && (db.lock == None || db.lock == Some(t))
      then db.(txns := db.txns[t := txn.(phase := Locked)], lock := Some(t))
      else db
    case ReadTail(_) =>
      if txn.phase == Locked
      then db.(txns := db.txns[t := txn.(phase := HasTail(TailHash(Visible(db, t))))])
      else db
    case InsertRow(_, entry) =>
      if !txn.phase.HasTail? then db
      else
        var record := NewRecord(digest, entry, txn.phase.previous);
        var after := if Rejected(Visible(db, t), record)
                     then txn.(phase := Failed)
                     else Txn(Idle, txn.pending + [Row(db.nextSequence, record)]);
        db.(txns := db.txns[t := after], nextSequence := db.nextSequence + 1)
    case Commit(_) =>
      if txn.phase == Idle
      then Released(db, t).(committed := db.committed + txn.pending)
      else db
    case Rollback(_) => Released(db, t)
  }

  function Run(digest: EventDigest, db: Database, steps: seq<Step>): Database
    decreases |steps|
  {
    if steps == [] then db
    else After(digest, Run(digest, db, steps[..|steps| - 1]), steps[|steps| - 1])
  }

  function InsertBySequence(row: Row, rows: seq<Row>): seq<Row> {
    if rows == [] || row.sequence <= rows[0].sequence then [row] + rows
    else [rows[0]] + InsertBySequence(row, rows[1..])
  }

  /** `ORDER BY sequence`. */
  function InSequenceOrder(rows: seq<Row>): seq<Row> {
    if rows == [] then [] else InsertBySequence(rows[0], InSequenceOrder(rows[1..]))
  }

  function Records(rows: seq<Row>): (records: seq<AuditRecord>)
    ensures |records| == |rows|
    ensures forall i :: 0 <= i < |rows| ==> records[i] == rows[i].record
  {
    seq(|rows|, i requires 0 <= i < |rows| => rows[i].record)
  }

  /** What `verify_integrity` asks of the committed table. */
  ghost predicate Intact(digest: EventDigest, db: Database) {
    IsChain(digest, Records(InSequenceOrder(db.committed)))
  }

  // ---------------------------------------------------------------- invariant

  predicate IsIncreasing(rows: seq<Row>) {
    forall i, j :: 0 <= i < j < |rows| ==> rows[i].sequence < rows[j].sequence
  }

  /** The committed rows followed by the rows of the transaction that holds the lock. */
  function Log(db: Database): seq<Row> {
    db.committed + match db.lock case None => [] case Some(t) => TxnOf(db, t).pending
  }

  ghost predicate LogIsSound(digest: EventDigest, db: Database) {
    && IsIncreasing(Log(db))
    && (forall i :: 0 <= i < |Log(db)| ==> Log(db)[i].sequence < db.nextSequence)
    && IsChain(digest, Records(Log(db)))
  }

  predicate OnlyHolderActs(db: Database) {
    forall t :: t in db.txns && db.lock != Some(t) ==> db.txns[t] == Txn(Idle, [])
  }

  predicate TailIsCurrent(db: Database) {
    db.lock.Some? ==>
      var phase := TxnOf(db, db.lock.value).phase;
      phase.HasTail? ==> phase.previous == Tip(Records(Log(db)))
  }

  ghost predicate Inv(digest: EventDigest, db: Database) {
    LogIsSound(digest, db) && OnlyHolderActs(db) && TailIsCurrent(db)
  }

  lemma TailHashIsTipOf(rows: seq<Row>)
    ensures IsTipOf(rows, TailHash(rows))
  {
  }

  lemma LatestOfIncreasing(rows: seq<Row>)
    requires rows != [] && IsIncreasing(rows)
    ensures Latest(rows) == rows[|rows| - 1]
  {
  }

  lemma TipOfRecords(rows: seq<Row>)
    ensures Tip(Records(rows)) == if rows == [] then GENESIS_HASH else rows[|rows| - 1].record.eventHash
  {
  }

  lemma TailHashIsTip(rows: seq<Row>)
    requires IsIncreasing(rows)
    ensures TailHash(rows) == Tip(Records(rows))
  {
    TipOfRecords(rows);
    if rows != [] {
      LatestOfIncreasing(rows);
    }
  }

  lemma LogGrows(digest: EventDigest, rows: seq<Row>, row: Row)
    requires IsIncreasing(rows) && IsChain(digest, Records(rows))
    requires forall i :: 0 <= i < |rows| ==> rows[i].sequence < row.sequence
    requires Links(digest, row.record, Tip(Records(rows)))
    ensures IsIncreasing(rows + [row]) && IsChain(digest, Records(rows + [row]))
  {
    ChainExtends(digest, Records(rows), row.record);
    assert Records(rows + [row]) == Records(rows) + [row.record];
  }

  lemma LogShrinks(digest: EventDigest, rows: seq<Row>, n: nat)
    requires n <= |rows| && IsChain(digest, Records(rows))
    ensures IsChain(digest, Records(rows[..n]))
  {
    ChainPrefix(digest, Records(rows), n);
    assert Records(rows)[..n] == Records(rows[..n]);
  }

  lemma InsertKeepsInv(digest: EventDigest, db: Database, t: TxnId, entry: Entry)
    requires Inv(digest, db) && TxnOf(db, t).phase.HasTail?
    ensures Inv(digest, After(digest, db, InsertRow(t, entry)))
  {
    var txn := TxnOf(db, t);
    var record := NewRecord(digest, entry, txn.phase.previous);
    var db' := After(digest, db, InsertRow(t, entry));
    assert db.lock == Some(t);
    if Rejected(Visible(db, t), record) {
      assert Log(db') == Log(db);
    } else {
      var row := Row(db.nextSequence, record);
      LogGrows(digest, Log(db), row);
      assert Log(db') == Log(db) + [row];
    }
  }

  lemma CommitKeepsInv(digest: EventDigest, db: Database, t: TxnId)
    requires Inv(digest, db)
    ensures Inv(digest, After(digest, db, Commit(t)))
  {
    var db' := After(digest, db, Commit(t));
    if TxnOf(db, t).phase == Idle {
      assert Log(db') == Log(db);
    }
  }

  lemma RollbackKeepsInv(digest: EventDigest, db: Database, t: TxnId)
    requires Inv(digest, db)
    ensures Inv(digest, After(digest, db, Rollback(t)))
  {
    var db' := After(digest, db, Rollback(t));
    assert db' == Released(db, t);
    if db.lock == Some(t) {
      assert Log(db') == db.committed == Log(db)[..|db.committed|];
      LogShrinks(digest, Log(db), |db.committed|);
    } else {
      assert Log(db') == Log(db);
    }
  }

  lemma LockKeepsInv(digest: EventDigest, db: Database, t: TxnId)
    requires Inv(digest, db)
    ensures Inv(digest, After(digest, db, AcquireLock(t)))
  {
  }

  lemma ReadKeepsInv(digest: EventDigest, db: Database, t: TxnId)
    requires Inv(digest, db)
    ensures Inv(digest, After(digest, db, ReadTail(t)))
  {
    assert Log(After(digest, db, ReadTail(t))) == Log(db);
    if TxnOf(db, t).phase == Locked {
      assert Visible(db, t) == Log(db);
      TailHashIsTip(Log(db));
    }
  }

  lemma StepKeepsInv(digest: EventDigest, db: Database, step: Step)
    requires Inv(digest, db)
    ensures Inv(digest, After(digest, db, step))
  {
    var t := step.t;
    match step
    case AcquireLock(_) => LockKeepsInv(digest, db, t);
    case ReadTail(_) => ReadKeepsInv(digest, db, t);
    case InsertRow(_, entry) =>
      if TxnOf(db, t).phase.HasTail? {
        InsertKeepsInv(digest, db, t, entry);
      }
    case Commit(_) => CommitKeepsInv(digest, db, t);
    case Rollback(_) => RollbackKeepsInv(digest, db, t);
  }

  lemma {:induction false} RunKeepsInv(digest: EventDigest, db: Database, steps: seq<Step>)
    requires Inv(digest, db)
    ensures Inv(digest, Run(digest, db, steps))
    decreases |steps|
  {
    if steps != [] {
      RunKeepsInv(digest, db, steps[..|steps| - 1]);
      StepKeepsInv(digest, Run(digest, db, steps[..|steps| - 1]), steps[|steps| - 1]);
    }
  }

  // ------------------------------------------------- what the table comes to hold

  /** Step `i` puts the row among the pending rows of its transaction, with the fields of its entry. */
  predicate InsertsAt(digest: EventDigest, steps: seq<Step>, i: nat, t: TxnId, row: Row)
    requires i < |steps|
  {
    var before := Run(digest, EMPTY, steps[..i]);
    && steps[i].InsertRow? && steps[i].t == t && Carries(row.record, steps[i].entry)
    && row.sequence == before.nextSequence && TxnOf(before, t).phase == HasTail(row.record.previousHash)
    && Fits(Visible(before, t), row.record.id, row.record.action, row.record.eventHash)
    && Links(digest, row.record, row.record.previousHash)
  }

  predicate CommitsAt(digest: EventDigest, steps: seq<Step>, j: nat, t: TxnId)
    requires j < |steps|
  {
    steps[j] == Commit(t) && TxnOf(Run(digest, EMPTY, steps[..j]), t).phase == Idle
  }

  /** The transaction `t` neither commits nor rolls back from step `i` on. */
  predicate StaysOpen(digest: EventDigest, steps: seq<Step>, i: nat, t: TxnId) {
    forall k: nat :: i <= k < |steps| ==> steps[k] != Rollback(t) && !CommitsAt(digest, steps, k, t)
  }

  ghost predicate InsertedSince(digest: EventDigest, steps: seq<Step>, t: TxnId, row: Row) {
    exists i: nat :: i < |steps| && InsertedAt(digest, steps, i, t, row)
  }

  /** A transaction inserted the row, and then committed before it rolled back. */
  ghost predicate IsPublished(digest: EventDigest, steps: seq<Step>, row: Row) {
    exists j: nat, t :: j < |steps| && CommitsAt(digest, steps, j, t) && InsertedSince(digest, steps[..j], t, row)
  }

  lemma SamePrefix(steps: seq<Step>, i: nat)
    requires i < |steps|
    ensures steps[..|steps| - 1][..i] == steps[..i]
  {
  }

  lemma OpenOneMore(digest: EventDigest, steps: seq<Step>, i: nat, t: TxnId)
    requires i < |steps|
    ensures StaysOpen(digest, steps, i, t) <==>
              StaysOpen(digest, steps[..|steps| - 1], i, t) && StaysOpen(digest, steps, |steps| - 1, t)
  {
    var last := |steps| - 1;
    var front := steps[..last];
    forall k: nat | k < last ensures CommitsAt(digest, steps, k, t) == CommitsAt(digest, front, k, t) {
      SamePrefix(steps, k);
    }
    if StaysOpen(digest, front, i, t) && StaysOpen(digest, steps, last, t) {
      forall k: nat | i <= k < |steps| ensures steps[k] != Rollback(t) && !CommitsAt(digest, steps, k, t) {
        assert k < last ==> front[k] == steps[k];
      }
    }
    if StaysOpen(digest, steps, i, t) {
      forall k: nat | i <= k < last ensures front[k] != Rollback(t) && !CommitsAt(digest, front, k, t) {
        assert front[k] == steps[k];
      }
    }
  }

  predicate InsertedAt(digest: EventDigest, steps: seq<Step>, i: nat, t: TxnId, row: Row)
    requires i < |steps|
  {
    InsertsAt(digest, steps, i, t, row) && StaysOpen(digest, steps, i + 1, t)
  }

  lemma InsertedAtOneMore(digest: EventDigest, steps: seq<Step>, i: nat, t: TxnId, row: Row)
    requires i < |steps| - 1
    ensures InsertedAt(digest, steps, i, t, row) <==>
              InsertedAt(digest, steps[..|steps| - 1], i, t, row) && StaysOpen(digest, steps, |steps| - 1, t)
  {
    SamePrefix(steps, i);
    OpenOneMore(digest, steps, i + 1, t);
  }

  lemma InsertedOneMore(digest: EventDigest, steps: seq<Step>, t: TxnId, row: Row)
    requires steps != []
    ensures var last := |steps| - 1;
            InsertedSince(digest, steps, t, row) <==>
              || InsertsAt(digest, steps, last, t, row)
              || (InsertedSince(digest, steps[..last], t, row) && StaysOpen(digest, steps, last, t))
  {
    var last := |steps| - 1;
    if i: nat :| i < |steps| && InsertedAt(digest, steps, i, t, row) {
      if i < last {
        InsertedAtOneMore(digest, steps, i, t, row);
      }
    }
    if InsertsAt(digest, steps, last, t, row) {
      assert InsertedAt(digest, steps, last, t, row);
    }
    if InsertedSince(digest, steps[..last], t, row) && StaysOpen(digest, steps, last, t) {
      var i: nat :| i < last && InsertedAt(digest, steps[..last], i, t, row);
      InsertedAtOneMore(digest, steps, i, t, row);
    }
  }

  lemma PublishedOneMore(digest: EventDigest, steps: seq<Step>, row: Row)
    requires steps != []
    ensures var last := |steps| - 1;
            IsPublished(digest, steps, row) <==>
              || IsPublished(digest, steps[..last], row)
              || (&& CommitsAt(digest, steps, last, steps[last].t)
                  && InsertedSince(digest, steps[..last], steps[last].t, row))
  {
    var last := |steps| - 1;
    var front := steps[..last];
    forall j: nat, t | j < last ensures CommitsAt(digest, steps, j, t) == CommitsAt(digest, front, j, t) {
      SamePrefix(steps, j);
    }
    if j: nat, t :| j < |steps| && CommitsAt(digest, steps, j, t) && InsertedSince(digest, steps[..j], t, row) {
      SamePrefix(steps, j);
      assert j < last ==> CommitsAt(digest, front, j, t) && InsertedSince(digest, front[..j], t, row);
    }
    if IsPublished(digest, front, row) {
      var j: nat, t :| j < last && CommitsAt(digest, front, j, t) && InsertedSince(digest, front[..j], t, row);
      SamePrefix(steps, j);
      assert CommitsAt(digest, steps, j, t) && InsertedSince(digest, steps[..j], t, row);
    }
  }

  /** What one step does to the pending rows of a transaction. */
  lemma PendingAfter(digest: EventDigest, steps: seq<Step>, t: TxnId, row: Row)
    requires steps != []
    ensures var last := |steps| - 1;
            row in TxnOf(Run(digest, EMPTY, steps), t).pending <==>
              || InsertsAt(digest, steps, last, t, row)
              || (row in TxnOf(Run(digest, EMPTY, steps[..last]), t).pending && StaysOpen(digest, steps, last, t))
  {
    var last := |steps| - 1;
    var before := Run(digest, EMPTY, steps[..last]);
    assert StaysOpen(digest, steps, last, t) <==> steps[last] != Rollback(t) && !CommitsAt(digest, steps, last, t);
    StepPending(digest, before, steps[last], t, row);
  }

  lemma StepPending(digest: EventDigest, db: Database, step: Step, t: TxnId, row: Row)
    ensures row in TxnOf(After(digest, db, step), t).pending <==>
              || (&& step.InsertRow? && step.t == t && Carries(row.record, step.entry)
                  && row.sequence == db.nextSequence && TxnOf(db, t).phase == HasTail(row.record.previousHash)
                  && Fits(Visible(db, t), row.record.id, row.record.action, row.record.eventHash)
                  && Links(digest, row.record, row.record.previousHash))
              || (row in TxnOf(db, t).pending && step != Rollback(t)
                  && !(step == Commit(t) && TxnOf(db, t).phase == Idle))
  {
  }

  /**
   Exactly the published rows are in the table: those that some transaction inserted
   with the fields of its entry and committed before it rolled back.
   */
  lemma {:induction false} TableHoldsPublished(digest: EventDigest, steps: seq<Step>, row: Row)
    ensures row in Run(digest, EMPTY, steps).committed <==> IsPublished(digest, steps, row)
    ensures forall t :: row in TxnOf(Run(digest, EMPTY, steps), t).pending <==> InsertedSince(digest, steps, t, row)
    decreases |steps|
  {
    if steps != [] {
      var last := |steps| - 1;
      TableHoldsPublished(digest, steps[..last], row);
      PublishedOneMore(digest, steps, row);
      forall t ensures row in TxnOf(Run(digest, EMPTY, steps), t).pending <==> InsertedSince(digest, steps, t, row) {
        PendingAfter(digest, steps, t, row);
        InsertedOneMore(digest, steps, t, row);
      }
    }
  }

  /** Two rows of the table come from two insertions. */
  lemma RowsComeFromDistinctSteps(digest: EventDigest, steps: seq<Step>, i: nat,
                                  t: TxnId, row: Row, u: TxnId, other: Row)
    requires i < |steps| && InsertsAt(digest, steps, i, t, row) && InsertsAt(digest, steps, i, u, other)
    ensures row == other
  {
  }

  // ------------------------------------------------------------- main results

  lemma {:induction false} IncreasingIsOrdered(rows: seq<Row>)
    requires IsIncreasing(rows)
    ensures InSequenceOrder(rows) == rows
  {
    if rows != [] {
      IncreasingIsOrdered(rows[1..]);
      assert rows == [rows[0]] + rows[1..];
    }
  }

  predicate IsOrdered(rows: seq<Row>) {
    forall i, j :: 0 <= i < j < |rows| ==> rows[i].sequence <= rows[j].sequence
  }

  lemma {:induction false} InsertKeepsRows(row: Row, rows: seq<Row>)
    ensures multiset(InsertBySequence(row, rows)) == multiset(rows) + multiset{row}
  {
    if rows != [] && row.sequence > rows[0].sequence {
      assert rows == [rows[0]] + rows[1..];
      InsertKeepsRows(row, rows[1..]);
    }
  }

  lemma InsertHolds(row: Row, rows: seq<Row>, r: Row)
    requires r in InsertBySequence(row, rows)
    ensures r == row || r in rows
  {
    InsertKeepsRows(row, rows);
    assert r in multiset(InsertBySequence(row, rows));
  }

  lemma {:induction false} InsertOrders(row: Row, rows: seq<Row>)
    requires IsOrdered(rows)
    ensures IsOrdered(InsertBySequence(row, rows))
  {
    if rows != [] && row.sequence > rows[0].sequence {
      var rest := InsertBySequence(row, rows[1..]);
      InsertOrders(row, rows[1..]);
      forall i | 0 <= i < |rest| ensures rows[0].sequence <= rest[i].sequence {
        InsertHolds(row, rows[1..], rest[i]);
      }
    }
  }

  /** Verification reads all rows of the table, whatever their order in it, by ascending sequence. */
  lemma {:induction false} SequenceOrderSorts(rows: seq<Row>)
    ensures IsOrdered(InSequenceOrder(rows)) && multiset(InSequenceOrder(rows)) == multiset(rows)
  {
    if rows != [] {
      assert rows == [rows[0]] + rows[1..];
      SequenceOrderSorts(rows[1..]);
      InsertOrders(rows[0], InSequenceOrder(rows[1..]));
      InsertKeepsRows(rows[0], InSequenceOrder(rows[1..]));
    }
  }

  /** Every interleaving of any transactions leaves committed rows that pass verification. */
  lemma IntegrityAlwaysHolds(hash: HashFunction, steps: seq<Step>)
    ensures Intact(EventHash(hash), Run(EventHash(hash), EMPTY, steps))
  {
    var digest := EventHash(hash);
    RunKeepsInv(digest, EMPTY, steps);
    var db := Run(digest, EMPTY, steps);
    assert Log(db)[..|db.committed|] == db.committed;
    LogShrinks(digest, Log(db), |db.committed|);
    IncreasingIsOrdered(db.committed);
  }

  /** The committed log is append-only: whatever happens later, what was committed stays in place. */
  lemma {:induction false} CommittedIsAppendOnly(digest: EventDigest, db: Database, steps: seq<Step>)
    ensures db.committed <= Run(digest, db, steps).committed
    decreases |steps|
  {
    if steps != [] {
      CommittedIsAppendOnly(digest, db, steps[..|steps| - 1]);
    }
  }

  /** Between its lock and its end a transaction is alone: nobody else can commit a row. */
  lemma HolderIsAlone(digest: EventDigest, db: Database, step: Step, holder: TxnId)
    requires Inv(digest, db) && db.lock == Some(holder) && step.t != holder
    ensures After(digest, db, step).committed == db.committed
    ensures After(digest, db, step).lock == db.lock
    ensures TxnOf(After(digest, db, step), holder) == TxnOf(db, holder)
  {
  }

  /** The table and its sessions, changed in place one statement at a time. */
  class AuditDatabase {
    const digest: EventDigest
    var committed: seq<Row>
    var txns: map<TxnId, Txn>
    var lock: Option<TxnId>
    var nextSequence: nat

    constructor (digest: EventDigest)
      ensures this.digest == digest && View() == EMPTY && Inv(digest, View())
    {
      this.digest := digest;
      committed, txns, lock, nextSequence := [], map[], None, 1;
    }

    ghost function View(): Database
      reads this
    {
      Database(committed, txns, lock, nextSequence)
    }

    method TryLock(t: TxnId) returns (granted: bool)
      modifies this
      ensures View() == After(digest, old(View()), AcquireLock(t))
      ensures granted <==> TxnOf(old(View()), t).phase == Idle && old(lock) in {None, Some(t)}
    {
      var txn := if t in txns then txns[t] else Txn(Idle, []);
      granted := txn.phase == Idle && (lock == None || lock == Some(t));
      if granted {
        txns, lock := txns[t := txn.(phase := Locked)], Some(t);
      }
    }

    /**
     One uninterrupted `append`: lock, read the tail, insert. `Err(false)` is a
     refused lock and `Err(true)` a rejected row, after which only a rollback helps.
     */
    method Append(t: TxnId, entry: Entry) returns (result: Result<AuditRecord, bool>)
      requires TxnOf(View(), t).phase in {Idle, Failed}
      modifies this
      ensures View() == Run(digest, old(View()), AppendSteps(t, entry))
      ensures result == Err(false) <==>
                TxnOf(old(View()), t).phase != Idle || (old(lock).Some? && old(lock) != Some(t))
      ensures result == Err(false) ==> View() == old(View())
      ensures result != Err(false) ==> View() == AppendEffect(digest, old(View()), t, entry)
      ensures result == Err(true) ==> TxnOf(View(), t).phase == Failed
      ensures result.Ok? ==>
                && TxnOf(View(), t).pending == TxnOf(old(View()), t).pending + [Row(old(nextSequence), result.value)]
                && Carries(result.value, entry) && Links(digest, result.value, result.value.previousHash)
                && IsTipOf(Visible(old(View()), t), result.value.previousHash)
      ensures result.Ok? ==>
                Fits(Visible(old(View()), t), entry.id, entry.action, result.value.eventHash)
      ensures result == Err(true) ==> Clashes(digest, Visible(old(View()), t), entry)
    {
      ghost var start := View();
      var granted := TryLock(t);
      if !granted {
        NotGranted(digest, start, t, entry);
        return Err(false);
      }
      AppendAlone(digest, start, t, entry);
      LockThenAppend(digest, start, View(), t, entry);
      result := Insert(t, entry);
    }

    /** The holder of the lock reads the tail and inserts the next record. */
    method Insert(t: TxnId, entry: Entry) returns (result: Result<AuditRecord, bool>)
      requires lock == Some(t)
      modifies `txns, `nextSequence
      ensures View() == AppendEffect(digest, old(View()), t, entry)
      ensures result.Ok? || result == Err(true)
      ensures result == Err(true) ==> TxnOf(View(), t).phase == Failed
      ensures result.Ok? ==>
                && TxnOf(View(), t).pending == TxnOf(old(View()), t).pending + [Row(old(nextSequence), result.value)]
                && Carries(result.value, entry) && Links(digest, result.value, result.value.previousHash)
                && IsTipOf(Visible(old(View()), t), result.value.previousHash)
      ensures result.Ok? ==>
                Fits(Visible(old(View()), t), entry.id, entry.action, result.value.eventHash)
      ensures result == Err(true) ==> Clashes(digest, Visible(old(View()), t), entry)
    {
      var own := if t in txns then txns[t].pending else [];
      var visible := committed + own;
      var record := NewRecord(digest, entry, TailHash(visible));
      TailHashIsTipOf(visible);
      assert Fits(visible, entry.id, entry.action, record.eventHash) <==> !Rejected(visible, record);
      assert own == TxnOf(View(), t).pending && visible == Visible(View(), t);
      var txn;
      if Rejected(visible, record) {
        txn, result := Txn(Failed, own), Err(true);
      } else {
        txn, result := Txn(Idle, own + [Row(nextSequence, record)]), Ok(record);
      }
      txns, nextSequence := txns[t := txn], nextSequence + 1;
    }

    method VerifyIntegrity() returns (ok: bool, count: nat)
      ensures ok <==> Intact(digest, View())
      ensures count == |committed|
    {
      var rows := InSequenceOrder(committed);
      OrderKeepsLength(committed);
      ok := VerifyChain(digest, Records(rows));
      count := |rows|;
    }
  }

  function AppendSteps(t: TxnId, entry: Entry): seq<Step> {
    [AcquireLock(t), ReadTail(t), InsertRow(t, entry)]
  }

  /** The database an uninterrupted, granted append leaves behind. */
  function AppendEffect(digest: EventDigest, db: Database, t: TxnId, entry: Entry): Database {
    var own := TxnOf(db, t).pending;
    var record := NewRecord(digest, entry, TailHash(Visible(db, t)));
    var txn := if Rejected(Visible(db, t), record) then Txn(Failed, own)
               else Txn(Idle, own + [Row(db.nextSequence, record)]);
    db.(lock := Some(t), txns := db.txns[t := txn], nextSequence := db.nextSequence + 1)
  }

  lemma RunAppend(digest: EventDigest, db: Database, t: TxnId, entry: Entry)
    ensures Run(digest, db, AppendSteps(t, entry))
            == After(digest, After(digest, After(digest, db, AcquireLock(t)), ReadTail(t)), InsertRow(t, entry))
  {
    var steps := AppendSteps(t, entry);
    assert steps[..2][..1] == steps[..1] && steps[..1][..0] == [];
    assert steps[..2][1] == ReadTail(t) && steps[..1][0] == AcquireLock(t);
    assert Run(digest, db, steps[..1]) == After(digest, Run(digest, db, []), AcquireLock(t));
    assert Run(digest, db, steps[..2]) == After(digest, Run(digest, db, steps[..1]), ReadTail(t));
  }

  predicate MayAppend(db: Database, t: TxnId) {
    TxnOf(db, t).phase == Idle && db.lock in {None, Some(t)}
  }

  lemma AppendAlone(digest: EventDigest, db: Database, t: TxnId, entry: Entry)
    requires MayAppend(db, t)
    ensures Run(digest, db, AppendSteps(t, entry)) == AppendEffect(digest, db, t, entry)
  {
    RunAppend(digest, db, t, entry);
    var own := TxnOf(db, t).pending;
    var held := db.(lock := Some(t));
    var one := held.(txns := db.txns[t := Txn(Locked, own)]);
    var two := held.(txns := db.txns[t := Txn(HasTail(TailHash(Visible(db, t))), own)]);
    assert After(digest, db, AcquireLock(t)) == one;
    assert Visible(one, t) == Visible(two, t) == Visible(db, t);
    assert one.txns[t := two.txns[t]] == two.txns;
    assert After(digest, one, ReadTail(t)) == two;
    InsertOnce(digest, db, two, t, entry);
  }

  /** A session that holds the lock appends as if it had not locked first. */
  lemma LockThenAppend(digest: EventDigest, db: Database, locked: Database, t: TxnId, entry: Entry)
    requires MayAppend(db, t) && locked == After(digest, db, AcquireLock(t))
    ensures AppendEffect(digest, locked, t, entry) == AppendEffect(digest, db, t, entry)
    ensures TxnOf(locked, t).pending == TxnOf(db, t).pending
    ensures locked.lock == Some(t) && locked.nextSequence == db.nextSequence
  {
    assert Visible(locked, t) == Visible(db, t);
    var txn := AppendEffect(digest, db, t, entry).txns[t];
    assert locked.txns[t := txn] == db.txns[t := txn];
  }

  lemma InsertOnce(digest: EventDigest, db: Database, two: Database, t: TxnId, entry: Entry)
    requires two == db.(lock := Some(t),
                        txns := db.txns[t := Txn(HasTail(TailHash(Visible(db, t))), TxnOf(db, t).pending)])
    requires Visible(two, t) == Visible(db, t)
    ensures After(digest, two, InsertRow(t, entry)) == AppendEffect(digest, db, t, entry)
  {
  }

  /** The record of a granted append continues the log, and is all that is added to it. */
  lemma AppendContinuesLog(digest: EventDigest, db: Database, t: TxnId, entry: Entry)
    requires Inv(digest, db) && MayAppend(db, t)
    ensures var record := NewRecord(digest, entry, TailHash(Visible(db, t)));
            var added := if Rejected(Visible(db, t), record) then [] else [Row(db.nextSequence, record)];
            && Links(digest, record, Tip(Records(Log(db))))
            && Log(AppendEffect(digest, db, t, entry)) == Log(db) + added
  {
    AppendSeesLog(digest, db, t);
    AppendAddsOne(digest, db, t, entry);
  }

  /** What the session sees before it appends is the log, so its record continues the log. */
  lemma AppendSeesLog(digest: EventDigest, db: Database, t: TxnId)
    requires Inv(digest, db) && db.lock in {None, Some(t)}
    ensures Visible(db, t) == Log(db)
    ensures TailHash(Visible(db, t)) == Tip(Records(Log(db)))
  {
  }

  lemma AppendAddsOne(digest: EventDigest, db: Database, t: TxnId, entry: Entry)
    requires OnlyHolderActs(db) && db.lock in {None, Some(t)}
    ensures var record := NewRecord(digest, entry, TailHash(Visible(db, t)));
            Log(AppendEffect(digest, db, t, entry))
            == Log(db) + if Rejected(Visible(db, t), record) then [] else [Row(db.nextSequence, record)]
  {
  }

  /** A transaction that does not get the lock, or has failed, stays where it is. */
  lemma NotGranted(digest: EventDigest, db: Database, t: TxnId, entry: Entry)
    requires TxnOf(db, t).phase in {Idle, Failed} && !MayAppend(db, t)
    ensures Run(digest, db, AppendSteps(t, entry)) == db
  {
    RunAppend(digest, db, t, entry);
  }

  lemma InsertKeepsLength(row: Row, rows: seq<Row>)
    ensures |InsertBySequence(row, rows)| == |rows| + 1
  {
  }

  lemma OrderKeepsLength(rows: seq<Row>)
    ensures |InSequenceOrder(rows)| == |rows|
  {
    if rows != [] {
      OrderKeepsLength(rows[1..]);
      InsertKeepsLength(rows[0], InSequenceOrder(rows[1..]));
    }
  }
}
