/** Municipal imports: governance checks, replay by digest, quarantine and keyed upserts. */
module Ingestion {
  import opened Wrappers
  import opened FeedConnectors

  type Bytes = seq<bv8>

  datatype FeedKind = ParkingZones | ParkingFacilities

  datatype DataFormat = GeoJson | Csv

  datatype Source = Source(feedKind: FeedKind, dataFormat: DataFormat, official: bool, enabled: bool)

  datatype ImportStatus = Committed | Partial | Rejected

  datatype Batch = Batch(
    id: nat,
    source: nat,
    digest: string,
    status: ImportStatus,
    inputCount: nat,
    acceptedCount: nat,
    rejectedCount: nat,
    receivedAt: int,
    completedAt: int)

  datatype Quarantined = Quarantined(batch: nat, rejection: Rejection)

  /** A table row: the record as the feed gave it, the batch that brought it, and the trust put in its source. */
  datatype Stored<R> = Stored(record: R, batch: nat, official: bool)

  type Table<R> = map<(nat, string), Stored<R>>

  datatype Tables = Tables(
    sources: map<nat, Source>,
    batches: seq<Batch>,
    quarantine: seq<Quarantined>,
    zones: Table<Zone>,
    facilities: Table<Facility>)

  const EMPTY := Tables(map[], [], [], map[], map[])

  datatype IngestionError = BadSize | SourceNotFound | SourceDisabled | ConnectorUnavailable

  /** The service's settings: its connectors, the digest, and the largest feed it takes. */
  datatype Config = Config(
    connectors: map<(FeedKind, DataFormat), Bytes -> Import>,
    digestOf: Bytes -> string,
    maxUploadBytes: nat)

  datatype Request = Request(source: nat, payload: Bytes, batchId: nat, receivedAt: int, completedAt: int)

  // ------------------------------------------------------------ specification

  /** The rows after each record replaced the row under its id, first to last. */
  function Upserted<R>(table: Table<R>, idOf: R -> string, source: nat, official: bool, batch: nat, records: seq<R>)
      : Table<R>
  {
    if records == [] then table
    else
      var last := |records| - 1;
      Upserted(table, idOf, source, official, batch, records[..last])
        [(source, idOf(records[last])) := Stored(records[last], batch, official)]
  }

  function WithRejections(quarantine: seq<Quarantined>, batch: nat, rejected: seq<Rejection>): seq<Quarantined> {
    quarantine + seq(|rejected|, i requires 0 <= i < |rejected| => Quarantined(batch, rejected[i]))
  }

  function AfterCommit(t: Tables, official: bool, b: Batch, n: Import): Tables {
    t.(batches := t.batches + [b],
       quarantine := WithRejections(t.quarantine, b.id, n.rejected),
       zones := Upserted(t.zones, (z: Zone) => ZoneId(z), b.source, official, b.id, n.zones),
       facilities := Upserted(t.facilities, (f: Facility) => FacilityId(f), b.source, official, b.id, n.facilities))
  }

  predicate IsBatchOf(b: Batch, source: nat, digest: string) {
    b.source == source && b.digest == digest
  }

  predicate KnowsDigest(batches: seq<Batch>, source: nat, digest: string) {
    exists b :: b in batches && b.source == source && b.digest == digest
  }

  /** The first batch of the source with the digest, if any. */
  function BatchByDigest(batches: seq<Batch>, source: nat, digest: string): Option<Batch> {
    if batches == [] then None
    else if IsBatchOf(batches[0], source, digest) then Some(batches[0])
    else BatchByDigest(batches[1..], source, digest)
  }

  function StatusOf(n: Import): ImportStatus {
    if AcceptedCount(n) == 0 then Rejected else if n.rejected != [] then Partial else Committed
  }

  function NewBatch(r: Request, digest: string, n: Import): Batch {
    Batch(r.batchId, r.source, digest, StatusOf(n), n.inputCount, AcceptedCount(n), |n.rejected|,
          r.receivedAt, r.completedAt)
  }

  /** Why the request is turned away before any replay is looked for. */
  function Refused(c: Config, t: Tables, r: Request): Option<IngestionError> {
    if r.payload == [] || |r.payload| > c.maxUploadBytes then Some(BadSize)
    else if r.source !in t.sources then Some(SourceNotFound)
    else if !t.sources[r.source].enabled then Some(SourceDisabled)
    else None
  }

  function ConnectorOf(c: Config, s: Source): Option<Bytes -> Import> {
    if (s.feedKind, s.dataFormat) in c.connectors then Some(c.connectors[(s.feedKind, s.dataFormat)]) else None
  }

  function ImportStep(c: Config, t: Tables, r: Request): (Tables, Result<Batch, IngestionError>) {
    match Refused(c, t, r)
    case Some(error) => (t, Err(error))
    case None =>
      match BatchByDigest(t.batches, r.source, c.digestOf(r.payload))
      case Some(existing) => (t, Ok(existing))
      case None =>
        match ConnectorOf(c, t.sources[r.source])
        case None => (t, Err(ConnectorUnavailable))
        case Some(parse) =>
          var n := parse(r.payload);
          var b := NewBatch(r, c.digestOf(r.payload), n);
          (AfterCommit(t, t.sources[r.source].official, b, n), Ok(b))
  }

  // ----------------------------------------------------------- implementation

  class MunicipalIngestionRepository {
    var sources: map<nat, Source>
    var batches: seq<Batch>
    var quarantine: seq<Quarantined>
    var zones: Table<Zone>
    var facilities: Table<Facility>

    ghost function Contents(): Tables
      reads this
    {
      Tables(sources, batches, quarantine, zones, facilities)
    }

    constructor ()
      ensures Contents() == EMPTY
    {
      sources, batches, quarantine, zones, facilities := map[], [], [], map[], map[];
    }

    method AddSource(id: nat, source: Source)
      requires id !in sources
      modifies this
      ensures Contents() == old(Contents()).(sources := old(sources)[id := source])
    {
      sources := sources[id := source];
    }

    /** The row of an earlier import of the same bytes. */
    method FindBatch(source: nat, digest: string) returns (r: Option<Batch>)
      ensures r == BatchByDigest(batches, source, digest)
    {
      for i := 0 to |batches|
        invariant BatchByDigest(batches, source, digest) == BatchByDigest(batches[i..], source, digest)
      {
        if IsBatchOf(batches[i], source, digest) {
          return Some(batches[i]);
        }
      }
      return None;
    }

    method CommitImport(official: bool, batch: Batch, normalized: Import)
      modifies this
      ensures Contents() == AfterCommit(old(Contents()), official, batch, normalized)
      ensures batches == old(batches) + [batch] && sources == old(sources)
      ensures |quarantine| == |old(quarantine)| + |normalized.rejected| && old(quarantine) <= quarantine
      ensures forall i :: 0 <= i < |normalized.rejected| ==>
                quarantine[|old(quarantine)| + i] == Quarantined(batch.id, normalized.rejected[i])
      ensures forall z :: z in normalized.zones ==> (batch.source, ZoneId(z)) in zones
      ensures forall f :: f in normalized.facilities ==> (batch.source, FacilityId(f)) in facilities
    {
      batches := batches + [batch];
      AddQuarantine(batch.id, normalized.rejected);
      UpsertZones(batch.source, official, batch.id, normalized.zones);
      UpsertFacilities(batch.source, official, batch.id, normalized.facilities);
      UpsertedHoldsAll(old(zones), (z: Zone) => ZoneId(z), batch.source, official, batch.id, normalized.zones);
      UpsertedHoldsAll(old(facilities), (f: Facility) => FacilityId(f), batch.source, official, batch.id,
                       normalized.facilities);
    }

    method AddQuarantine(batch: nat, rejected: seq<Rejection>)
      modifies `quarantine
      ensures quarantine == WithRejections(old(quarantine), batch, rejected)
    {
      for i := 0 to |rejected|
        invariant quarantine == WithRejections(old(quarantine), batch, rejected[..i])
      {
        quarantine := quarantine + [Quarantined(batch, rejected[i])];
      }
      assert rejected[..|rejected|] == rejected;
    }

    method UpsertZones(source: nat, official: bool, batch: nat, records: seq<Zone>)
      modifies `zones
      ensures zones == Upserted(old(zones), (z: Zone) => ZoneId(z), source, official, batch, records)
    {
      ghost var idOf := (z: Zone) => ZoneId(z);
      for i := 0 to |records|
        invariant zones == Upserted(old(zones), idOf, source, official, batch, records[..i])
      {
        zones := zones[(source, ZoneId(records[i])) := Stored(records[i], batch, official)];
        assert records[..i + 1][..i] == records[..i];
      }
      assert records[..|records|] == records;
    }

    method UpsertFacilities(source: nat, official: bool, batch: nat, records: seq<Facility>)
      modifies `facilities
      ensures facilities == Upserted(old(facilities), (f: Facility) => FacilityId(f), source, official, batch, records)
    {
      ghost var idOf := (f: Facility) => FacilityId(f);
      for i := 0 to |records|
        invariant facilities == Upserted(old(facilities), idOf, source, official, batch, records[..i])
      {
        facilities := facilities[(source, FacilityId(records[i])) := Stored(records[i], batch, official)];
        assert records[..i + 1][..i] == records[..i];
      }
      assert records[..|records|] == records;
    }
  }

  class MunicipalIngestionService {
    const repository: MunicipalIngestionRepository
    const config: Config

    constructor (repository: MunicipalIngestionRepository, config: Config)
      ensures this.repository == repository && this.config == config
    {
      this.repository, this.config := repository, config;
    }

    method ImportPayload(r: Request) returns (result: Result<Batch, IngestionError>)
      modifies repository
      ensures (repository.Contents(), result) == ImportStep(config, old(repository.Contents()), r)
      ensures result == Err(BadSize) <==> r.payload == [] || |r.payload| > config.maxUploadBytes
      ensures result == Err(SourceNotFound) <==>
                0 < |r.payload| <= config.maxUploadBytes && r.source !in old(repository.sources)
      ensures result == Err(SourceDisabled) <==>
                && 0 < |r.payload| <= config.maxUploadBytes
                && r.source in old(repository.sources) && !old(repository.sources)[r.source].enabled
      ensures result.Err? ==> repository.Contents() == old(repository.Contents())
      ensures result == Err(ConnectorUnavailable) ==>
                var source := old(repository.sources)[r.source];
                (source.feedKind, source.dataFormat) !in config.connectors
      ensures result.Ok? ==> result.value.source == r.source && result.value.digest == config.digestOf(r.payload)
      ensures result.Ok? && KnowsDigest(old(repository.batches), r.source, config.digestOf(r.payload)) ==>
                repository.Contents() == old(repository.Contents()) && result.value in repository.batches
      ensures result.Ok? && !KnowsDigest(old(repository.batches), r.source, config.digestOf(r.payload)) ==>
                && repository.batches == old(repository.batches) + [result.value]
                && result.value.id == r.batchId
                && result.value.receivedAt == r.receivedAt && result.value.completedAt == r.completedAt
    {
      if r.payload == [] || |r.payload| > config.maxUploadBytes {
        return Err(BadSize);
      }
      if r.source !in repository.sources {
        return Err(SourceNotFound);
      }
      var source := repository.sources[r.source];
      if !source.enabled {
        return Err(SourceDisabled);
      }
      var digest := config.digestOf(r.payload);
      BatchByDigestMeaning(repository.batches, r.source, digest);
      var existing := repository.FindBatch(r.source, digest);
      if existing.Some? {
        return Ok(existing.value);
      }
      var connector := ConnectorOf(config, source);
      if connector.None? {
        return Err(ConnectorUnavailable);
      }
      var normalized := connector.value(r.payload);
      var status;
      if AcceptedCount(normalized) == 0 {
        status := Rejected;
      } else if normalized.rejected != [] {
        status := Partial;
      } else {
        status := Committed;
      }
      var batch := Batch(r.batchId, r.source, digest, status, normalized.inputCount, AcceptedCount(normalized),
                         |normalized.rejected|, r.receivedAt, r.completedAt);
      repository.CommitImport(source.official, batch, normalized);
      return Ok(batch);
    }
  }

  // --------------------------------------------------------------------- runs

  datatype Event = AddSource(id: nat, added: Source) | Feed(request: Request)

  function Step(c: Config, t: Tables, e: Event): Tables {
    match e
    case AddSource(id, source) => if id in t.sources then t else t.(sources := t.sources[id := source])
    case Feed(request) => ImportStep(c, t, request).0
  }

  function Run(c: Config, t: Tables, events: seq<Event>): Tables {
    if events == [] then t
    else Step(c, Run(c, t, events[..|events| - 1]), events[|events| - 1])
  }

  /** The event brings a new batch. */
  predicate Commits(c: Config, t: Tables, e: Event) {
    && e.Feed?
    && Refused(c, t, e.request).None?
    && BatchByDigest(t.batches, e.request.source, c.digestOf(e.request.payload)).None?
    && ConnectorOf(c, t.sources[e.request.source]).Some?
  }

  function Normalized(c: Config, t: Tables, e: Event): Import
    requires Commits(c, t, e)
  {
    ConnectorOf(c, t.sources[e.request.source]).value(e.request.payload)
  }

  // ---------------------------------------------------------- what a batch says

  ghost predicate ConnectorsBalance(c: Config) {
    forall kind, payload :: kind in c.connectors ==> IsBalanced(c.connectors[kind](payload))
  }

  /** The service as it is wired: the two connectors behind decoders of bytes. */
  function Wired(decode: Bytes -> Document, read: Bytes -> Sheet, digestOf: Bytes -> string, maxUploadBytes: nat)
      : Config
  {
    Config(map[(ParkingZones, GeoJson) := (payload: Bytes) => ZonesOf(decode(payload)),
               (ParkingFacilities, Csv) := (payload: Bytes) => FacilitiesOf(read(payload))],
           digestOf, maxUploadBytes)
  }

  lemma WiredConnectorsBalance(decode: Bytes -> Document, read: Bytes -> Sheet, digestOf: Bytes -> string,
                               maxUploadBytes: nat)
    ensures ConnectorsBalance(Wired(decode, read, digestOf, maxUploadBytes))
  {
    var c := Wired(decode, read, digestOf, maxUploadBytes);
    forall kind, payload | kind in c.connectors ensures IsBalanced(c.connectors[kind](payload)) {
      ImportsAreBalanced(decode(payload), read(payload));
    }
  }

  function QuarantineOf(quarantine: seq<Quarantined>, batch: nat): seq<Rejection> {
    if quarantine == [] then []
    else
      var last := |quarantine| - 1;
      QuarantineOf(quarantine[..last], batch) +
      if quarantine[last].batch == batch then [quarantine[last].rejection] else []
  }

  /** A batch's counts are those of its rows in quarantine and sum up, and its status tells the three outcomes apart. */
  predicate IsTruthful(b: Batch, quarantine: seq<Quarantined>) {
    && b.acceptedCount + b.rejectedCount == b.inputCount
    && |QuarantineOf(quarantine, b.id)| == b.rejectedCount
    && (b.status.Rejected? <==> b.acceptedCount == 0)
    && (b.status.Committed? <==> b.acceptedCount > 0 && b.rejectedCount == 0)
  }

  predicate AreTruthful(batches: seq<Batch>, quarantine: seq<Quarantined>) {
    forall b :: b in batches ==> IsTruthful(b, quarantine)
  }

  /** No source holds two batches with one digest. */
  predicate HasOneBatchPerDigest(batches: seq<Batch>) {
    forall i: nat, j: nat :: i < j < |batches| ==> !IsBatchOf(batches[i], batches[j].source, batches[j].digest)
  }

  /** Every quarantined record belongs to a batch. */
  predicate QuarantineIsOwned(t: Tables) {
    forall q :: q in t.quarantine ==> exists b :: b in t.batches && b.id == q.batch
  }

  predicate Inv(t: Tables) {
    && AreTruthful(t.batches, t.quarantine)
    && HasOneBatchPerDigest(t.batches)
    && QuarantineIsOwned(t)
  }

  /** New batches are numbered afresh, as random identifiers are. */
  predicate IsFresh(t: Tables, e: Event) {
    e.Feed? ==> forall b :: b in t.batches ==> b.id != e.request.batchId
  }

  lemma {:induction false} BatchByDigestMeaning(batches: seq<Batch>, source: nat, digest: string)
    ensures match BatchByDigest(batches, source, digest)
            case None => forall b :: b in batches ==> !IsBatchOf(b, source, digest)
            case Some(b) => b in batches && IsBatchOf(b, source, digest)
  {
    if batches != [] {
      BatchByDigestMeaning(batches[1..], source, digest);
      forall b | b in batches ensures b == batches[0] || b in batches[1..] {}
    }
  }

  lemma {:induction false} QuarantineOfJoin(before: seq<Quarantined>, id: nat, rejected: seq<Rejection>, batch: nat)
    ensures QuarantineOf(WithRejections(before, id, rejected), batch)
         == QuarantineOf(before, batch) + if batch == id then rejected else []
  {
    if rejected == [] {
      assert WithRejections(before, id, rejected) == before;
    } else {
      var last := |rejected| - 1;
      var all := WithRejections(before, id, rejected);
      assert all[..|all| - 1] == WithRejections(before, id, rejected[..last]);
      QuarantineOfJoin(before, id, rejected[..last], batch);
    }
  }

  lemma {:induction false} UnownedBatchHasNoQuarantine(quarantine: seq<Quarantined>, batch: nat)
    requires forall q :: q in quarantine ==> q.batch != batch
    ensures QuarantineOf(quarantine, batch) == []
  {
    if quarantine != [] {
      UnownedBatchHasNoQuarantine(quarantine[..|quarantine| - 1], batch);
    }
  }

  lemma CommitKeepsInv(t: Tables, official: bool, b: Batch, n: Import)
    requires Inv(t)
    requires forall other :: other in t.batches ==> other.id != b.id && !IsBatchOf(other, b.source, b.digest)
    requires IsBalanced(n) && b.status == StatusOf(n)
    requires b.inputCount == n.inputCount && b.acceptedCount == AcceptedCount(n) && b.rejectedCount == |n.rejected|
    ensures Inv(AfterCommit(t, official, b, n))
  {
    var quarantine := WithRejections(t.quarantine, b.id, n.rejected);
    var batches := t.batches + [b];
    forall other | other in batches ensures IsTruthful(other, quarantine) {
      QuarantineOfJoin(t.quarantine, b.id, n.rejected, other.id);
      if other !in t.batches {
        UnownedBatchHasNoQuarantine(t.quarantine, b.id);
      }
    }
    forall q | q in quarantine ensures exists owner :: owner in batches && owner.id == q.batch {
      if q in t.quarantine {
        var owner :| owner in t.batches && owner.id == q.batch;
        assert owner in batches;
      } else {
        assert b in batches;
      }
    }
  }

  /** Whatever happens next, batches stay truthful and unique per digest. */
  lemma StepKeepsInv(c: Config, t: Tables, e: Event)
    requires Inv(t) && IsFresh(t, e) && ConnectorsBalance(c)
    ensures Inv(Step(c, t, e))
  {
    if Commits(c, t, e) {
      var r := e.request;
      var source := t.sources[r.source];
      assert (source.feedKind, source.dataFormat) in c.connectors;
      var n := Normalized(c, t, e);
      assert IsBalanced(n);
      BatchByDigestMeaning(t.batches, r.source, c.digestOf(r.payload));
      CommitKeepsInv(t, source.official, NewBatch(r, c.digestOf(r.payload), n), n);
    }
  }

  ghost predicate IsFreshRun(c: Config, t: Tables, events: seq<Event>) {
    forall i: nat :: i < |events| ==> IsFresh(Run(c, t, events[..i]), events[i])
  }

  /** Every batch of every run is truthful, and no source ever holds two batches with one digest. */
  lemma {:induction false} BatchesAreTruthful(c: Config, events: seq<Event>)
    requires IsFreshRun(c, EMPTY, events) && ConnectorsBalance(c)
    ensures Inv(Run(c, EMPTY, events))
  {
    if events != [] {
      var last := |events| - 1;
      forall i: nat | i < last ensures IsFresh(Run(c, EMPTY, events[..last][..i]), events[..last][i]) {
        assert events[..last][..i] == events[..i];
      }
      BatchesAreTruthful(c, events[..last]);
      StepKeepsInv(c, Run(c, EMPTY, events[..last]), events[last]);
    }
  }

  /** So it is for the connectors the service is wired with. */
  lemma WiredBatchesAreTruthful(decode: Bytes -> Document, read: Bytes -> Sheet, digestOf: Bytes -> string,
                                maxUploadBytes: nat, events: seq<Event>)
    requires IsFreshRun(Wired(decode, read, digestOf, maxUploadBytes), EMPTY, events)
    ensures Inv(Run(Wired(decode, read, digestOf, maxUploadBytes), EMPTY, events))
  {
    WiredConnectorsBalance(decode, read, digestOf, maxUploadBytes);
    BatchesAreTruthful(Wired(decode, read, digestOf, maxUploadBytes), events);
  }

  // ------------------------------------------------------------------- replays

  lemma {:induction false} BatchesAreKept(c: Config, t: Tables, events: seq<Event>)
    ensures t.batches <= Run(c, t, events).batches
    ensures forall id :: id in t.sources ==> id in Run(c, t, events).sources
                                             && Run(c, t, events).sources[id] == t.sources[id]
  {
    if events != [] {
      BatchesAreKept(c, t, events[..|events| - 1]);
    }
  }

  lemma {:induction false} FirstBatchStays(batches: seq<Batch>, later: seq<Batch>, source: nat, digest: string)
    requires batches <= later && BatchByDigest(batches, source, digest).Some?
    ensures BatchByDigest(later, source, digest) == BatchByDigest(batches, source, digest)
  {
    if !IsBatchOf(batches[0], source, digest) {
      FirstBatchStays(batches[1..], later[1..], source, digest);
    }
  }

  lemma {:induction false} NewBatchIsFound(batches: seq<Batch>, b: Batch)
    requires BatchByDigest(batches, b.source, b.digest).None?
    ensures BatchByDigest(batches + [b], b.source, b.digest) == Some(b)
  {
    if batches != [] {
      assert (batches + [b])[1..] == batches[1..] + [b];
      NewBatchIsFound(batches[1..], b);
    }
  }

  /** Once bytes with a digest were imported, importing such bytes again gives the same batch and changes nothing. */
  lemma ReplayChangesNothing(c: Config, t: Tables, r: Request, events: seq<Event>, again: Request)
    requires ImportStep(c, t, r).1.Ok?
    requires again.source == r.source && c.digestOf(again.payload) == c.digestOf(r.payload)
    requires again.payload != [] && |again.payload| <= c.maxUploadBytes
    ensures var later := Run(c, ImportStep(c, t, r).0, events);
            ImportStep(c, later, again) == (later, ImportStep(c, t, r).1)
  {
    var digest := c.digestOf(r.payload);
    var (after, result) := ImportStep(c, t, r);
    var later := Run(c, after, events);
    if BatchByDigest(t.batches, r.source, digest).None? {
      NewBatchIsFound(t.batches, result.value);
    }
    assert BatchByDigest(after.batches, r.source, digest) == Some(result.value);
    BatchesAreKept(c, after, events);
    FirstBatchStays(after.batches, later.batches, r.source, digest);
  }

  // ------------------------------------------------------- what the tables mean

  datatype Record = ZoneRecord(zone: Zone) | FacilityRecord(facility: Facility)

  datatype Key = Key(kind: FeedKind, source: nat, id: string)

  /** The row under a key, whichever of the two tables the key points into. */
  function RowAt(t: Tables, k: Key): Option<Stored<Record>> {
    var key := (k.source, k.id);
    match k.kind
    case ParkingZones =>
      if key in t.zones
      then Some(Stored(ZoneRecord(t.zones[key].record), t.zones[key].batch, t.zones[key].official)) else None
    case ParkingFacilities =>
      if key in t.facilities
      then Some(Stored(FacilityRecord(t.facilities[key].record), t.facilities[key].batch, t.facilities[key].official))
      else None
  }

  /** The last of the records that carries the id. */
  function LastWithId<R>(idOf: R -> string, records: seq<R>, id: string): Option<R> {
    if records == [] then None
    else
      var last := |records| - 1;
      if idOf(records[last]) == id then Some(records[last]) else LastWithId(idOf, records[..last], id)
  }

  function AcceptedUnder(n: Import, kind: FeedKind, id: string): Option<Record> {
    match kind
    case ParkingZones =>
      (match LastWithId((z: Zone) => ZoneId(z), n.zones, id) case None => None case Some(z) => Some(ZoneRecord(z)))
    case ParkingFacilities =>
      match LastWithId((f: Facility) => FacilityId(f), n.facilities, id)
      case None => None
      case Some(f) => Some(FacilityRecord(f))
  }

  /** The row the event writes under the key: its source's record of that id, if it commits and accepted one. */
  function Written(c: Config, t: Tables, e: Event, k: Key): Option<Stored<Record>> {
    if Commits(c, t, e) && e.request.source == k.source then
      match AcceptedUnder(Normalized(c, t, e), k.kind, k.id)
      case None => None
      case Some(record) => Some(Stored(record, e.request.batchId, t.sources[k.source].official))
    else None
  }

  lemma {:induction false} UpsertedAt<R>(table: Table<R>, idOf: R -> string, source: nat, official: bool, batch: nat,
                                         records: seq<R>, at: nat, id: string)
    ensures var after := Upserted(table, idOf, source, official, batch, records);
            if at == source && LastWithId(idOf, records, id).Some? then
              (at, id) in after && after[(at, id)] == Stored(LastWithId(idOf, records, id).value, batch, official)
            else
              && ((at, id) in after <==> (at, id) in table)
              && ((at, id) in table ==> after[(at, id)] == table[(at, id)])
  {
    if records != [] {
      UpsertedAt(table, idOf, source, official, batch, records[..|records| - 1], at, id);
    }
  }

  lemma {:induction false} UpsertedHoldsAll<R>(table: Table<R>, idOf: R -> string, source: nat, official: bool,
                                                batch: nat, records: seq<R>)
    ensures forall r :: r in records ==>
              (source, idOf(r)) in Upserted(table, idOf, source, official, batch, records)
  {
    if records != [] {
      UpsertedHoldsAll(table, idOf, source, official, batch, records[..|records| - 1]);
      forall r | r in records ensures r == records[|records| - 1] || r in records[..|records| - 1] {}
    }
  }

  lemma RowAfterStep(c: Config, t: Tables, e: Event, k: Key)
    ensures RowAt(Step(c, t, e), k) == if Written(c, t, e, k).Some? then Written(c, t, e, k) else RowAt(t, k)
  {
    if Commits(c, t, e) {
      var r := e.request;
      var n := Normalized(c, t, e);
      var official := t.sources[r.source].official;
      UpsertedAt(t.zones, (z: Zone) => ZoneId(z), r.source, official, r.batchId, n.zones, k.source, k.id);
      UpsertedAt(t.facilities, (f: Facility) => FacilityId(f), r.source, official, r.batchId, n.facilities,
                 k.source, k.id);
    }
  }

  /** What the event at `i` of the run writes under the key. */
  function WrittenAt(c: Config, t: Tables, events: seq<Event>, k: Key, i: nat): Option<Stored<Record>>
    requires i < |events|
  {
    Written(c, Run(c, t, events[..i]), events[i], k)
  }

  function WritesOf(c: Config, t: Tables, events: seq<Event>, k: Key): (writes: seq<Option<Stored<Record>>>)
    ensures |writes| == |events| && forall i: nat :: i < |events| ==> writes[i] == WrittenAt(c, t, events, k, i)
  {
    seq(|events|, i requires 0 <= i < |events| => WrittenAt(c, t, events, k, i))
  }

  predicate IsLastWrite<X>(writes: seq<Option<X>>, i: nat) {
    i < |writes| && writes[i].Some? && forall j: nat :: i < j < |writes| ==> writes[j].None?
  }

  predicate AreNoWrites<X>(writes: seq<Option<X>>) {
    forall j: nat :: j < |writes| ==> writes[j].None?
  }

  /** The content after some writes: that of the last one, or the content before when there was none. */
  ghost predicate Holds<X(!new)>(before: Option<X>, writes: seq<Option<X>>, after: Option<X>) {
    || (AreNoWrites(writes) && after == before)
    || (exists i: nat :: IsLastWrite(writes, i) && after == writes[i])
  }

  lemma HoldsNext<X(!new)>(before: Option<X>, writes: seq<Option<X>>, after: Option<X>, write: Option<X>)
    requires Holds(before, writes, after)
    ensures Holds(before, writes + [write], if write.Some? then write else after)
  {
    var all := writes + [write];
    if write.Some? {
      assert IsLastWrite(all, |writes|);
    } else if !AreNoWrites(writes) {
      var i: nat :| IsLastWrite(writes, i) && after == writes[i];
      assert IsLastWrite(all, i);
    }
  }

  /** In every run a row is the record of the last import that accepted its id; a key nothing wrote keeps its row. */
  lemma {:induction false} RowIsLastWritten(c: Config, t: Tables, events: seq<Event>, k: Key)
    ensures Holds(RowAt(t, k), WritesOf(c, t, events, k), RowAt(Run(c, t, events), k))
  {
    if events != [] {
      var last := |events| - 1;
      var init := events[..last];
      RowIsLastWritten(c, t, init, k);
      RowAfterStep(c, Run(c, t, init), events[last], k);
      WritesExtend(c, t, events, k);
      HoldsNext(RowAt(t, k), WritesOf(c, t, init, k), RowAt(Run(c, t, init), k), WrittenAt(c, t, events, k, last));
    }
  }

  lemma WritesExtend(c: Config, t: Tables, events: seq<Event>, k: Key)
    requires events != []
    ensures WritesOf(c, t, events, k)
         == WritesOf(c, t, events[..|events| - 1], k) + [WrittenAt(c, t, events, k, |events| - 1)]
  {
    var init := events[..|events| - 1];
    forall i: nat | i < |init| ensures WrittenAt(c, t, init, k, i) == WrittenAt(c, t, events, k, i) {
      assert init[..i] == events[..i];
    }
  }

  /** A source holds a batch of a digest exactly when some event of the run committed one. */
  lemma {:induction false} CommitsOncePerDigest(c: Config, events: seq<Event>, source: nat, digest: string)
    ensures BatchByDigest(Run(c, EMPTY, events).batches, source, digest).Some?
            <==> exists i: nat :: i < |events| && CommittedAt(c, events, i, source, digest)
  {
    if events != [] {
      var last := |events| - 1;
      var init := events[..last];
      CommitsOncePerDigest(c, init, source, digest);
      forall i: nat | i < last
        ensures CommittedAt(c, init, i, source, digest) == CommittedAt(c, events, i, source, digest)
      {
        assert init[..i] == events[..i];
      }
      BatchAppears(c, Run(c, EMPTY, init), events[last], source, digest);
      assert CommittedAt(c, events, last, source, digest)
          == IsCommitOf(c, Run(c, EMPTY, init), events[last], source, digest);
    }
  }

  predicate CommittedAt(c: Config, events: seq<Event>, i: nat, source: nat, digest: string)
    requires i < |events|
  {
    IsCommitOf(c, Run(c, EMPTY, events[..i]), events[i], source, digest)
  }

  predicate IsCommitOf(c: Config, t: Tables, e: Event, source: nat, digest: string) {
    Commits(c, t, e) && e.request.source == source && c.digestOf(e.request.payload) == digest
  }

  lemma BatchAppears(c: Config, t: Tables, e: Event, source: nat, digest: string)
    ensures BatchByDigest(Step(c, t, e).batches, source, digest).Some?
            <==> BatchByDigest(t.batches, source, digest).Some? || IsCommitOf(c, t, e, source, digest)
  {
    BatchByDigestMeaning(t.batches, source, digest);
    var after := Step(c, t, e).batches;
    BatchByDigestMeaning(after, source, digest);
    if Commits(c, t, e) {
      var added := NewBatch(e.request, c.digestOf(e.request.payload), Normalized(c, t, e));
      assert after == t.batches + [added];
      assert added in after && added.source == e.request.source && added.digest == c.digestOf(e.request.payload);
      var before := BatchByDigest(t.batches, source, digest);
      assert before.Some? ==> before.value in after;
      var found := BatchByDigest(after, source, digest);
      assert found.Some? ==> found.value in t.batches || found.value == added;
    } else {
      assert after == t.batches;
    }
  }

  // ------------------------------------------------------------ where rows are from

  lemma {:induction false} LastWithIdMeaning<R>(idOf: R -> string, records: seq<R>, id: string)
    ensures match LastWithId(idOf, records, id)
            case None => forall r :: r in records ==> idOf(r) != id
            case Some(r) => r in records && idOf(r) == id
  {
    if records != [] {
      LastWithIdMeaning(idOf, records[..|records| - 1], id);
      forall r | r in records ensures r == records[|records| - 1] || r in records[..|records| - 1] {}
    }
  }

  /** The row was brought by a batch of its own source, and carries the trust put in that source. */
  predicate RowIsSourced(t: Tables, k: Key, row: Stored<Record>) {
    && k.source in t.sources && row.official == t.sources[k.source].official
    && exists b :: b in t.batches && b.id == row.batch && b.source == k.source
  }

  lemma StepKeepsSourced(c: Config, t: Tables, e: Event, k: Key, row: Stored<Record>)
    requires RowIsSourced(t, k, row)
    ensures RowIsSourced(Step(c, t, e), k, row)
  {
    var b :| b in t.batches && b.id == row.batch && b.source == k.source;
    assert b in Step(c, t, e).batches;
  }

  lemma WrittenIsSourced(c: Config, t: Tables, e: Event, k: Key)
    requires Written(c, t, e, k).Some?
    ensures RowIsSourced(Step(c, t, e), k, Written(c, t, e, k).value)
  {
    var added := NewBatch(e.request, c.digestOf(e.request.payload), Normalized(c, t, e));
    assert added in Step(c, t, e).batches;
  }

  /** In every run every row was brought by a batch of its source and carries the trust put in that source. */
  lemma {:induction false} RowsAreSourced(c: Config, events: seq<Event>, k: Key)
    ensures var t := Run(c, EMPTY, events);
            RowAt(t, k).Some? ==> RowIsSourced(t, k, RowAt(t, k).value)
  {
    if events != [] {
      var last := |events| - 1;
      var before := Run(c, EMPTY, events[..last]);
      RowsAreSourced(c, events[..last], k);
      RowAfterStep(c, before, events[last], k);
      if Written(c, before, events[last], k).Some? {
        WrittenIsSourced(c, before, events[last], k);
      } else if RowAt(before, k).Some? {
        StepKeepsSourced(c, before, events[last], k, RowAt(before, k).value);
      }
    }
  }

  /** What an event writes under a key is a record of that id that its connector accepted. */
  lemma WrittenIsAccepted(c: Config, t: Tables, e: Event, k: Key)
    requires Written(c, t, e, k).Some?
    ensures Commits(c, t, e) && e.request.source == k.source
    ensures var n, row := Normalized(c, t, e), Written(c, t, e, k).value;
            match k.kind
            case ParkingZones => exists z :: z in n.zones && ZoneId(z) == k.id && row.record == ZoneRecord(z)
            case ParkingFacilities =>
              exists f :: f in n.facilities && FacilityId(f) == k.id && row.record == FacilityRecord(f)
  {
    var n := Normalized(c, t, e);
    LastWithIdMeaning((z: Zone) => ZoneId(z), n.zones, k.id);
    LastWithIdMeaning((f: Facility) => FacilityId(f), n.facilities, k.id);
  }
}
