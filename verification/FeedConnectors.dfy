/** Connectors that turn an untrusted municipal feed into zones, facilities and quarantined records. */
module FeedConnectors {
  import ParkingDecision
  import opened Wrappers
  import opened Timestamps
  import opened ParkingRules
  import opened RuleStorage
  import opened Intake

  type ZoneType = ParkingDecision.ZoneType

  const MAX_RECORDS := 5_000

  datatype Rejection = Rejection(index: int, code: string)

  datatype Import = Import(inputCount: nat, zones: seq<Zone>, facilities: seq<Facility>, rejected: seq<Rejection>)

  function AcceptedCount(r: Import): nat {
    |r.zones| + |r.facilities|
  }

  /** Every record of the feed is accounted for once. */
  predicate IsBalanced(r: Import) {
    AcceptedCount(r) + |r.rejected| == r.inputCount
  }

  predicate HasDistinctIds(r: Import) {
    && (forall k: nat, l: nat :: k < l < |r.zones| ==> ZoneId(r.zones[k]) != ZoneId(r.zones[l]))
    && (forall k: nat, l: nat :: k < l < |r.facilities| ==> FacilityId(r.facilities[k]) != FacilityId(r.facilities[l]))
  }

  function Refusal(code: string): Import {
    Import(1, [], [], [Rejection(-1, code)])
  }

  function Rejections(refused: seq<nat>, code: string): seq<Rejection> {
    seq(|refused|, i requires 0 <= i < |refused| => Rejection(refused[i], code))
  }

  /** Both validity bounds are aware and in order. */
  predicate AreAwareTimestamps(observedAt: DateTime, expiresAt: Option<DateTime>) {
    && observedAt.time.offset.Some?
    && (expiresAt.Some? ==>
          expiresAt.value.time.offset.Some? && Instant(observedAt) < Instant(expiresAt.value))
  }

  // -------------------------------------------------------------------- zones

  /** A feature after conversion of its fields; `Unreadable` when a field has the wrong type. */
  datatype Feature =
    | Unreadable
    | Feature(kind: string, geometryKind: string, rings: seq<seq<seq<real>>>,
              fields: ZoneFields, rules: seq<StoredRule>)

  datatype ZoneFields = ZoneFields(
    externalId: string,
    name: string,
    zoneType: ZoneType,
    parkingScore: int,
    summary: Option<string>,
    towingCostCents: Option<int>,
    towingHotspot: bool,
    observedAt: DateTime,
    expiresAt: Option<DateTime>,
    scheduleRequired: bool)

  datatype Zone = Zone(fields: ZoneFields, rings: seq<seq<seq<real>>>, rules: seq<Rule>)

  function ZoneId(z: Zone): string {
    z.fields.externalId
  }

  predicate MeetsSchema(f: ZoneFields, ruleCount: nat) {
    && 1 <= |f.externalId| <= 160
    && 1 <= |f.name| <= 160
    && 0 <= f.parkingScore <= 100
    && (f.summary.Some? ==> |f.summary.value| <= 2_000)
    && (f.towingCostCents.Some? ==> 0 <= f.towingCostCents.value <= 1_000_000)
    && ruleCount <= 64
  }

  predicate IsPoint(p: seq<real>) {
    |p| == 2 && -180.0 <= p[0] <= 180.0 && -90.0 <= p[1] <= 90.0
  }

  predicate IsRing(ring: seq<seq<real>>) {
    && |ring| >= 4
    && ring[0] == ring[|ring| - 1]
    && forall p :: p in ring ==> IsPoint(p)
  }

  predicate IsPolygon(rings: seq<seq<seq<real>>>) {
    rings != [] && forall ring :: ring in rings ==> IsRing(ring)
  }

  /** The id a feature claims: everything about it is in order except, perhaps, its temporal rules. */
  function ClaimOf(f: Feature): Option<string> {
    if f.Unreadable? || f.kind != "Feature" || f.geometryKind != "Polygon"
       || !MeetsSchema(f.fields, |f.rules|)
       || !IsPolygon(f.rings)
       || !AreAwareTimestamps(f.fields.observedAt, f.fields.expiresAt)
    then None
    else Some(f.fields.externalId)
  }

  function RulesOf(f: Feature): Option<seq<Rule>> {
    if f.Unreadable? then None else ReadAll((s: StoredRule) => ConnectorRule(s), f.rules)
  }

  function ZoneOf(f: Feature): Option<Zone> {
    match RulesOf(f)
    case None => None
    case Some(rules) => Some(Zone(f.fields, f.rings, rules))
  }

  /** The id is claimed before the temporal rules are read. */
  function ZoneReader(): Reader<Feature, Zone> {
    Reader((f: Feature) => ClaimOf(f), (f: Feature) => ZoneOf(f), (z: Zone) => ZoneId(z))
  }

  datatype Document = NotJson | NotACollection | NoFeatureList | Features(features: seq<Feature>)

  /** The loop of the GeoJSON connector: the id is taken before the temporal rules are read. */
  method ReadFeatures(claimOf: Feature -> Option<string>, zoneOf: Feature -> Option<Zone>, features: seq<Feature>)
      returns (accepted: seq<Zone>, rejected: seq<Rejection>)
    ensures var reader := Reader(claimOf, zoneOf, (z: Zone) => ZoneId(z));
            accepted == Accepted(reader, features)
            && rejected == Rejections(RefusedAt(reader, features), "invalid_zone")
  {
    ghost var reader := Reader(claimOf, zoneOf, (z: Zone) => ZoneId(z));
    accepted, rejected := [], [];
    var seen: set<string> := {};
    for index := 0 to |features|
      invariant SeenSoFar(reader, features[..index], seen)
      invariant accepted == Accepted(reader, features[..index])
      invariant rejected == Rejections(RefusedAt(reader, features[..index]), "invalid_zone")
    {
      var feature := features[index];
      IntakeStep(reader, features, index, seen);
      var claim := claimOf(feature);
      if claim.Some? && claim.value !in seen {
        seen := seen + {claim.value};
        var zone := zoneOf(feature);
        if zone.Some? {
          accepted := accepted + [zone.value];
        } else {
          rejected := rejected + [Rejection(index, "invalid_zone")];
        }
      } else {
        rejected := rejected + [Rejection(index, "invalid_zone")];
      }
    }
    assert features[..|features|] == features;
  }

  /** What the GeoJSON connector makes of a document. */
  function ZonesOf(document: Document): Import {
    match document
    case NotJson => Refusal("invalid_json")
    case NotACollection => Refusal("invalid_collection")
    case NoFeatureList => Refusal("invalid_record_count")
    case Features(features) =>
      if |features| > MAX_RECORDS then Refusal("invalid_record_count")
      else Import(|features|, Accepted(ZoneReader(), features), [],
                  Rejections(RefusedAt(ZoneReader(), features), "invalid_zone"))
  }

  method ParseZones(document: Document) returns (r: Import)
    ensures r == ZonesOf(document)
    ensures document.NotJson? ==> r == Import(1, [], [], [Rejection(-1, "invalid_json")])
    ensures document.NotACollection? ==> r == Import(1, [], [], [Rejection(-1, "invalid_collection")])
    ensures document.NoFeatureList? || (document.Features? && |document.features| > 5_000) ==>
              r == Import(1, [], [], [Rejection(-1, "invalid_record_count")])
    ensures document.Features? && |document.features| <= 5_000 ==>
              && r.inputCount == |document.features| && r.facilities == []
              && forall x :: x in r.rejected ==> 0 <= x.index < |document.features| && x.code == "invalid_zone"
  {
    if document.NotJson? { return Refusal("invalid_json"); }
    if document.NotACollection? { return Refusal("invalid_collection"); }
    if document.NoFeatureList? || |document.features| > MAX_RECORDS { return Refusal("invalid_record_count"); }
    var reader := ZoneReader();
    var accepted, rejected := ReadFeatures(reader.claim, reader.build, document.features);
    EachRecordOnce(reader, document.features);
    r := Import(|document.features|, accepted, [], rejected);
  }

  // --------------------------------------------------------------- facilities

  /** A cell after its conversion: empty, not convertible, or a value. */
  datatype Cell<T> = Blank | Garbled | Holds(value: T)

  /** A row whose texts are trimmed and whose columns beyond the required ones may be missing. */
  datatype Row = Row(
    externalId: string,
    name: string,
    address: string,
    latitude: Cell<real>,
    longitude: Cell<real>,
    hourlyPriceCents: Cell<int>,
    safetyScore: Cell<int>,
    towingPer1000: Cell<real>,
    rating: Cell<real>,
    availableSpaces: Cell<int>,
    capacity: Cell<int>,
    navigationUrl: string,
    usesHttps: bool,
    observedAt: Cell<DateTime>,
    expiresAt: Cell<DateTime>)

  datatype Facility = Facility(
    externalId: string,
    name: string,
    address: string,
    latitude: real,
    longitude: real,
    hourlyPriceCents: Option<int>,
    safetyScore: int,
    towingPer1000: real,
    rating: Option<real>,
    availableSpaces: Option<int>,
    capacity: Option<int>,
    navigationUrl: string,
    observedAt: DateTime,
    expiresAt: Option<DateTime>)

  function FacilityId(f: Facility): string {
    f.externalId
  }

  function Text(s: string, maximum: nat): Option<string> {
    if s == "" || |s| > maximum then None else Some(s)
  }

  function Real(c: Cell<real>, minimum: real, maximum: real): Option<real> {
    if c.Holds? && minimum <= c.value <= maximum then Some(c.value) else None
  }

  function Int(c: Cell<int>, minimum: int, maximum: int): Option<int> {
    if c.Holds? && minimum <= c.value <= maximum then Some(c.value) else None
  }

  /** An empty optional cell is no value; the outer option is failure. */
  function OptionalInt(c: Cell<int>, minimum: int, maximum: int): Option<Option<int>> {
    if c.Blank? then Some(None)
    else match Int(c, minimum, maximum) case None => None case Some(v) => Some(Some(v))
  }

  function OptionalReal(c: Cell<real>, minimum: real, maximum: real): Option<Option<real>> {
    if c.Blank? then Some(None)
    else match Real(c, minimum, maximum) case None => None case Some(v) => Some(Some(v))
  }

  function Stamps(observed: Cell<DateTime>, expires: Cell<DateTime>): Option<(DateTime, Option<DateTime>)> {
    if !observed.Holds? || expires.Garbled? then None
    else
      var expiresAt := if expires.Blank? then None else Some(expires.value);
      if AreAwareTimestamps(observed.value, expiresAt) then Some((observed.value, expiresAt)) else None
  }

  function FacilityOf(row: Row): Option<Facility> {
    var id, name, address := Text(row.externalId, 160), Text(row.name, 160), Text(row.address, 500);
    var latitude, longitude := Real(row.latitude, -90.0, 90.0), Real(row.longitude, -180.0, 180.0);
    var safety, towing := Int(row.safetyScore, 0, 100), Real(row.towingPer1000, 0.0, 1000.0);
    var url, stamps := Text(row.navigationUrl, 1000), Stamps(row.observedAt, row.expiresAt);
    var price, rating := OptionalInt(row.hourlyPriceCents, 0, 1_000_000), OptionalReal(row.rating, 0.0, 5.0);
    var capacity := OptionalInt(row.capacity, 0, 1_000_000);
    var available := OptionalInt(row.availableSpaces, 0, 1_000_000);
    if id.None? || name.None? || address.None? || latitude.None? || longitude.None? || safety.None? || towing.None?
       || url.None? || !row.usesHttps || stamps.None? || price.None? || rating.None? || capacity.None?
       || available.None?
    then None
    else if available.value.Some? && capacity.value.Some? && available.value.value > capacity.value.value then None
    else Some(Facility(id.value, name.value, address.value, latitude.value, longitude.value, price.value, safety.value,
                       towing.value, rating.value, available.value, capacity.value, url.value,
                       stamps.value.0, stamps.value.1))
  }

  datatype Sheet = NotUtf8 | MissingColumns | Rows(rows: seq<Row>)

  function RowReader(facilityOf: Row -> Option<Facility>): Reader<Row, Facility> {
    Reader((row: Row) => match facilityOf(row) case None => None case Some(f) => Some(f.externalId),
           facilityOf,
           (f: Facility) => FacilityId(f))
  }

  function FacilityReader(): Reader<Row, Facility> {
    RowReader((row: Row) => FacilityOf(row))
  }

  /** The loop of the CSV connector: the id is taken once the whole row has been read. */
  method ReadRows(facilityOf: Row -> Option<Facility>, rows: seq<Row>)
      returns (accepted: seq<Facility>, rejected: seq<Rejection>)
    ensures accepted == Accepted(RowReader(facilityOf), rows)
    ensures rejected == Rejections(RefusedAt(RowReader(facilityOf), rows), "invalid_facility")
  {
    ghost var reader := RowReader(facilityOf);
    accepted, rejected := [], [];
    var seen: set<string> := {};
    for index := 0 to |rows|
      invariant SeenSoFar(reader, rows[..index], seen)
      invariant accepted == Accepted(reader, rows[..index])
      invariant rejected == Rejections(RefusedAt(reader, rows[..index]), "invalid_facility")
    {
      IntakeStep(reader, rows, index, seen);
      var facility := facilityOf(rows[index]);
      if facility.Some? && facility.value.externalId !in seen {
        seen := seen + {facility.value.externalId};
        accepted := accepted + [facility.value];
      } else {
        rejected := rejected + [Rejection(index, "invalid_facility")];
        assert facility.Some? ==> seen == seen + {facility.value.externalId};
      }
    }
    assert rows[..|rows|] == rows;
  }

  /** What the CSV connector makes of a sheet. */
  function FacilitiesOf(sheet: Sheet): Import {
    match sheet
    case NotUtf8 => Refusal("invalid_csv")
    case MissingColumns => Refusal("missing_columns")
    case Rows(rows) =>
      if |rows| > MAX_RECORDS then Refusal("invalid_record_count")
      else Import(|rows|, [], Accepted(FacilityReader(), rows),
                  Rejections(RefusedAt(FacilityReader(), rows), "invalid_facility"))
  }

  method ParseFacilities(sheet: Sheet) returns (r: Import)
    ensures r == FacilitiesOf(sheet)
    ensures sheet.NotUtf8? ==> r == Import(1, [], [], [Rejection(-1, "invalid_csv")])
    ensures sheet.MissingColumns? ==> r == Import(1, [], [], [Rejection(-1, "missing_columns")])
    ensures sheet.Rows? && |sheet.rows| > 5_000 ==> r == Import(1, [], [], [Rejection(-1, "invalid_record_count")])
    ensures sheet.Rows? && |sheet.rows| <= 5_000 ==>
              && r.inputCount == |sheet.rows| && r.zones == []
              && forall x :: x in r.rejected ==> 0 <= x.index < |sheet.rows| && x.code == "invalid_facility"
  {
    if sheet.NotUtf8? { return Refusal("invalid_csv"); }
    if sheet.MissingColumns? { return Refusal("missing_columns"); }
    if |sheet.rows| > MAX_RECORDS { return Refusal("invalid_record_count"); }
    var accepted, rejected := ReadRows(FacilityReader().build, sheet.rows);
    EachRecordOnce(FacilityReader(), sheet.rows);
    r := Import(|sheet.rows|, [], accepted, rejected);
  }

  // --------------------------------------------------------------- properties

  lemma ReadersAreCoherent()
    ensures IsCoherent(ZoneReader()) && IsCoherent(FacilityReader())
  {
  }

  lemma ZonesAreAccountedFor(features: seq<Feature>)
    ensures |Accepted(ZoneReader(), features)| + |RefusedAt(ZoneReader(), features)| == |features|
    ensures var zones := Accepted(ZoneReader(), features);
            forall k: nat, l: nat :: k < l < |zones| ==> ZoneId(zones[k]) != ZoneId(zones[l])
  {
    ReadersAreCoherent();
    var reader := ZoneReader();
    EachRecordOnce(reader, features);
    var zones := Accepted(reader, features);
    forall k: nat, l: nat | k < l < |zones| ensures ZoneId(zones[k]) != ZoneId(zones[l]) {
      AcceptedIdsAreDistinct(reader, features, k, l);
      assert reader.idOf(zones[k]) == ZoneId(zones[k]) && reader.idOf(zones[l]) == ZoneId(zones[l]);
    }
  }

  lemma FacilitiesAreAccountedFor(rows: seq<Row>)
    ensures |Accepted(FacilityReader(), rows)| + |RefusedAt(FacilityReader(), rows)| == |rows|
    ensures var facilities := Accepted(FacilityReader(), rows);
            forall k: nat, l: nat :: k < l < |facilities| ==> FacilityId(facilities[k]) != FacilityId(facilities[l])
  {
    ReadersAreCoherent();
    var reader := FacilityReader();
    EachRecordOnce(reader, rows);
    var facilities := Accepted(reader, rows);
    forall k: nat, l: nat | k < l < |facilities| ensures FacilityId(facilities[k]) != FacilityId(facilities[l]) {
      AcceptedIdsAreDistinct(reader, rows, k, l);
      assert reader.idOf(facilities[k]) == FacilityId(facilities[k]);
      assert reader.idOf(facilities[l]) == FacilityId(facilities[l]);
    }
  }

  /** Every import of either connector accounts for its records once and carries no id twice. */
  lemma ImportsAreBalanced(document: Document, sheet: Sheet)
    ensures IsBalanced(ZonesOf(document)) && HasDistinctIds(ZonesOf(document))
    ensures IsBalanced(FacilitiesOf(sheet)) && HasDistinctIds(FacilitiesOf(sheet))
  {
    if document.Features? {
      ZonesAreAccountedFor(document.features);
    }
    if sheet.Rows? {
      FacilitiesAreAccountedFor(sheet.rows);
    }
  }

  /** A facility is served under every id that some readable row carries. */
  lemma FacilityIsServedIff(rows: seq<Row>, id: string)
    ensures HasId(FacilityReader(), rows, id)
            <==> exists row :: row in rows && FacilityOf(row).Some? && FacilityId(FacilityOf(row).value) == id
  {
    ReadersAreCoherent();
    var reader := FacilityReader();
    IdIsAcceptedIff(reader, rows, id);
    if row :| row in rows && FacilityOf(row).Some? && FacilityId(FacilityOf(row).value) == id {
      assert reader.claim(row) == Some(id);
      var i := SomeoneClaimsFirst(reader, rows, id);
      assert reader.build(rows[i]).Some?;
    }
  }

  /** A complete zone record leaves no zone under its id exactly when the first record to claim the id has bad rules. */
  lemma ZoneIsLostIff(features: seq<Feature>, i: nat, id: string)
    requires i < |features| && ClaimOf(features[i]) == Some(id) && ZoneOf(features[i]).Some?
    ensures !HasId(ZoneReader(), features, id)
            <==> exists j: nat :: ClaimsFirst(ZoneReader(), features, j, id) && RulesOf(features[j]).None?
  {
    ReadersAreCoherent();
    var reader := ZoneReader();
    IdIsAcceptedIff(reader, features, id);
    assert reader.claim(features[i]) == Some(id);
    var first := SomeoneClaimsFirst(reader, features, id);
    assert reader.build(features[first]).Some? <==> RulesOf(features[first]).Some?;
    forall j: nat | ClaimsFirst(reader, features, j, id) ensures j == first {
      FirstClaimIsUnique(reader, features, first, j, id);
    }
  }

  /** Such feeds exist: a record with an unreadable rule hides the complete record after it. */
  lemma BadRulesShadowLaterRecord()
    returns (features: seq<Feature>)
    ensures |features| == 2 && ClaimOf(features[0]) == ClaimOf(features[1]) == Some("z")
    ensures Accepted(ZoneReader(), features[1..]) != [] && Accepted(ZoneReader(), features) == []
  {
    var t := DateTime(RawDate(2024, 1, 1), RawTime(0, 0, 0, 0, Some(0)));
    var fields := ZoneFields("z", "Zone", ParkingDecision.General, 50, None, None, false, t, None, true);
    var ring := [[0.0, 0.0], [0.0, 1.0], [1.0, 1.0], [0.0, 0.0]];
    var blank := StoredWindow("", "");
    var bad := StoredRule("r", "PARK", [], blank, "UTC", "", None, [], [], []);
    assert IsRing(ring);
    var good := Feature("Feature", "Polygon", [ring], fields, []);
    var shadow := good.(rules := [bad]);
    features := [shadow, good];
    var reader := ZoneReader();
    assert ConnectorRule(bad).None?;
    assert RulesOf(shadow).None? && RulesOf(good) == Some([]);
    assert features[1..] == [good];
    assert Fate(reader, [], good) == Some(Zone(fields, [ring], []));
    assert features[..1] == [shadow];
    assert reader.claim([shadow][0]) == Some("z");
    assert IsClaimed(reader, "z", [shadow]);
    assert Fate(reader, [shadow], good).None? && Fate(reader, [], shadow).None?;
    assert Accepted(reader, [shadow]) == [];
  }

  /** The bounds that the facility table checks. */
  predicate IsInBounds(f: Facility) {
    && 0 <= f.safetyScore <= 100
    && 0.0 <= f.towingPer1000 <= 1000.0
    && (f.hourlyPriceCents.Some? ==> 0 <= f.hourlyPriceCents.value <= 1_000_000)
    && (f.rating.Some? ==> 0.0 <= f.rating.value <= 5.0)
    && (f.availableSpaces.Some? ==> 0 <= f.availableSpaces.value)
    && (f.availableSpaces.Some? && f.capacity.Some? ==> f.availableSpaces.value <= f.capacity.value)
    && -90.0 <= f.latitude <= 90.0 && -180.0 <= f.longitude <= 180.0
  }

  lemma ReadFacilityIsInBounds(row: Row)
    requires FacilityOf(row).Some?
    ensures IsInBounds(FacilityOf(row).value)
    ensures AreAwareTimestamps(FacilityOf(row).value.observedAt, FacilityOf(row).value.expiresAt)
  {
  }

  lemma AcceptedFacilitiesAreInBounds(rows: seq<Row>, f: Facility)
    requires f in Accepted(FacilityReader(), rows)
    ensures IsInBounds(f) && AreAwareTimestamps(f.observedAt, f.expiresAt)
  {
    var reader := FacilityReader();
    var k: nat :| k < |Accepted(reader, rows)| && Accepted(reader, rows)[k] == f;
    AcceptedFromTaken(reader, rows, k);
    var i := TakenAt(reader, rows)[k];
    assert reader.build(rows[i]) == Some(f);
    ReadFacilityIsInBounds(rows[i]);
  }

  // ------------------------------------------------------ what is taken over

  predicate IsText(s: string, maximum: nat) {
    1 <= |s| <= maximum
  }

  predicate IsWithin(c: Cell<real>, minimum: real, maximum: real) {
    c.Holds? && minimum <= c.value <= maximum
  }

  predicate IsCount(c: Cell<int>, maximum: int) {
    c.Holds? && 0 <= c.value <= maximum
  }

  /** A row can be read exactly when its texts have a length, its numbers are in range and its times in order. */
  lemma RowIsReadableIff(row: Row)
    ensures FacilityOf(row).Some? <==>
              && IsText(row.externalId, 160) && IsText(row.name, 160) && IsText(row.address, 500)
              && IsText(row.navigationUrl, 1000) && row.usesHttps
              && IsWithin(row.latitude, -90.0, 90.0) && IsWithin(row.longitude, -180.0, 180.0)
              && IsCount(row.safetyScore, 100) && IsWithin(row.towingPer1000, 0.0, 1000.0)
              && (row.hourlyPriceCents.Blank? || IsCount(row.hourlyPriceCents, 1_000_000))
              && (row.rating.Blank? || IsWithin(row.rating, 0.0, 5.0))
              && (row.capacity.Blank? || IsCount(row.capacity, 1_000_000))
              && (row.availableSpaces.Blank? || IsCount(row.availableSpaces, 1_000_000))
              && (row.availableSpaces.Holds? && row.capacity.Holds? ==>
                    row.availableSpaces.value <= row.capacity.value)
              && AreStamps(row.observedAt, row.expiresAt)
  {
  }

  /** Aware times, the expiry, if there is one, after the observation. */
  predicate AreStamps(observed: Cell<DateTime>, expires: Cell<DateTime>) {
    && observed.Holds? && observed.value.time.offset.Some?
    && (expires.Blank?
        || (expires.Holds? && expires.value.time.offset.Some? && Instant(observed.value) < Instant(expires.value)))
  }

  predicate SaysCell<T(==)>(o: Option<T>, c: Cell<T>) {
    (o.None? && c.Blank?) || (o.Some? && c == Holds(o.value))
  }

  /** The facility says what the row says, column by column. */
  predicate SaysRow(f: Facility, row: Row) {
    && f.externalId == row.externalId && f.name == row.name && f.address == row.address
    && Holds(f.latitude) == row.latitude && Holds(f.longitude) == row.longitude
    && SaysCell(f.hourlyPriceCents, row.hourlyPriceCents) && Holds(f.safetyScore) == row.safetyScore
    && Holds(f.towingPer1000) == row.towingPer1000 && SaysCell(f.rating, row.rating)
    && SaysCell(f.availableSpaces, row.availableSpaces) && SaysCell(f.capacity, row.capacity)
    && f.navigationUrl == row.navigationUrl
    && Holds(f.observedAt) == row.observedAt && SaysCell(f.expiresAt, row.expiresAt)
  }

  lemma FacilitySaysRow(row: Row)
    requires FacilityOf(row).Some?
    ensures SaysRow(FacilityOf(row).value, row)
  {
  }

  /** Every accepted facility says what some row of the sheet says. */
  lemma FacilitiesComeFromRows(rows: seq<Row>, f: Facility)
    requires f in Accepted(FacilityReader(), rows)
    ensures exists row :: row in rows && SaysRow(f, row)
  {
    var reader := FacilityReader();
    var k: nat :| k < |Accepted(reader, rows)| && Accepted(reader, rows)[k] == f;
    AcceptedFromTaken(reader, rows, k);
    var i := TakenAt(reader, rows)[k];
    assert reader.build(rows[i]) == Some(f);
    FacilitySaysRow(rows[i]);
  }

  /** A feature claims its id exactly when its kind, fields, rings and times are in order, whatever its rules are. */
  lemma FeatureClaimsIff(f: Feature, id: string)
    ensures ClaimOf(f) == Some(id) <==>
              && f.Feature? && f.fields.externalId == id
              && f.kind == "Feature" && f.geometryKind == "Polygon"
              && IsText(f.fields.externalId, 160) && IsText(f.fields.name, 160)
              && 0 <= f.fields.parkingScore <= 100 && |f.rules| <= 64
              && (f.fields.summary.Some? ==> |f.fields.summary.value| <= 2_000)
              && (f.fields.towingCostCents.Some? ==> 0 <= f.fields.towingCostCents.value <= 1_000_000)
              && f.rings != [] && (forall ring :: ring in f.rings ==> IsClosed(ring))
              && AreStamps(Holds(f.fields.observedAt),
                           if f.fields.expiresAt.Some? then Holds(f.fields.expiresAt.value) else Blank)
  {
  }

  /** At least four points, the last of them the first again, each a longitude and a latitude. */
  predicate IsClosed(ring: seq<seq<real>>) {
    && |ring| >= 4 && ring[0] == ring[|ring| - 1]
    && forall p :: p in ring ==> |p| == 2 && -180.0 <= p[0] <= 180.0 && -90.0 <= p[1] <= 90.0
  }

  /** Every accepted zone has the fields and the rings of some feature, and its rules as the connector reads them. */
  lemma ZonesComeFromFeatures(features: seq<Feature>, z: Zone)
    requires z in Accepted(ZoneReader(), features)
    ensures exists f :: f in features && f.Feature? && z.fields == f.fields && z.rings == f.rings
                        && ReadAll((s: StoredRule) => ConnectorRule(s), f.rules) == Some(z.rules)
  {
    var reader := ZoneReader();
    var k: nat :| k < |Accepted(reader, features)| && Accepted(reader, features)[k] == z;
    AcceptedFromTaken(reader, features, k);
    var i := TakenAt(reader, features)[k];
    assert reader.build(features[i]) == Some(z);
    assert features[i] in features;
  }
}
