/**
 * What the Doctrine event-store adapter writes and reads, as functions: the row one event
 * becomes, the table a stream is created with, and the events a query gives back. The adapter
 * class in `event_store_adapter.dfy` is proved against these.
 */
module AdapterSpec {
  import opened Wrappers
  import opened PhpValues
  import opened DbalSchema
  import opened Database
  import opened Query

  /** A domain event as the adapter sees it; `createdAt` is the already formatted timestamp. */
  datatype DomainEvent = DomainEvent(
    uuid: string,
    messageName: string,
    eventClass: string,
    version: int,
    createdAt: string,
    payload: Payload,
    metadata: map<string, MetaValue>)

  datatype Stream = Stream(streamName: string, streamEvents: seq<DomainEvent>)

  datatype AdapterError =
    | ConfigurationMissing
    | EmptyStream(streamName: string)
    | SchemaFailure(schemaError: SchemaError)
    | DbFailure(dbError: DbError)
      /** `$eventClass::fromArray` on a fetched row without an `event_class` column: the class name is null and PHP stops with an error. */
    | NoEventClass(table: string)

  /** The columns the read path does not treat as metadata. */
  const StandardColumns: seq<string> := ["event_id", "event_name", "event_class", "created_at", "payload", "version"]

  // ---------------------------------------------------------------------
  // Write path

  /** The six fixed entries of the row `insertEvent` builds. */
  function FixedColumns(e: DomainEvent, codec: PayloadCodec): (r: Row)
    ensures forall c :: c in r <==> c in StandardColumns
  {
    map[
      "event_id" := e.uuid,
      "version" := IntToString(e.version),
      "event_name" := e.messageName,
      "event_class" := e.eventClass,
      "payload" := codec.serialize(e.payload),
      "created_at" := e.createdAt
    ]
  }

  /**
   * The row `insertEvent` hands to the connection: the fixed columns, then every metadata entry
   * cast to string, a metadata key that names a fixed column replacing the fixed value.
   */
  function EventRow(e: DomainEvent, codec: PayloadCodec): (r: Row)
    ensures forall c :: c in r <==> c in StandardColumns || c in e.metadata
    ensures forall k :: k in e.metadata ==> r[k] == ToPhpString(e.metadata[k])
    ensures forall c :: c in StandardColumns && c !in e.metadata ==> r[c] == FixedColumns(e, codec)[c]
  {
    FixedColumns(e, codec) + Stringify(e.metadata)
  }

  /** One row per event, in the caller's order. */
  function EventRows(events: seq<DomainEvent>, codec: PayloadCodec): (rows: seq<Row>)
    ensures |rows| == |events|
    ensures forall i :: 0 <= i < |events| ==> rows[i] == EventRow(events[i], codec)
  {
    seq(|events|, i requires 0 <= i < |events| => EventRow(events[i], codec))
  }

  /** The six fixed columns `addToSchema` adds. */
  function FixedSchemaColumns(): (columns: map<string, Column>)
    ensures forall c :: c in columns <==> c in StandardColumns
  {
    map[
      "event_id" := Column(StringType, Some(36)),
      "version" := Column(IntegerType, None),
      "event_name" := Column(StringType, Some(100)),
      "event_class" := Column(StringType, Some(100)),
      "payload" := Column(TextType, None),
      "created_at" := Column(StringType, Some(50))
    ]
  }

  /** The fixed columns plus one string(100) column per metadata key. */
  function AdapterColumns(keys: set<string>): map<string, Column>
  {
    FixedSchemaColumns() + map k | k in keys :: Column(StringType, Some(100))
  }

  /**
   * The table of a stream has the six fixed columns with their types and one string(100) column for
   * each metadata key, and nothing else.
   */
  lemma AdapterColumnsSpec(keys: set<string>)
    ensures var columns := AdapterColumns(keys);
      && (forall c :: c in columns <==> c in StandardColumns || c in keys)
      && (forall k :: k in keys ==> columns[k] == Column(StringType, Some(100)))
      && (forall c :: c in StandardColumns && c !in keys ==> columns[c] == FixedSchemaColumns()[c])
  {
  }

  /** Adding one more metadata key adds its string(100) column. */
  lemma AdapterColumnsStep(keys: set<string>, k: string)
    ensures AdapterColumns(keys + {k}) == AdapterColumns(keys)[k := Column(StringType, Some(100))]
  {
  }

  /** The table `addToSchema` defines for the given metadata keys. */
  function AdapterTable(table: string, keys: set<string>): TableDef
  {
    TableDef(table, AdapterColumns(keys), Some(["event_id"]), map[])
  }

  /** Whether `keys` avoids every fixed column, the condition under which `addToSchema` succeeds. */
  predicate DisjointFromFixed(keys: set<string>)
  {
    forall k :: k in keys ==> k !in StandardColumns
  }

  /** `e` is the error `addToSchema` raises for a metadata key of `keys` that repeats a fixed column of `table`. */
  predicate ColumnClash(e: AdapterError, table: string, keys: set<string>)
  {
    && e.SchemaFailure? && e.schemaError.ColumnAlreadyExists?
    && e.schemaError.table == table
    && e.schemaError.column in keys && e.schemaError.column in StandardColumns
  }

  // ---------------------------------------------------------------------
  // Read path

  /** `fromArray` on the fields taken from one fetched row. */
  function ToDomainEvent(row: Row, metadata: map<string, MetaValue>, codec: PayloadCodec): DomainEvent
  {
    DomainEvent(
      Col(row, "event_id"),
      Col(row, "event_name"),
      Col(row, "event_class"),
      ParseInt(Col(row, "version")),
      Col(row, "created_at"),
      codec.unserialize(Col(row, "payload")),
      metadata)
  }

  /**
   * The metadata the read loop holds after the given rows: it starts as the filter and every
   * row's non-standard columns overwrite it in turn; it is never reset between rows.
   */
  function AccumulatedMetadata(filter: map<string, MetaValue>, rows: seq<Row>): map<string, MetaValue>
  {
    if rows == [] then filter
    else AccumulatedMetadata(filter, rows[..|rows| - 1]) + NonStandard(rows[|rows| - 1], StandardColumns)
  }

  /**
   * The accumulated metadata keeps every filter key, holds a standard column only with the
   * filter's value for it, and any other key comes from one of the rows.
   */
  lemma {:induction false} AccumulatedMetadataSpec(filter: map<string, MetaValue>, rows: seq<Row>)
    ensures var m := AccumulatedMetadata(filter, rows);
      && filter.Keys <= m.Keys
      && (forall c :: c in m && c in StandardColumns ==> c in filter && m[c] == filter[c])
      && (forall k :: k in m && k !in filter ==> exists i :: 0 <= i < |rows| && k in rows[i])
  {
    if rows != [] {
      var prefix := rows[..|rows| - 1];
      AccumulatedMetadataSpec(filter, prefix);
      assert forall i :: 0 <= i < |prefix| ==> prefix[i] == rows[i];
    }
  }

  /** The events the read loop builds from the fetched rows. */
  function RebuildEvents(filter: map<string, MetaValue>, rows: seq<Row>, codec: PayloadCodec): (events: seq<DomainEvent>)
    ensures |events| == |rows|
  {
    seq(|rows|, i requires 0 <= i < |rows| => ToDomainEvent(rows[i], AccumulatedMetadata(filter, rows[..i + 1]), codec))
  }

  /** Every fetched row names the class its event is rebuilt with. */
  predicate HasEventClass(rows: seq<Row>)
  {
    forall i :: 0 <= i < |rows| ==> "event_class" in rows[i]
  }

  /** What `loadEventsByMetadataFrom` returns for the rows of a table. */
  function LoadEvents(rows: seq<Row>, filter: map<string, MetaValue>, minVersion: Option<int>, codec: PayloadCodec): seq<DomainEvent>
  {
    RebuildEvents(filter, Select(rows, filter, minVersion), codec)
  }

  /**
   * `loadEventsByMetadataFrom` against a database: the statement fails when the table or a
   * column it names (every filter key and `version`) is missing, and the read loop fails on a
   * fetched row without an `event_class` column.
   */
  function LoadFrom(db: Db, table: string, filter: map<string, MetaValue>, minVersion: Option<int>, codec: PayloadCodec)
    : (r: Result<seq<DomainEvent>, AdapterError>)
    ensures r.Success? <==>
      table in db && filter.Keys + {"version"} <= db[table].columns && HasEventClass(Select(db[table].rows, filter, minVersion))
    ensures table !in db ==> r == Failure(DbFailure(NoSuchTable(table)))
    ensures table in db && filter.Keys + {"version"} <= db[table].columns && !HasEventClass(Select(db[table].rows, filter, minVersion))
      ==> r == Failure(NoEventClass(table))
  {
    match SelectError(db, table, filter.Keys + {"version"})
    case Some(e) => Failure(DbFailure(e))
    case None =>
      if HasEventClass(Select(db[table].rows, filter, minVersion)) then Success(LoadEvents(db[table].rows, filter, minVersion, codec))
      else Failure(NoEventClass(table))
  }

  /**
   * Over a table whose rows all carry the table's columns and which has the columns the
   * statement names, loading fails exactly when the table has no `event_class` column and
   * some row is selected.
   */
  lemma LoadNeedsEventClass(db: Db, table: string, filter: map<string, MetaValue>, minVersion: Option<int>, codec: PayloadCodec)
    requires WellFormed(db) && table in db && filter.Keys + {"version"} <= db[table].columns
    ensures var fetched := Select(db[table].rows, filter, minVersion);
      LoadFrom(db, table, filter, minVersion, codec).Failure? <==> "event_class" !in db[table].columns && |fetched| > 0
  {
    var fetched := Select(db[table].rows, filter, minVersion);
    SelectMembers(db[table].rows, filter, minVersion);
    assert forall j :: 0 <= j < |fetched| ==> fetched[j].Keys == db[table].columns;
    if "event_class" !in db[table].columns && |fetched| > 0 {
      assert "event_class" !in fetched[0];
    }
  }

  /** An event as it reads back: every metadata value comes back as its string form. */
  function AsLoaded(e: DomainEvent): DomainEvent
  {
    e.(metadata := map k | k in e.metadata :: MStr(ToPhpString(e.metadata[k])))
  }

  // ---------------------------------------------------------------------
  // Lemmas

  /** A row of a table whose rows all have the same columns: only the latest row's columns matter. */
  lemma {:induction false} AccumulatedUniform(filter: map<string, MetaValue>, rows: seq<Row>, columns: set<string>)
    requires |rows| > 0
    requires forall i :: 0 <= i < |rows| ==> rows[i].Keys == columns
    ensures AccumulatedMetadata(filter, rows) == filter + NonStandard(rows[|rows| - 1], StandardColumns)
  {
    var prefix := rows[..|rows| - 1];
    if |prefix| > 0 {
      assert forall i :: 0 <= i < |prefix| ==> prefix[i] == rows[i];
      AccumulatedUniform(filter, prefix, columns);
      var a, b := NonStandard(prefix[|prefix| - 1], StandardColumns), NonStandard(rows[|rows| - 1], StandardColumns);
      assert a.Keys == b.Keys;
      assert filter + a + b == filter + b;
    }
  }

  lemma RebuildEventsAt(filter: map<string, MetaValue>, rows: seq<Row>, codec: PayloadCodec, i: nat)
    requires i < |rows|
    ensures RebuildEvents(filter, rows, codec)[i] == ToDomainEvent(rows[i], AccumulatedMetadata(filter, rows[..i + 1]), codec)
  {
  }

  /** One more fetched row: its non-standard columns overwrite the metadata. */
  lemma AccumulatedStep(filter: map<string, MetaValue>, rows: seq<Row>, i: nat)
    requires i < |rows|
    ensures AccumulatedMetadata(filter, rows[..i + 1]) == AccumulatedMetadata(filter, rows[..i]) + NonStandard(rows[i], StandardColumns)
  {
    assert rows[..i + 1][..i] == rows[..i];
  }

  /** One more fetched row: its event is appended to the ones already built. */
  lemma RebuildEventsStep(filter: map<string, MetaValue>, rows: seq<Row>, codec: PayloadCodec, i: nat)
    requires i < |rows|
    ensures RebuildEvents(filter, rows[..i + 1], codec)
         == RebuildEvents(filter, rows[..i], codec) + [ToDomainEvent(rows[i], AccumulatedMetadata(filter, rows[..i + 1]), codec)]
  {
    var longer, shorter := RebuildEvents(filter, rows[..i + 1], codec), RebuildEvents(filter, rows[..i], codec);
    var next := ToDomainEvent(rows[i], AccumulatedMetadata(filter, rows[..i + 1]), codec);
    assert longer[i] == next by {
      RebuildEventsAt(filter, rows[..i + 1], codec, i);
      assert rows[..i + 1][..i + 1] == rows[..i + 1];
    }
    forall j | 0 <= j < i
      ensures longer[j] == shorter[j]
    {
      RebuildEventsAt(filter, rows[..i + 1], codec, j);
      RebuildEventsAt(filter, rows[..i], codec, j);
      assert rows[..i + 1][..j + 1] == rows[..j + 1] == rows[..i][..j + 1];
      assert rows[..i + 1][j] == rows[j] == rows[..i][j];
    }
    assert longer == shorter + [next];
  }

  /** The loaded events come in ascending version order and respect the minimum version. */
  lemma LoadedVersions(rows: seq<Row>, filter: map<string, MetaValue>, minVersion: Option<int>, codec: PayloadCodec)
    ensures var events := LoadEvents(rows, filter, minVersion, codec);
      (forall i, j :: 0 <= i < j < |events| ==> events[i].version <= events[j].version) &&
      (minVersion.Some? ==> forall i :: 0 <= i < |events| ==> events[i].version >= minVersion.value)
  {
    var fetched := Select(rows, filter, minVersion);
    var events := LoadEvents(rows, filter, minVersion, codec);
    SelectMembers(rows, filter, minVersion);
    forall i | 0 <= i < |events|
      ensures events[i].version == RowVersion(fetched[i])
    {
      RebuildEventsAt(filter, fetched, codec, i);
    }
  }

  /**
   * Every loaded event comes from a row of the table that matches the filter and the minimum
   * version and carries that row's fields; as many events are loaded as such rows exist.
   */
  lemma LoadedEventsMatch(rows: seq<Row>, filter: map<string, MetaValue>, minVersion: Option<int>, codec: PayloadCodec)
    ensures var events, fetched := LoadEvents(rows, filter, minVersion, codec), Select(rows, filter, minVersion);
      |events| == |fetched| &&
      (forall x :: multiset(fetched)[x] == if Matches(x, filter, minVersion) then multiset(rows)[x] else 0) &&
      (forall i :: 0 <= i < |events| ==>
        fetched[i] in rows && Matches(fetched[i], filter, minVersion) &&
        events[i].uuid == Col(fetched[i], "event_id") && events[i].messageName == Col(fetched[i], "event_name") &&
        events[i].eventClass == Col(fetched[i], "event_class") && events[i].version == RowVersion(fetched[i]) &&
        events[i].createdAt == Col(fetched[i], "created_at") &&
        events[i].payload == codec.unserialize(Col(fetched[i], "payload")))
  {
    var fetched := Select(rows, filter, minVersion);
    SelectCounts(rows, filter, minVersion);
    SelectMembers(rows, filter, minVersion);
    forall i | 0 <= i < |fetched|
    {
      RebuildEventsAt(filter, fetched, codec, i);
    }
  }

  /** In a run of rows that all have the same columns, the metadata after row `i` is the filter overridden by row `i`. */
  lemma AccumulatedAt(filter: map<string, MetaValue>, rows: seq<Row>, columns: set<string>, i: nat)
    requires i < |rows|
    requires forall j :: 0 <= j < |rows| ==> rows[j].Keys == columns
    ensures AccumulatedMetadata(filter, rows[..i + 1]) == filter + NonStandard(rows[i], StandardColumns)
  {
    var upTo := rows[..i + 1];
    assert forall j :: 0 <= j < |upTo| ==> upTo[j] == rows[j];
    AccumulatedUniform(filter, upTo, columns);
  }

  /** Overriding the filter with a row's non-standard columns leaves the standard columns to the filter. */
  lemma OverrideKeepsStandard(filter: map<string, MetaValue>, row: Row)
    ensures var m := filter + NonStandard(row, StandardColumns);
      forall c :: c in m && c in StandardColumns ==> c in filter && m[c] == filter[c]
  {
  }

  /** The metadata of the `i`-th loaded event, over a table whose rows all carry the table's columns. */
  lemma LoadedMetadataAt(db: Db, table: string, filter: map<string, MetaValue>, minVersion: Option<int>, codec: PayloadCodec, i: nat)
    requires WellFormed(db) && table in db
    requires i < |Select(db[table].rows, filter, minVersion)|
    ensures LoadEvents(db[table].rows, filter, minVersion, codec)[i].metadata
         == filter + NonStandard(Select(db[table].rows, filter, minVersion)[i], StandardColumns)
  {
    var rows := db[table].rows;
    var fetched := Select(rows, filter, minVersion);
    SelectMembers(rows, filter, minVersion);
    assert forall j :: 0 <= j < |fetched| ==> fetched[j].Keys == db[table].columns;
    AccumulatedAt(filter, fetched, db[table].columns, i);
    RebuildEventsAt(filter, fetched, codec, i);
  }

  /**
   * Over a table whose rows all carry the table's columns, each loaded event's metadata is the
   * filter overridden by its own row's non-standard columns, and a standard column is in it only
   * when the filter names it.
   */
  lemma LoadedMetadata(db: Db, table: string, filter: map<string, MetaValue>, minVersion: Option<int>, codec: PayloadCodec)
    requires WellFormed(db) && table in db
    ensures var events, fetched := LoadEvents(db[table].rows, filter, minVersion, codec), Select(db[table].rows, filter, minVersion);
      forall i :: 0 <= i < |events| ==>
        events[i].metadata == filter + NonStandard(fetched[i], StandardColumns) &&
        (forall c :: c in events[i].metadata && c in StandardColumns ==> c in filter && events[i].metadata[c] == filter[c])
  {
    var fetched := Select(db[table].rows, filter, minVersion);
    forall i | 0 <= i < |fetched|
      ensures var m := LoadEvents(db[table].rows, filter, minVersion, codec)[i].metadata;
        m == filter + NonStandard(fetched[i], StandardColumns) &&
        (forall c :: c in m && c in StandardColumns ==> c in filter && m[c] == filter[c])
    {
      LoadedMetadataAt(db, table, filter, minVersion, codec, i);
      OverrideKeepsStandard(filter, fetched[i]);
    }
  }

  /** A table created for metadata keys `keys` accepts the row of every event with those keys. */
  lemma EventRowFitsTable(db: Db, table: string, keys: set<string>, e: DomainEvent, codec: PayloadCodec)
    requires table !in db && e.metadata.Keys == keys
    ensures Accepts(CreateTableIn(db, AdapterTable(table, keys)).value, table, EventRow(e, codec))
  {
    assert EventRow(e, codec).Keys == AdapterColumns(keys).Keys;
  }

  /** Away from its metadata keys, an event's row stores its fixed fields as they read back. */
  lemma EventRowReadsBack(e: DomainEvent, codec: PayloadCodec)
    requires DisjointFromFixed(e.metadata.Keys)
    requires RoundTrips(codec)
    ensures var row := EventRow(e, codec);
      RowVersion(row) == e.version &&
      ToDomainEvent(row, NonStandard(row, StandardColumns), codec) == AsLoaded(e)
  {
    var row := EventRow(e, codec);
    EventRowVersion(e, codec);
    EventRowFields(e, codec);
    EventRowMetadata(e, codec);
  }

  /** With no metadata key naming a fixed column, the fixed columns hold the event's fields. */
  lemma EventRowFields(e: DomainEvent, codec: PayloadCodec)
    requires DisjointFromFixed(e.metadata.Keys)
    requires RoundTrips(codec)
    ensures var row := EventRow(e, codec);
      && Col(row, "event_id") == e.uuid && Col(row, "event_name") == e.messageName
      && Col(row, "event_class") == e.eventClass && Col(row, "created_at") == e.createdAt
      && codec.unserialize(Col(row, "payload")) == e.payload
  {
    EventRowFixedAt(e, codec, "event_id");
    EventRowFixedAt(e, codec, "event_name");
    EventRowFixedAt(e, codec, "event_class");
    EventRowFixedAt(e, codec, "created_at");
    EventRowFixedAt(e, codec, "payload");
  }

  /** A fixed column that no metadata key names keeps its fixed value. */
  lemma EventRowFixedAt(e: DomainEvent, codec: PayloadCodec, c: string)
    requires c in StandardColumns && DisjointFromFixed(e.metadata.Keys)
    ensures Col(EventRow(e, codec), c) == FixedColumns(e, codec)[c]
  {
  }

  /** With no metadata key naming a fixed column, the columns read back as metadata are the event's metadata as strings. */
  lemma EventRowMetadata(e: DomainEvent, codec: PayloadCodec)
    requires DisjointFromFixed(e.metadata.Keys)
    ensures NonStandard(EventRow(e, codec), StandardColumns) == AsLoaded(e).metadata
  {
    var row, back, loaded := EventRow(e, codec), NonStandard(EventRow(e, codec), StandardColumns), AsLoaded(e).metadata;
    assert back.Keys == loaded.Keys;
    forall k | k in back
      ensures back[k] == loaded[k]
    {
      assert row[k] == ToPhpString(e.metadata[k]);
    }
  }

  /** The version column holds the event's version as text that reads back as the same integer. */
  lemma EventRowVersion(e: DomainEvent, codec: PayloadCodec)
    requires "version" !in e.metadata
    ensures RowVersion(EventRow(e, codec)) == e.version
  {
    assert EventRow(e, codec)["version"] == IntToString(e.version);
  }

  /** The events of a stream as they read back. */
  function AllAsLoaded(events: seq<DomainEvent>): (r: seq<DomainEvent>)
    ensures |r| == |events|
  {
    seq(|events|, i requires 0 <= i < |events| => AsLoaded(events[i]))
  }

  /** Creating the table for the stream's metadata keys and appending the events commits every row, in order. */
  lemma CreatedStreamHoldsRows(db: Db, table: string, keys: set<string>, events: seq<DomainEvent>, codec: PayloadCodec)
    requires table !in db
    requires forall i :: 0 <= i < |events| ==> events[i].metadata.Keys == keys
    ensures var created := CreateTableIn(db, AdapterTable(table, keys));
      created.Success? &&
      var applied := InsertAll(created.value, table, EventRows(events, codec));
      applied.outcome == Pass && table in applied.db && applied.db[table].rows == EventRows(events, codec)
  {
    var created := CreateTableIn(db, AdapterTable(table, keys)).value;
    var rows := EventRows(events, codec);
    forall i | 0 <= i < |rows|
      ensures Accepts(created, table, rows[i])
    {
      EventRowFitsTable(db, table, keys, events[i], codec);
    }
    InsertAllAccepted(created, table, rows);
    assert created[table].rows + rows == rows;
  }

  /** Without a filter, the rows of events in version order are selected as they are. */
  lemma SelectEventRows(events: seq<DomainEvent>, codec: PayloadCodec)
    requires forall i :: 0 <= i < |events| ==> "version" !in events[i].metadata
    requires forall i, j :: 0 <= i < j < |events| ==> events[i].version <= events[j].version
    ensures Select(EventRows(events, codec), map[], None) == EventRows(events, codec)
  {
    var rows := EventRows(events, codec);
    forall i | 0 <= i < |rows|
      ensures RowVersion(rows[i]) == events[i].version
    {
      EventRowVersion(events[i], codec);
    }
    assert SortedBy(RowVersion, rows);
    WhereWithoutFilter(rows);
    OrderByOfSorted(RowVersion, rows);
  }

  /**
   * Loading the whole stream from the rows of events that share one set of metadata keys and
   * come in version order gives the events back, their metadata values as strings.
   */
  lemma EventRowsLoadBack(keys: set<string>, events: seq<DomainEvent>, codec: PayloadCodec)
    requires DisjointFromFixed(keys)
    requires forall i :: 0 <= i < |events| ==> events[i].metadata.Keys == keys
    requires forall i, j :: 0 <= i < j < |events| ==> events[i].version <= events[j].version
    requires RoundTrips(codec)
    ensures LoadEvents(EventRows(events, codec), map[], None, codec) == AllAsLoaded(events)
  {
    var rows := EventRows(events, codec);
    assert forall i :: 0 <= i < |events| ==> "version" !in events[i].metadata by {
      assert "version" in StandardColumns;
    }
    SelectEventRows(events, codec);
    var columns := AdapterColumns(keys).Keys;
    assert forall j :: 0 <= j < |rows| ==> rows[j].Keys == columns;
    forall i | 0 <= i < |rows|
      ensures LoadEvents(rows, map[], None, codec)[i] == AllAsLoaded(events)[i]
    {
      EventRowReadsBack(events[i], codec);
      AccumulatedAt(map[], rows, columns, i);
      EmptyOverride(NonStandard(rows[i], StandardColumns));
      RebuildEventsAt(map[], rows, codec, i);
    }
  }

  /**
   * Creating the table for a stream whose events share one set of metadata keys and come in
   * version order, appending the events and loading the whole stream gives the events back,
   * their metadata values as strings.
   */
  lemma CreatedStreamLoadsBack(db: Db, table: string, keys: set<string>, events: seq<DomainEvent>, codec: PayloadCodec)
    requires table !in db
    requires DisjointFromFixed(keys)
    requires forall i :: 0 <= i < |events| ==> events[i].metadata.Keys == keys
    requires forall i, j :: 0 <= i < j < |events| ==> events[i].version <= events[j].version
    requires RoundTrips(codec)
    ensures var created := CreateTableIn(db, AdapterTable(table, keys));
      created.Success? &&
      var applied := InsertAll(created.value, table, EventRows(events, codec));
      applied.outcome == Pass && table in applied.db &&
      LoadFrom(applied.db, table, map[], None, codec) == Success(AllAsLoaded(events))
  {
    CreatedStreamHoldsRows(db, table, keys, events, codec);
    EventRowsLoadBack(keys, events, codec);
    var created := CreateTableIn(db, AdapterTable(table, keys)).value;
    var rows := EventRows(events, codec);
    InsertAllAccepted(created, table, rows);
    var after := InsertAll(created, table, rows).db;
    assert after[table].columns == AdapterColumns(keys).Keys;
    assert "version" in AdapterColumns(keys);
    var noFilter: map<string, MetaValue> := map[];
    assert SelectError(after, table, noFilter.Keys + {"version"}) == None;
    assert "event_class" in AdapterColumns(keys);
    SelectMembers(after[table].rows, noFilter, None);
    forall j | 0 <= j < |rows|
      ensures "event_class" in rows[j]
    {
      EventRowFitsTable(db, table, keys, events[j], codec);
    }
  }
}
