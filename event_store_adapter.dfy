/**
 * The adapter itself: it resolves a stream's table, creates that table from the first event's
 * metadata keys, writes one row per event and reads events back through a filtered, version
 * ordered query. Every method is proved against the functions of `AdapterSpec`.
 */
module EventStoreAdapter {
  import opened Wrappers
  import opened PhpValues
  import opened DbalSchema
  import opened Database
  import opened TableResolver
  import opened AdapterSpec

  /** The configuration array: `connection` is required, the other two entries are optional. */
  datatype Configuration = Configuration(
    connection: Option<Connection>,
    streamTableMap: Option<map<string, string>>,
    serializerAdapter: Option<PayloadCodec>)

  /** A database outcome as the adapter reports it. */
  function Lift(o: Outcome<DbError>): (r: Outcome<AdapterError>)
    ensures r.Pass? <==> o.Pass?
    ensures o.Fail? ==> r == Fail(DbFailure(o.error))
  {
    if o.Pass? then Pass else Fail(DbFailure(o.error))
  }

  class DoctrineEventStoreAdapter {
    const connection: Connection
    const streamTableMap: map<string, string>
    const codec: PayloadCodec

    constructor (connection: Connection, streamTableMap: map<string, string>, codec: PayloadCodec)
      ensures this.connection == connection && this.streamTableMap == streamTableMap && this.codec == codec
    {
      this.connection := connection;
      this.streamTableMap := streamTableMap;
      this.codec := codec;
    }

    /**
     * The array-taking constructor: a missing connection is a configuration error; the table map
     * defaults to empty and the serializer to the serializer library's default adapter.
     */
    static method FromConfiguration(configuration: Configuration, defaultSerializer: PayloadCodec)
      returns (r: Result<DoctrineEventStoreAdapter, AdapterError>)
      ensures r.Failure? <==> configuration.connection.None?
      ensures r.Failure? ==> r.error == ConfigurationMissing
      ensures r.Success? ==>
        && r.value.connection == configuration.connection.value
        && r.value.streamTableMap == configuration.streamTableMap.GetOr(map[])
        && r.value.codec == configuration.serializerAdapter.GetOr(defaultSerializer)
    {
      if configuration.connection.None? {
        return Failure(ConfigurationMissing);
      }
      var adapter := new DoctrineEventStoreAdapter(
        configuration.connection.value,
        configuration.streamTableMap.GetOr(map[]),
        configuration.serializerAdapter.GetOr(defaultSerializer));
      r := Success(adapter);
    }

    /** `create`: an empty stream is refused; otherwise the table is created and every event appended. */
    method Create(stream: Stream) returns (o: Outcome<AdapterError>)
      requires connection.Valid()
      modifies connection
      ensures connection.Valid()
      ensures |stream.streamEvents| == 0 ==>
        o == Fail(EmptyStream(stream.streamName)) && connection.tables == old(connection.tables)
      ensures |stream.streamEvents| > 0 ==>
        var table, keys := GetTable(streamTableMap, stream.streamName), stream.streamEvents[0].metadata.Keys;
        && (table == "" ==>
              o == Fail(SchemaFailure(InvalidTableName(table))) && connection.tables == old(connection.tables))
        && (table != "" && !DisjointFromFixed(keys) ==>
              o.Fail? && ColumnClash(o.error, table, keys) && connection.tables == old(connection.tables))
        && (table != "" && DisjointFromFixed(keys) && table in old(connection.tables) ==>
              o == Fail(DbFailure(TableExists(table))) && connection.tables == old(connection.tables))
        && (table != "" && DisjointFromFixed(keys) && table !in old(connection.tables) ==>
              var applied := InsertAll(CreateTableIn(old(connection.tables), AdapterTable(table, keys)).value, table,
                                       EventRows(stream.streamEvents, codec));
              connection.tables == applied.db && o == Lift(applied.outcome))
    {
      if |stream.streamEvents| == 0 {
        return Fail(EmptyStream(stream.streamName));
      }
      var firstEvent := stream.streamEvents[0];
      var created := CreateSchemaFor(stream.streamName, firstEvent.metadata, false);
      if created.Failure? {
        return Fail(created.error);
      }
      o := AppendTo(stream.streamName, stream.streamEvents);
    }

    /** `appendTo`: one insert per event, into the stream's table, in order; the first failure stops the run. */
    method AppendTo(streamName: string, streamEvents: seq<DomainEvent>) returns (o: Outcome<AdapterError>)
      requires connection.Valid()
      modifies connection
      ensures connection.Valid()
      ensures var applied := InsertAll(old(connection.tables), GetTable(streamTableMap, streamName), EventRows(streamEvents, codec));
        connection.tables == applied.db && o == Lift(applied.outcome)
    {
      ghost var table := GetTable(streamTableMap, streamName);
      ghost var rows := EventRows(streamEvents, codec);
      var i := 0;
      while i < |streamEvents|
        invariant 0 <= i <= |streamEvents|
        invariant InsertAll(old(connection.tables), table, rows) == InsertAll(connection.tables, table, rows[i..])
        invariant connection.Valid()
      {
        o := InsertEvent(streamName, streamEvents[i]);
        if o.Fail? {
          return;
        }
        assert rows[i..][1..] == rows[i + 1..];
        i := i + 1;
      }
      o := Pass;
    }

    /** The row array `insertEvent` builds, entry by entry. */
    method BuildEventData(e: DomainEvent) returns (eventData: Row)
      ensures eventData == EventRow(e, codec)
    {
      eventData := FixedColumns(e, codec);
      var pending := e.metadata.Keys;
      ghost var done: set<string> := {};
      while pending != {}
        invariant done + pending == e.metadata.Keys
        invariant eventData == FixedColumns(e, codec) + StringifyOn(e.metadata, done)
        decreases pending
      {
        var k :| k in pending;
        eventData := eventData[k := ToPhpString(e.metadata[k])];
        StringifyOnStep(e.metadata, done, k);
        OverrideUpdate(FixedColumns(e, codec), StringifyOn(e.metadata, done), k, ToPhpString(e.metadata[k]));
        done, pending := done + {k}, pending - {k};
      }
      StringifyOnAll(e.metadata);
    }

    /** `insertEvent`: one insert of the event's row into the stream's table. */
    method InsertEvent(streamName: string, e: DomainEvent) returns (o: Outcome<AdapterError>)
      requires connection.Valid()
      modifies connection
      ensures connection.Valid()
      ensures var r := InsertInto(old(connection.tables), GetTable(streamTableMap, streamName), EventRow(e, codec));
        && (r.Success? ==> o == Pass && connection.tables == r.value)
        && (r.Failure? ==> o == Fail(DbFailure(r.error)) && connection.tables == old(connection.tables))
    {
      var eventData := BuildEventData(e);
      var inserted := connection.Insert(GetTable(streamTableMap, streamName), eventData);
      o := Lift(inserted);
    }

    /**
     * `createSchemaFor`: defines the stream's table in a fresh schema, then either hands the
     * definition back (standing for the generated SQL) or executes it.
     */
    method CreateSchemaFor(streamName: string, metadata: map<string, MetaValue>, returnSql: bool := false)
      returns (r: Result<Option<TableDef>, AdapterError>)
      requires connection.Valid()
      modifies connection
      ensures connection.Valid()
      ensures var table := GetTable(streamTableMap, streamName);
        && (table == "" ==>
              r == Failure(SchemaFailure(InvalidTableName(table))) && connection.tables == old(connection.tables))
        && (table != "" && !DisjointFromFixed(metadata.Keys) ==>
              r.Failure? && ColumnClash(r.error, table, metadata.Keys) && connection.tables == old(connection.tables))
        && (table != "" && DisjointFromFixed(metadata.Keys) && returnSql ==>
              r == Success(Some(AdapterTable(table, metadata.Keys))) && connection.tables == old(connection.tables))
        && (table != "" && DisjointFromFixed(metadata.Keys) && !returnSql && table in old(connection.tables) ==>
              r == Failure(DbFailure(TableExists(table))) && connection.tables == old(connection.tables))
        && (table != "" && DisjointFromFixed(metadata.Keys) && !returnSql && table !in old(connection.tables) ==>
              r == Success(None) && connection.tables == CreateTableIn(old(connection.tables), AdapterTable(table, metadata.Keys)).value)
    {
      var schema := new Schema();
      var table := GetTable(streamTableMap, streamName);
      var added := AddToSchema(schema, table, metadata);
      if added.Fail? {
        return Failure(SchemaFailure(added.error));
      }
      var definition := schema.tables[table];
      if returnSql {
        return Success(Some(definition));
      }
      var executed := connection.ExecuteCreateTable(definition);
      if executed.Fail? {
        return Failure(DbFailure(executed.error));
      }
      r := Success(None);
    }

    /** The six fixed columns, in the order `addToSchema` adds them. */
    static method AddFixedColumns(schema: Schema, table: string)
      requires table in schema.tables && schema.tables[table] == EmptyTable(table)
      modifies schema
      ensures schema.tables == old(schema.tables)[table := EmptyTable(table).(columns := FixedSchemaColumns())]
    {
      ghost var before := schema.tables;
      ghost var current := EmptyTable(table);
      var o;
      assert schema.tables == before[table := current];
      o := AddColumnTo(schema, table, "event_id", StringType, Some(36), before, current);
      current := current.(columns := current.columns["event_id" := Column(StringType, Some(36))]);
      o := AddColumnTo(schema, table, "version", IntegerType, None, before, current);
      current := current.(columns := current.columns["version" := Column(IntegerType, None)]);
      o := AddColumnTo(schema, table, "event_name", StringType, Some(100), before, current);
      current := current.(columns := current.columns["event_name" := Column(StringType, Some(100))]);
      o := AddColumnTo(schema, table, "event_class", StringType, Some(100), before, current);
      current := current.(columns := current.columns["event_class" := Column(StringType, Some(100))]);
      o := AddColumnTo(schema, table, "payload", TextType, None, before, current);
      current := current.(columns := current.columns["payload" := Column(TextType, None)]);
      o := AddColumnTo(schema, table, "created_at", StringType, Some(50), before, current);
      current := current.(columns := current.columns["created_at" := Column(StringType, Some(50))]);
      assert current.columns == FixedSchemaColumns();
    }

    /** One string(100) column per metadata key; the first key that repeats a fixed column stops the run. */
    static method AddMetadataColumns(schema: Schema, table: string, metadata: map<string, MetaValue>) returns (o: Outcome<SchemaError>)
      requires table in schema.tables && schema.tables[table] == EmptyTable(table).(columns := FixedSchemaColumns())
      modifies schema
      ensures DisjointFromFixed(metadata.Keys) ==>
        o == Pass && schema.tables == old(schema.tables)[table := EmptyTable(table).(columns := AdapterColumns(metadata.Keys))]
      ensures !DisjointFromFixed(metadata.Keys) ==>
        && o.Fail? && o.error.ColumnAlreadyExists? && o.error.table == table
        && o.error.column in metadata && o.error.column in StandardColumns
        && table in schema.tables && schema.tables - {table} == old(schema.tables) - {table}
    {
      o := Pass;
      var pending := metadata.Keys;
      ghost var done: set<string> := {};
      assert AdapterColumns(done) == FixedSchemaColumns();
      while pending != {}
        invariant done + pending == metadata.Keys && done !! pending && o == Pass
        invariant DisjointFromFixed(done)
        invariant schema.tables == old(schema.tables)[table := EmptyTable(table).(columns := AdapterColumns(done))]
        decreases pending
      {
        var k :| k in pending;
        o := AddColumnTo(schema, table, k, StringType, Some(100), old(schema.tables), EmptyTable(table).(columns := AdapterColumns(done)));
        if o.Fail? {
          assert k in FixedSchemaColumns();
          return;
        }
        AdapterColumnsStep(done, k);
        done, pending := done + {k}, pending - {k};
      }
    }

    /**
     * `addToSchema`: a new table with the fixed columns, one string(100) column per metadata key
     * and primary key `event_id`. A key that repeats a fixed column makes the schema refuse it.
     */
    static method AddToSchema(schema: Schema, table: string, metadata: map<string, MetaValue>) returns (o: Outcome<SchemaError>)
      modifies schema
      ensures table == "" ==> o == Fail(InvalidTableName(table)) && schema.tables == old(schema.tables)
      ensures table != "" && table in old(schema.tables) ==>
        o == Fail(TableAlreadyExists(table)) && schema.tables == old(schema.tables)
      ensures table != "" && table !in old(schema.tables) && DisjointFromFixed(metadata.Keys) ==>
        o == Pass && schema.tables == old(schema.tables)[table := AdapterTable(table, metadata.Keys)]
      ensures table != "" && table !in old(schema.tables) && !DisjointFromFixed(metadata.Keys) ==>
        && o.Fail? && o.error.ColumnAlreadyExists? && o.error.table == table
        && o.error.column in metadata && o.error.column in StandardColumns
        && table in schema.tables && schema.tables - {table} == old(schema.tables)
    {
      ghost var start := schema.tables;
      o := schema.CreateTable(table);
      if o.Fail? {
        return;
      }
      o := DefineColumns(schema, table, metadata);
      assert start[table := EmptyTable(table)] - {table} == start - {table} == start;
    }

    /** The columns and the primary key `addToSchema` gives the table it has just created. */
    static method DefineColumns(schema: Schema, table: string, metadata: map<string, MetaValue>) returns (o: Outcome<SchemaError>)
      requires table in schema.tables && schema.tables[table] == EmptyTable(table)
      modifies schema
      ensures DisjointFromFixed(metadata.Keys) ==>
        o == Pass && schema.tables == old(schema.tables)[table := AdapterTable(table, metadata.Keys)]
      ensures !DisjointFromFixed(metadata.Keys) ==>
        && o.Fail? && o.error.ColumnAlreadyExists? && o.error.table == table
        && o.error.column in metadata && o.error.column in StandardColumns
        && table in schema.tables && schema.tables - {table} == old(schema.tables) - {table}
    {
      ghost var start := schema.tables;
      AddFixedColumns(schema, table);
      ghost var fixed := schema.tables;
      o := AddMetadataColumns(schema, table, metadata);
      if o.Fail? {
        assert fixed - {table} == start - {table};
        return;
      }
      ghost var columns := AdapterColumns(metadata.Keys);
      assert schema.tables == start[table := EmptyTable(table).(columns := columns)];
      schema.SetPrimaryKey(table, ["event_id"]);
      assert EmptyTable(table).(columns := columns).(primaryKey := Some(["event_id"])) == AdapterTable(table, metadata.Keys);
    }

    /**
     * `loadEventsByMetadataFrom`: the rows of the stream's table that match every filter entry
     * (and reach `minVersion` when one is given), by version, each rebuilt into an event.
     */
    method LoadEventsByMetadataFrom(streamName: string, metadata: map<string, MetaValue>, minVersion: Option<int> := None)
      returns (r: Result<seq<DomainEvent>, AdapterError>)
      ensures r == LoadFrom(connection.tables, GetTable(streamTableMap, streamName), metadata, minVersion, codec)
    {
      var table := GetTable(streamTableMap, streamName);
      var failure := SelectError(connection.tables, table, metadata.Keys + {"version"});
      if failure.Some? {
        return Failure(DbFailure(failure.value));
      }
      var fetched := Query.Select(connection.tables[table].rows, metadata, minVersion);
      var merged := metadata;
      var events: seq<DomainEvent> := [];
      var i := 0;
      while i < |fetched|
        invariant 0 <= i <= |fetched|
        invariant merged == AccumulatedMetadata(metadata, fetched[..i])
        invariant events == RebuildEvents(metadata, fetched[..i], codec)
        invariant forall j :: 0 <= j < i ==> "event_class" in fetched[j]
      {
        var eventData := fetched[i];
        if "event_class" !in eventData {
          return Failure(NoEventClass(table));
        }
        assert forall j :: 0 <= j < i + 1 ==> "event_class" in fetched[j];
        merged := MergeRowMetadata(merged, eventData, StandardColumns);
        AccumulatedStep(metadata, fetched, i);
        RebuildEventsStep(metadata, fetched, codec, i);
        events := events + [ToDomainEvent(eventData, merged, codec)];
        i := i + 1;
      }
      assert fetched[..i] == fetched;
      assert HasEventClass(fetched);
      r := Success(events);
    }

    /** `load`: the whole stream from `minVersion` on, without a metadata filter. */
    method Load(streamName: string, minVersion: Option<int> := None) returns (r: Result<Stream, AdapterError>)
      ensures var loaded := LoadFrom(connection.tables, GetTable(streamTableMap, streamName), map[], minVersion, codec);
        && (r.Success? <==> loaded.Success?)
        && (loaded.Success? ==> r.value == Stream(streamName, loaded.value))
        && (loaded.Failure? ==> r.error == loaded.error)
    {
      var events := LoadEventsByMetadataFrom(streamName, map[], minVersion);
      if events.Failure? {
        return Failure(events.error);
      }
      r := Success(Stream(streamName, events.value));
    }

    /**
     * Creating a stream whose events share one set of metadata keys, avoid the fixed columns
     * and come in version order, then loading it, gives the events back with their metadata
     * values as strings.
     */
    method CreateThenLoad(stream: Stream) returns (created: Outcome<AdapterError>, loaded: Result<Stream, AdapterError>)
      requires |stream.streamEvents| > 0
      requires GetTable(streamTableMap, stream.streamName) != "" && GetTable(streamTableMap, stream.streamName) !in connection.tables
      requires DisjointFromFixed(stream.streamEvents[0].metadata.Keys)
      requires forall i :: 0 <= i < |stream.streamEvents| ==> stream.streamEvents[i].metadata.Keys == stream.streamEvents[0].metadata.Keys
      requires forall i, j :: 0 <= i < j < |stream.streamEvents| ==> stream.streamEvents[i].version <= stream.streamEvents[j].version
      requires RoundTrips(codec)
      requires connection.Valid()
      modifies connection
      ensures connection.Valid()
      ensures created == Pass
      ensures loaded == Success(Stream(stream.streamName, AllAsLoaded(stream.streamEvents)))
    {
      CreatedStreamLoadsBack(connection.tables, GetTable(streamTableMap, stream.streamName),
                             stream.streamEvents[0].metadata.Keys, stream.streamEvents, codec);
      created := Create(stream);
      loaded := Load(stream.streamName);
    }
  }
}
