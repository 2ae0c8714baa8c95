/**
 * The two table layouts of the event store: one table for a single stream of every aggregate,
 * or one table per aggregate type. Both carry the same columns and primary key; they differ in
 * the columns of the unique index that makes the database reject a second event with the same
 * aggregate version.
 */
module EventStoreSchema {
  import opened Wrappers
  import opened DbalSchema

  const DefaultStreamName := "event_stream"
  const UniqueIndexSuffix := "_m_v_uix"

  /** The seven columns both layouts start with. */
  function BaseColumns(): map<string, Column>
  {
    map[
      "event_id" := Column(StringType, Some(36)),
      "version" := Column(IntegerType, None),
      "event_name" := Column(StringType, Some(100)),
      "payload" := Column(TextType, None),
      "created_at" := Column(StringType, Some(50)),
      "aggregate_id" := Column(StringType, Some(36)),
      "aggregate_type" := Column(StringType, Some(100))
    ]
  }

  /** The two columns added when causation tracking is enabled. */
  function CausationColumns(): map<string, Column>
  {
    map[
      "causation_id" := Column(StringType, Some(36)),
      "causation_name" := Column(StringType, Some(100))
    ]
  }

  function StreamColumns(withCausationColumns: bool): (columns: map<string, Column>)
    ensures forall c :: c in BaseColumns() ==> c in columns && columns[c] == BaseColumns()[c]
    ensures forall c :: c in CausationColumns() ==> (c in columns <==> withCausationColumns)
    ensures withCausationColumns ==> forall c :: c in CausationColumns() ==> columns[c] == CausationColumns()[c]
    ensures forall c :: c in columns ==> c in BaseColumns() || c in CausationColumns()
  {
    if withCausationColumns then BaseColumns() + CausationColumns() else BaseColumns()
  }

  function UniqueIndexName(streamName: string): string
  {
    streamName + UniqueIndexSuffix
  }

  /** Doctrine accepts the unique index's name exactly when it accepts the stream name as an index name. */
  lemma UniqueIndexNameValid(streamName: string)
    ensures ValidIndexName(UniqueIndexName(streamName)) <==> ValidIndexName(streamName)
  {
    assert forall i :: 0 <= i < |UniqueIndexSuffix| ==> IsIdentifierChar(UniqueIndexSuffix[i]);
    ValidIndexNameAppend(streamName, UniqueIndexSuffix);
  }

  /** The table `createSingleStream` defines. */
  function SingleStreamTable(streamName: string, withCausationColumns: bool): (t: TableDef)
    ensures t.name == streamName && t.columns == StreamColumns(withCausationColumns)
    ensures t.primaryKey == Some(["event_id"])
    ensures t.uniqueIndexes.Keys == {streamName + "_m_v_uix"}
    ensures t.uniqueIndexes[streamName + "_m_v_uix"] == ["aggregate_id", "aggregate_type", "version"]
  {
    TableDef(streamName, StreamColumns(withCausationColumns), Some(["event_id"]),
             map[UniqueIndexName(streamName) := ["aggregate_id", "aggregate_type", "version"]])
  }

  /** The table `createAggregateTypeStream` defines. */
  function AggregateTypeStreamTable(streamName: string, withCausationColumns: bool): (t: TableDef)
    ensures t.name == streamName && t.columns == StreamColumns(withCausationColumns)
    ensures t.primaryKey == Some(["event_id"])
    ensures t.uniqueIndexes.Keys == {streamName + "_m_v_uix"}
    ensures t.uniqueIndexes[streamName + "_m_v_uix"] == ["aggregate_id", "version"]
  {
    TableDef(streamName, StreamColumns(withCausationColumns), Some(["event_id"]),
             map[UniqueIndexName(streamName) := ["aggregate_id", "version"]])
  }

  /** Adds the seven base columns to a new table, in the order the source adds them. */
  method AddBaseColumns(schema: Schema, streamName: string)
    requires streamName in schema.tables && schema.tables[streamName] == EmptyTable(streamName)
    modifies schema
    ensures schema.tables == old(schema.tables)[streamName := EmptyTable(streamName).(columns := BaseColumns())]
  {
    ghost var before := schema.tables;
    ghost var current := EmptyTable(streamName);
    var o;
    assert schema.tables == before[streamName := current];
    o := AddColumnTo(schema, streamName, "event_id", StringType, Some(36), before, current);
    current := current.(columns := current.columns["event_id" := Column(StringType, Some(36))]);
    o := AddColumnTo(schema, streamName, "version", IntegerType, None, before, current);
    current := current.(columns := current.columns["version" := Column(IntegerType, None)]);
    o := AddColumnTo(schema, streamName, "event_name", StringType, Some(100), before, current);
    current := current.(columns := current.columns["event_name" := Column(StringType, Some(100))]);
    o := AddColumnTo(schema, streamName, "payload", TextType, None, before, current);
    current := current.(columns := current.columns["payload" := Column(TextType, None)]);
    o := AddColumnTo(schema, streamName, "created_at", StringType, Some(50), before, current);
    current := current.(columns := current.columns["created_at" := Column(StringType, Some(50))]);
    o := AddColumnTo(schema, streamName, "aggregate_id", StringType, Some(36), before, current);
    current := current.(columns := current.columns["aggregate_id" := Column(StringType, Some(36))]);
    o := AddColumnTo(schema, streamName, "aggregate_type", StringType, Some(100), before, current);
    current := current.(columns := current.columns["aggregate_type" := Column(StringType, Some(100))]);
    assert current.columns == BaseColumns();
  }

  /** Adds the two causation columns to a table that holds the base columns. */
  method AddCausationColumns(schema: Schema, streamName: string)
    requires streamName in schema.tables && schema.tables[streamName] == EmptyTable(streamName).(columns := BaseColumns())
    modifies schema
    ensures schema.tables == old(schema.tables)[streamName := EmptyTable(streamName).(columns := BaseColumns() + CausationColumns())]
  {
    ghost var before := schema.tables;
    ghost var current := EmptyTable(streamName).(columns := BaseColumns());
    var o;
    assert schema.tables == before[streamName := current];
    o := AddColumnTo(schema, streamName, "causation_id", StringType, Some(36), before, current);
    current := current.(columns := current.columns["causation_id" := Column(StringType, Some(36))]);
    assert "causation_name" !in current.columns by {
      assert current.columns.Keys == BaseColumns().Keys + {"causation_id"};
      assert "causation_name"[0] == 'c';
    }
    o := AddColumnTo(schema, streamName, "causation_name", StringType, Some(100), before, current);
    current := current.(columns := current.columns["causation_name" := Column(StringType, Some(100))]);
    assert current.columns == BaseColumns() + CausationColumns();
  }

  /** Adds the columns both layouts share. */
  method AddStreamColumns(schema: Schema, streamName: string, withCausationColumns: bool)
    requires streamName in schema.tables && schema.tables[streamName] == EmptyTable(streamName)
    modifies schema
    ensures schema.tables == old(schema.tables)[streamName := EmptyTable(streamName).(columns := StreamColumns(withCausationColumns))]
  {
    AddBaseColumns(schema, streamName);
    if withCausationColumns {
      AddCausationColumns(schema, streamName);
    }
  }

  /** `createSingleStream`: the stream name defaults to `event_stream`, causation columns to off. */
  method CreateSingleStream(schema: Schema, streamName: string := DefaultStreamName, withCausationColumns: bool := false)
    returns (o: Outcome<SchemaError>)
    modifies schema
    ensures streamName == "" ==> o == Fail(InvalidTableName(streamName)) && schema.tables == old(schema.tables)
    ensures streamName != "" && streamName in old(schema.tables) ==>
      o == Fail(TableAlreadyExists(streamName)) && schema.tables == old(schema.tables)
    ensures streamName != "" && streamName !in old(schema.tables) && ValidIndexName(streamName) ==>
      o == Pass && schema.tables == old(schema.tables)[streamName := SingleStreamTable(streamName, withCausationColumns)]
    ensures streamName != "" && streamName !in old(schema.tables) && !ValidIndexName(streamName) ==>
      && o == Fail(IndexNameInvalid(UniqueIndexName(streamName)))
      && schema.tables == old(schema.tables)[streamName := SingleStreamTable(streamName, withCausationColumns).(uniqueIndexes := map[])]
  {
    o := schema.CreateTable(streamName);
    if o.Fail? {
      return;
    }
    UniqueIndexNameValid(streamName);
    AddStreamColumns(schema, streamName, withCausationColumns);
    schema.SetPrimaryKey(streamName, ["event_id"]);
    o := schema.AddUniqueIndex(streamName, ["aggregate_id", "aggregate_type", "version"], UniqueIndexName(streamName));
  }

  /** `createAggregateTypeStream`: the stream name is given, causation columns default to off. */
  method CreateAggregateTypeStream(schema: Schema, streamName: string, withCausationColumns: bool := false)
    returns (o: Outcome<SchemaError>)
    modifies schema
    ensures streamName == "" ==> o == Fail(InvalidTableName(streamName)) && schema.tables == old(schema.tables)
    ensures streamName != "" && streamName in old(schema.tables) ==>
      o == Fail(TableAlreadyExists(streamName)) && schema.tables == old(schema.tables)
    ensures streamName != "" && streamName !in old(schema.tables) && ValidIndexName(streamName) ==>
      o == Pass && schema.tables == old(schema.tables)[streamName := AggregateTypeStreamTable(streamName, withCausationColumns)]
    ensures streamName != "" && streamName !in old(schema.tables) && !ValidIndexName(streamName) ==>
      && o == Fail(IndexNameInvalid(UniqueIndexName(streamName)))
      && schema.tables == old(schema.tables)[streamName := AggregateTypeStreamTable(streamName, withCausationColumns).(uniqueIndexes := map[])]
  {
    o := schema.CreateTable(streamName);
    if o.Fail? {
      return;
    }
    UniqueIndexNameValid(streamName);
    AddStreamColumns(schema, streamName, withCausationColumns);
    schema.SetPrimaryKey(streamName, ["event_id"]);
    o := schema.AddUniqueIndex(streamName, ["aggregate_id", "version"], UniqueIndexName(streamName));
  }

  /** `dropStream`: the stream name defaults to `event_stream`. */
  method DropStream(schema: Schema, streamName: string := DefaultStreamName) returns (o: Outcome<SchemaError>)
    modifies schema
    ensures streamName !in schema.tables
    ensures streamName in old(schema.tables) ==> o == Pass && schema.tables == old(schema.tables) - {streamName}
    ensures streamName !in old(schema.tables) ==> o == Fail(TableDoesNotExist(streamName)) && schema.tables == old(schema.tables)
  {
    o := schema.DropTable(streamName);
  }

  // ---------------------------------------------------------------------
  // Lemmas about the two layouts

  /** The base columns carry the types and lengths both layouts promise. */
  lemma BaseColumnTypes(t: TableDef)
    requires t.columns == StreamColumns(false) || t.columns == StreamColumns(true)
    ensures t.columns["event_id"] == Column(StringType, Some(36))
    ensures t.columns["version"] == Column(IntegerType, None)
    ensures t.columns["event_name"] == Column(StringType, Some(100))
    ensures t.columns["payload"] == Column(TextType, None)
    ensures t.columns["created_at"] == Column(StringType, Some(50))
    ensures t.columns["aggregate_id"] == Column(StringType, Some(36))
    ensures t.columns["aggregate_type"] == Column(StringType, Some(100))
  {
  }

  /** The two layouts agree on everything but the columns of their unique index, and that index differs only by `aggregate_type`. */
  lemma LayoutsDifferOnlyInIndex(streamName: string, withCausationColumns: bool)
    ensures SingleStreamTable(streamName, withCausationColumns).(uniqueIndexes := map[])
         == AggregateTypeStreamTable(streamName, withCausationColumns).(uniqueIndexes := map[])
    ensures var single := SingleStreamTable(streamName, withCausationColumns).uniqueIndexes[UniqueIndexName(streamName)];
            var perType := AggregateTypeStreamTable(streamName, withCausationColumns).uniqueIndexes[UniqueIndexName(streamName)];
            single[..1] + single[2..] == perType && single[1] == "aggregate_type"
  {
  }

  /** Creating the default single stream and dropping the default stream leaves no `event_stream` table. */
  method DefaultStreamRoundTrip(schema: Schema) returns (created: Outcome<SchemaError>, dropped: Outcome<SchemaError>)
    modifies schema
    ensures DefaultStreamName !in old(schema.tables) ==> created == Pass && dropped == Pass
    ensures schema.tables == old(schema.tables) - {DefaultStreamName}
  {
    created := CreateSingleStream(schema);
    dropped := DropStream(schema);
  }
}
