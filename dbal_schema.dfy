/**
 * The part of Doctrine's schema object that the event store builds tables with: a schema is a
 * map from table name to table definition, and each call below changes one entry of it.
 * Doctrine's checks on the calls the event store makes are kept: a table with an empty name, a
 * table that exists, a column added twice, an index name with characters Doctrine refuses and
 * dropping a missing table all fail.
 */
module DbalSchema {
  import opened Wrappers

  datatype ColumnType = StringType | IntegerType | TextType

  /** A column's type and its declared length (strings have one; integer and text columns have none). */
  datatype Column = Column(columnType: ColumnType, length: Option<nat>)

  datatype TableDef = TableDef(
    name: string,
    columns: map<string, Column>,
    primaryKey: Option<seq<string>>,
    uniqueIndexes: map<string, seq<string>>)

  datatype SchemaError =
    | TableAlreadyExists(table: string)
    | TableDoesNotExist(table: string)
    | ColumnAlreadyExists(table: string, column: string)
    | InvalidTableName(table: string)
    | IndexNameInvalid(index: string)

  predicate IsIdentifierChar(c: char)
  {
    'a' <= c <= 'z' || 'A' <= c <= 'Z' || '0' <= c <= '9' || c == '_'
  }

  /** The quote characters Doctrine strips from an identifier before checking it. */
  predicate IsQuoteChar(c: char)
  {
    c == '`' || c == '"' || c == '[' || c == ']'
  }

  /** An index name Doctrine accepts: without its quote characters it is made of letters, digits and `_` only. */
  predicate ValidIndexName(name: string)
  {
    forall i :: 0 <= i < |name| ==> IsIdentifierChar(name[i]) || IsQuoteChar(name[i])
  }

  /** A name followed by a suffix of letters, digits and `_` is a valid index name exactly when the name is. */
  lemma ValidIndexNameAppend(name: string, suffix: string)
    requires forall i :: 0 <= i < |suffix| ==> IsIdentifierChar(suffix[i])
    ensures ValidIndexName(name + suffix) <==> ValidIndexName(name)
  {
    var whole := name + suffix;
    assert forall i :: 0 <= i < |name| ==> whole[i] == name[i];
    assert forall i :: |name| <= i < |whole| ==> whole[i] == suffix[i - |name|];
  }

  function EmptyTable(name: string): TableDef
  {
    TableDef(name, map[], None, map[])
  }

  /**
   * `Schema.AddColumn` on the table `t` of a schema, stated against the tables `before` that
   * table was last replaced in.
   */
  method AddColumnTo(schema: Schema, table: string, column: string, columnType: ColumnType, length: Option<nat>,
                     ghost before: map<string, TableDef>, ghost t: TableDef)
    returns (o: Outcome<SchemaError>)
    requires schema.tables == before[table := t]
    modifies schema
    ensures column in t.columns ==> o == Fail(ColumnAlreadyExists(table, column)) && schema.tables == before[table := t]
    ensures column !in t.columns ==>
      o == Pass && schema.tables == before[table := t.(columns := t.columns[column := Column(columnType, length)])]
  {
    o := schema.AddColumn(table, column, columnType, length);
    if o.Pass? {
      assert before[table := t][table := t.(columns := t.columns[column := Column(columnType, length)])]
          == before[table := t.(columns := t.columns[column := Column(columnType, length)])];
    }
  }

  class Schema {
    var tables: map<string, TableDef>

    constructor ()
      ensures tables == map[]
    {
      tables := map[];
    }

    method CreateTable(name: string) returns (o: Outcome<SchemaError>)
      modifies this
      ensures name == "" ==> o == Fail(InvalidTableName(name)) && tables == old(tables)
      ensures name != "" && name in old(tables) ==> o == Fail(TableAlreadyExists(name)) && tables == old(tables)
      ensures name != "" && name !in old(tables) ==> o == Pass && tables == old(tables)[name := EmptyTable(name)]
    {
      if name == "" {
        return Fail(InvalidTableName(name));
      }
      if name in tables {
        return Fail(TableAlreadyExists(name));
      }
      tables := tables[name := EmptyTable(name)];
      o := Pass;
    }

    method AddColumn(table: string, column: string, columnType: ColumnType, length: Option<nat>)
      returns (o: Outcome<SchemaError>)
      requires table in tables
      modifies this
      ensures column in old(tables[table].columns) ==>
        o == Fail(ColumnAlreadyExists(table, column)) && tables == old(tables)
      ensures column !in old(tables[table].columns) ==>
        o == Pass &&
        tables == old(tables)[table := old(tables[table]).(columns := old(tables[table].columns)[column := Column(columnType, length)])]
    {
      var t := tables[table];
      if column in t.columns {
        return Fail(ColumnAlreadyExists(table, column));
      }
      tables := tables[table := t.(columns := t.columns[column := Column(columnType, length)])];
      o := Pass;
    }

    method SetPrimaryKey(table: string, columns: seq<string>)
      requires table in tables
      modifies this
      ensures tables == old(tables)[table := old(tables[table]).(primaryKey := Some(columns))]
    {
      var t := tables[table];
      tables := tables[table := t.(primaryKey := Some(columns))];
    }

    method AddUniqueIndex(table: string, columns: seq<string>, indexName: string) returns (o: Outcome<SchemaError>)
      requires table in tables
      modifies this
      ensures !ValidIndexName(indexName) ==> o == Fail(IndexNameInvalid(indexName)) && tables == old(tables)
      ensures ValidIndexName(indexName) ==>
        o == Pass &&
        tables == old(tables)[table := old(tables[table]).(uniqueIndexes := old(tables[table].uniqueIndexes)[indexName := columns])]
    {
      if !ValidIndexName(indexName) {
        return Fail(IndexNameInvalid(indexName));
      }
      var t := tables[table];
      tables := tables[table := t.(uniqueIndexes := t.uniqueIndexes[indexName := columns])];
      o := Pass;
    }

    method DropTable(name: string) returns (o: Outcome<SchemaError>)
      modifies this
      ensures name !in old(tables) ==> o == Fail(TableDoesNotExist(name)) && tables == old(tables)
      ensures name in old(tables) ==> o == Pass && tables == old(tables) - {name}
    {
      if name !in tables {
        return Fail(TableDoesNotExist(name));
      }
      tables := tables - {name};
      o := Pass;
    }
  }
}
