# Doctrine event-store adapter, modelled in Dafny

This project models the core of prooph's Doctrine event-store adapter. It has three parts:

- **The adapter** (`DoctrineEventStoreAdapter`), which does four things:
  - It resolves the table of a stream: an entry of the stream-table map wins, otherwise the name is derived from the stream name.
  - It creates that table from the metadata keys of the stream's first event.
  - It writes one row per event: six fixed columns, plus every metadata value cast to string.
  - It reads events back through a filtered, version-ordered query, merging each row's non-standard columns into the metadata.
- **The schema helper** (`EventStoreSchema`). It defines the single-stream and the aggregate-type table layouts, and it drops a stream's table.
- **The stream iterator** (`DoctrineStreamIterator`). It is a cursor over a query result: `current`, `next`, `key`, `valid` and `rewind`.

Modules:

| module | file | models |
|---|---|---|
| `Wrappers` | `wrappers.dfy` | `Option`, `Result` and `Outcome` (success or one error) |
| `PhpValues` | `php_values.dfy` | metadata values; PHP's `(string)` and `(int)` casts; rows as string maps; the metadata-merge loop shared by the read path and the iterator |
| `TableResolver` | `table_resolver.dfy` | `getTable` and `getShortStreamName` (pure) |
| `DbalSchema` | `dbal_schema.dfy` | the part of Doctrine's `Schema` that the core uses: a class holding a table map |
| `EventStoreSchema` | `event_store_schema.dfy` | `createSingleStream`, `createAggregateTypeStream` and `dropStream` as methods on a `Schema` |
| `Database` | `database.dfy` | the connection: tables with columns and rows; create-table, insert and select error cases |
| `Query` | `query.dfy` | the statement `loadEventsByMetadataFrom` builds: WHERE on every filter entry, then ORDER BY version |
| `AdapterSpec` | `adapter_spec.dfy` | the adapter's write and read paths as functions, with the lemmas about them |
| `EventStoreAdapter` | `event_store_adapter.dfy` | the adapter class; each method is proved against `AdapterSpec` |
| `StreamIterator` | `stream_iterator.dfy` | the iterator class over a fixed query result |

Behaviours of the code that the model keeps:

- **A row without `event_class` fails the load.** The read loop takes each row's class from its `event_class` column. A table without that column, such as either layout of `EventStoreSchema`, makes every load that selects a row fail.
- **Metadata accumulates across rows.** The read loop never resets `$metadata` between rows, so the model lets the metadata map build up as well. `AccumulatedUniform` shows that in a table, where every row has the same columns, each event still gets the filter overridden by its own row.
- **A standard column can appear in loaded metadata.** A loaded event's metadata contains a standard column only when the filter names it, and then with the filter's value. So the metadata is free of standard columns exactly when the filter names none.
- **Two different sets of standard columns.** The adapter has six standard columns, including `event_class`. The iterator has five, so in `current()` the `event_class` column ends up in the message metadata.
- **Errors of the layers below are modelled, not assumed away.** For example:
  - a new column that repeats one the table already has makes Doctrine's schema refuse it;
  - creating a table with an empty name, or one that exists, fails;
  - a unique index whose name holds a character other than a letter, a digit, `_` or an identifier quote makes Doctrine refuse it, so a stream name such as `my-stream` fails `createSingleStream` after the table and its columns were added;
  - an insert fails when the table is missing or the row's columns differ from the table's;
  - a select fails on a missing table or on a filter key that is not a column.
- **The iterator's start state.** The iterator's `currentKey` starts unset (`null`) in PHP, so the constructor's `rewind()` always executes the query. The model starts the key at -1, which gives the same behaviour.

## Model

| member | source | states |
|---|---|---|
| TableResolver.ReplaceHyphens | src/DoctrineEventStoreAdapter.php:291 | every `-` becomes `_` and every other character is kept, so no `-` is left |
| TableResolver.LastSegment | src/DoctrineEventStoreAdapter.php:292 | the result is the suffix of the name after its last `\` (all of it when there is none) and holds no `\` |
| TableResolver.ToLower | src/DoctrineEventStoreAdapter.php:275 | same length; each upper-case ASCII letter is lowered and every other character kept |
| TableResolver.ShortStreamName | src/DoctrineEventStoreAdapter.php:289-293 | the short name is the part of the hyphen-replaced name after its last `\` (the whole name when there is none): a suffix of it, preceded by `\` when shorter, and holding neither `-` nor `\` |
| TableResolver.DerivedTableName | src/DoctrineEventStoreAdapter.php:275-279 | the derived name is the lower-cased short name when that already contains `_stream` (the `strpos … === false` test, modelled by `TableResolver.Contains`), and the lower-cased short name followed by `_stream` otherwise; it contains `_stream` and holds no `-`, no `\` and no capital letter |
| TableResolver.GetTable | src/DoctrineEventStoreAdapter.php:270-283 | a mapped stream name gives its mapped table verbatim; any other gives exactly `DerivedTableName` of the stream name, with the properties above |
| TableResolver.ContainsAppended | src/DoctrineEventStoreAdapter.php:277-279 | appending `_stream` makes the name contain it |
| TableResolver.DerivedTableNameIsFixpoint | src/DoctrineEventStoreAdapter.php:275-279 | deriving again from a derived name changes nothing, so `_stream` is never appended twice |
| TableResolver.GetTableIsIdempotent | src/DoctrineEventStoreAdapter.php:270-283 | resolving the resolved table name again gives the same table when neither name is a key of the map |
| PhpValues.IntToString | src/DoctrineEventStoreAdapter.php:250 | the text is the integer's decimal digits without leading zeros, after a `-` exactly when it is negative, and it reads back through `(int)` (modelled by `PhpValues.ParseInt`) as the same integer |
| PhpValues.ToPhpString | src/DoctrineEventStoreAdapter.php:258 | `(string)` keeps a string, writes an integer as its decimal digits without leading zeros (after `-` when negative) so that it reads back as that integer, turns true into `1` and false or null into the empty string |
| PhpValues.Stringify | src/DoctrineEventStoreAdapter.php:257-259 | the same keys, each value cast to string |
| PhpValues.MergeRowMetadata | src/DoctrineEventStoreAdapter.php:161-165 | the merged metadata is the old metadata overridden by each row column outside the standard ones (`PhpValues.NonStandard`), and keeps every other entry |
| DbalSchema.ValidIndexNameAppend | src/Schema/EventStoreSchema.php:48 | appending letters, digits and `_` to a name keeps it valid or invalid as an index name |
| DbalSchema.Schema.CreateTable | src/Schema/EventStoreSchema.php:34 | an empty name (Doctrine's invalid table name) or an existing table is an error and changes nothing; otherwise an empty table is added |
| DbalSchema.Schema.AddColumn | src/Schema/EventStoreSchema.php:36 | a column the table has is an error and changes nothing; otherwise exactly that column is added |
| DbalSchema.Schema.SetPrimaryKey | src/Schema/EventStoreSchema.php:47 | only the primary key of that table changes |
| DbalSchema.Schema.AddUniqueIndex | src/Schema/EventStoreSchema.php:48 | an index name Doctrine refuses (`DbalSchema.ValidIndexName`) is an error that changes nothing; otherwise only that index of that table is set |
| DbalSchema.Schema.DropTable | src/Schema/EventStoreSchema.php:85 | an existing table is removed; a missing one is an error that changes nothing |
| EventStoreSchema.StreamColumns | src/Schema/EventStoreSchema.php:36-46 | the seven base columns always, and the two causation columns exactly when the flag is set |
| EventStoreSchema.UniqueIndexNameValid | src/Schema/EventStoreSchema.php:48 | the name `<stream>_m_v_uix` passes Doctrine's index-name check exactly when the stream name does |
| EventStoreSchema.SingleStreamTable | src/Schema/EventStoreSchema.php:32-49 | primary key `[event_id]`; one unique index, named `<stream>_m_v_uix`, over `aggregate_id, aggregate_type, version` |
| EventStoreSchema.AggregateTypeStreamTable | src/Schema/EventStoreSchema.php:58-75 | primary key `[event_id]`; one unique index, named `<stream>_m_v_uix`, over `aggregate_id, version` |
| EventStoreSchema.AddBaseColumns | src/Schema/EventStoreSchema.php:36-42 | the seven `addColumn` calls leave the new table with exactly the base columns |
| EventStoreSchema.AddCausationColumns | src/Schema/EventStoreSchema.php:43-46 | the two `addColumn` calls add exactly the causation columns |
| EventStoreSchema.AddStreamColumns | src/Schema/EventStoreSchema.php:36-46 | the new table gets the stream columns for the flag |
| EventStoreSchema.CreateSingleStream | src/Schema/EventStoreSchema.php:32-49 | defaults `event_stream` and no causation columns; an empty or existing table name is an error that changes nothing; a stream name Doctrine refuses in the index name leaves the table added without its index and reports the index name; otherwise exactly the single-stream table is added |
| EventStoreSchema.CreateAggregateTypeStream | src/Schema/EventStoreSchema.php:58-75 | an empty or existing table name is an error that changes nothing; a stream name Doctrine refuses in the index name leaves the table added without its index and reports the index name; otherwise exactly the aggregate-type table is added |
| EventStoreSchema.DropStream | src/Schema/EventStoreSchema.php:83-86 | default `event_stream`; afterwards the table is gone and nothing else changed |
| EventStoreSchema.BaseColumnTypes | src/Schema/EventStoreSchema.php:36-42 | both layouts give each base column its type and length |
| EventStoreSchema.LayoutsDifferOnlyInIndex | src/Schema/EventStoreSchema.php:48-74 | the two layouts are equal except for the unique index, whose columns differ only by `aggregate_type` |
| EventStoreSchema.DefaultStreamRoundTrip | src/Schema/EventStoreSchema.php:32-49 | creating the default stream succeeds on a schema without it, and dropping it leaves the schema without `event_stream` |
| Database.CreateTableIn | src/DoctrineEventStoreAdapter.php:200-202 | the DDL succeeds exactly when the table is new, adds it empty with the defined columns, leaves every other table as it was, and keeps every row shaped like its table |
| Database.InsertInto | src/DoctrineEventStoreAdapter.php:261 | an insert succeeds exactly when the table exists and the row supplies exactly its columns |
| Database.SelectError | src/DoctrineEventStoreAdapter.php:151 | the select fails exactly when the table is missing or names a column the table lacks, and says which |
| Database.InsertAllAccepted | src/DoctrineEventStoreAdapter.php:105-107 | when every row is accepted, the run of inserts (`Database.InsertAll`, one `insertEvent` per event) passes and appends all rows in order |
| Database.InsertAllStopsAtRejected | src/DoctrineEventStoreAdapter.php:105-107 | the first rejected row stops the run with its error, and the rows before it stay committed |
| Database.InsertAllPassesIff | src/DoctrineEventStoreAdapter.php:105-107 | the run passes exactly when every row is accepted |
| Database.InsertAllKeepsWellFormed | src/DoctrineEventStoreAdapter.php:261 | inserts keep every row shaped like its table |
| Database.Connection.ExecuteCreateTable | src/DoctrineEventStoreAdapter.php:200-202 | the connection's tables change exactly as the DDL says, or not at all on error, and every row stays shaped like its table (`Database.Connection.Valid`) |
| Database.Connection.Insert | src/DoctrineEventStoreAdapter.php:261 | the connection's tables change exactly as the insert says, or not at all on error, and every row stays shaped like its table |
| Query.OrderBy | src/DoctrineEventStoreAdapter.php:137 | the result is a permutation of the rows, in ascending key order |
| Query.WhereKeepsMatching | src/DoctrineEventStoreAdapter.php:139-148 | WHERE (`Query.Where`, with `Query.Matches` as the per-row condition) keeps each matching row as often as it occurs and drops every other row |
| Query.SelectCounts | src/DoctrineEventStoreAdapter.php:134-148 | the statement (`Query.Select`: WHERE, then ORDER BY version) returns each matching row of the table as often as it occurs there, and no other row |
| Query.SelectMembers | src/DoctrineEventStoreAdapter.php:134-148 | every selected row is a row of the table that equals each filter value's string and reaches the minimum version |
| Query.WhereWithoutFilter | src/DoctrineEventStoreAdapter.php:139-148 | with no filter and no minimum version every row passes |
| Query.OrderByOfSorted | src/DoctrineEventStoreAdapter.php:137 | rows already in version order come back as they are |
| AdapterSpec.FixedColumns | src/DoctrineEventStoreAdapter.php:248-255 | the initial row has exactly the six standard columns |
| AdapterSpec.EventRow | src/DoctrineEventStoreAdapter.php:248-259 | the row has the six fixed columns and every metadata key; each metadata key is its value cast to string, overriding a fixed column of the same name; every other fixed column keeps its value |
| AdapterSpec.EventRows | src/DoctrineEventStoreAdapter.php:105-107 | one row per event, in the caller's order |
| AdapterSpec.FixedSchemaColumns | src/DoctrineEventStoreAdapter.php:209-215 | the fixed schema columns are exactly the six standard columns |
| AdapterSpec.AdapterColumnsSpec | src/DoctrineEventStoreAdapter.php:209-219 | the table `AdapterSpec.AdapterTable` defines, with its columns `AdapterSpec.AdapterColumns`, has exactly the six fixed columns, with their types, plus one string(100) column per metadata key |
| AdapterSpec.AccumulatedMetadataSpec | src/DoctrineEventStoreAdapter.php:160-165 | the accumulated metadata (`AdapterSpec.AccumulatedMetadata`, the never-reset `$metadata` of the read loop) keeps every filter key; it holds a standard column only with the filter's value; any other key comes from a fetched row |
| AdapterSpec.AccumulatedUniform | src/DoctrineEventStoreAdapter.php:160-165 | over rows with one set of columns, the accumulated metadata is the filter overridden by the last row alone |
| AdapterSpec.LoadFrom | src/DoctrineEventStoreAdapter.php:128-180 | loading (`AdapterSpec.LoadEvents`) succeeds exactly when the table exists, has every filter key and `version` as columns, and every selected row has an `event_class` column; a missing table is reported as such, and a selected row without `event_class` fails the load as PHP's `$eventClass::fromArray` on a null class does |
| AdapterSpec.LoadNeedsEventClass | src/DoctrineEventStoreAdapter.php:156-167 | over a table whose rows carry its columns and which has the columns the statement names, the load fails exactly when the table has no `event_class` column and some row is selected |
| AdapterSpec.LoadedVersions | src/DoctrineEventStoreAdapter.php:137-148 | loaded events come in ascending version order, and none is below the minimum version |
| AdapterSpec.LoadedEventsMatch | src/DoctrineEventStoreAdapter.php:134-176 | the rebuilt events (`AdapterSpec.RebuildEvents`, one `AdapterSpec.ToDomainEvent` per fetched row) are one event per matching row, as often as the row occurs; each event comes from a matching row of the table and carries that row's id, name, class, version read through `(int)`, timestamp and decoded payload |
| AdapterSpec.LoadedMetadata | src/DoctrineEventStoreAdapter.php:139-174 | each loaded event's metadata is the filter overridden by its own row's non-standard columns; a standard column appears only when the filter names it, with the filter's value |
| AdapterSpec.EventRowFitsTable | src/DoctrineEventStoreAdapter.php:205-261 | the table created for a set of metadata keys accepts the row of every event with those keys |
| AdapterSpec.EventRowReadsBack | src/DoctrineEventStoreAdapter.php:167-259 | with no metadata key naming a fixed column and a serializer that round-trips, an event's row reads back as the same event, its metadata values as strings |
| AdapterSpec.CreatedStreamHoldsRows | src/DoctrineEventStoreAdapter.php:78-108 | creating the table and appending events with one key set commits every row, in order |
| AdapterSpec.SelectEventRows | src/DoctrineEventStoreAdapter.php:134-148 | without a filter, the rows of events in version order are selected in the same order |
| AdapterSpec.EventRowsLoadBack | src/DoctrineEventStoreAdapter.php:153-179 | loading those rows returns exactly the events, their metadata values as strings |
| AdapterSpec.CreatedStreamLoadsBack | src/DoctrineEventStoreAdapter.php:78-180 | create then load, over the database functions, succeeds and returns the created events |
| EventStoreAdapter.DoctrineEventStoreAdapter.FromConfiguration | src/DoctrineEventStoreAdapter.php:50-71 | a missing connection is a configuration error; otherwise the adapter holds the connection, the table map (empty by default) and the serializer (the default one when none is given) |
| EventStoreAdapter.DoctrineEventStoreAdapter.Create | src/DoctrineEventStoreAdapter.php:78-95 | an empty stream is an error that changes nothing; an empty table name, a schema or DDL error changes nothing; otherwise the table for the first event's keys is created and every event is appended |
| EventStoreAdapter.DoctrineEventStoreAdapter.AppendTo | src/DoctrineEventStoreAdapter.php:103-108 | one insert per event, into the resolved table, in order, stopping at the first failure |
| EventStoreAdapter.DoctrineEventStoreAdapter.BuildEventData | src/DoctrineEventStoreAdapter.php:248-259 | the array built entry by entry is the event's row |
| EventStoreAdapter.DoctrineEventStoreAdapter.InsertEvent | src/DoctrineEventStoreAdapter.php:246-262 | one insert of the event's row into the resolved table |
| EventStoreAdapter.DoctrineEventStoreAdapter.CreateSchemaFor | src/DoctrineEventStoreAdapter.php:188-203 | an empty table name or a clashing metadata key is a schema error; with `returnSql` the table definition is returned and nothing runs; otherwise the DDL runs, failing when the table exists |
| EventStoreAdapter.DoctrineEventStoreAdapter.AddFixedColumns | src/DoctrineEventStoreAdapter.php:209-215 | the six `addColumn` calls leave the new table with exactly the fixed columns |
| EventStoreAdapter.DoctrineEventStoreAdapter.AddMetadataColumns | src/DoctrineEventStoreAdapter.php:217-219 | one string(100) column per metadata key; a key that repeats a fixed column stops the loop with that error and leaves the other tables alone |
| EventStoreAdapter.DoctrineEventStoreAdapter.DefineColumns | src/DoctrineEventStoreAdapter.php:209-221 | the new table gets the adapter's columns and primary key `[event_id]`, or the clash error |
| EventStoreAdapter.DoctrineEventStoreAdapter.AddToSchema | src/DoctrineEventStoreAdapter.php:205-222 | an empty or existing table name is an error that changes nothing; a clashing key is an error; otherwise exactly the adapter table is added |
| EventStoreAdapter.DoctrineEventStoreAdapter.LoadEventsByMetadataFrom | src/DoctrineEventStoreAdapter.php:128-180 | the read loop, which stops at the first fetched row without `event_class`, returns what `LoadFrom` specifies |
| EventStoreAdapter.DoctrineEventStoreAdapter.Load | src/DoctrineEventStoreAdapter.php:115-120 | the whole stream, unfiltered from the minimum version, wrapped with its name |
| EventStoreAdapter.DoctrineEventStoreAdapter.CreateThenLoad | src/DoctrineEventStoreAdapter.php:78-180 | for a non-empty new table name and events with one key set that avoids the fixed columns and comes in version order, create succeeds and load returns the events |
| StreamIterator.DescribedMetadata | src/DoctrineStreamIterator.php:98-118 | the message `StreamIterator.Describe` builds from a row has as metadata exactly the row's columns outside the five standard ones, `event_class` included; name, uuid and version come from their columns |
| StreamIterator.DescribeAll | src/DoctrineStreamIterator.php:113-119 | one message per row, in order |
| StreamIterator.DoctrineStreamIterator.constructor | src/DoctrineStreamIterator.php:73-85 | the arguments are stored and the query runs once; the iterator is at the first row with key 0, or invalid with key -1 when the result is empty |
| StreamIterator.DoctrineStreamIterator.Fetch | src/DoctrineStreamIterator.php:127 | the next row and the cursor moved by one, or nothing past the end |
| StreamIterator.DoctrineStreamIterator.Next | src/DoctrineStreamIterator.php:125-134 | a fetched row raises the key by one; when none is left the key is -1 |
| StreamIterator.DoctrineStreamIterator.Key | src/DoctrineStreamIterator.php:139-146 | `false` exactly when the key is -1; otherwise key k names row k of the result |
| StreamIterator.DoctrineStreamIterator.IsValid | src/DoctrineStreamIterator.php:151-154 | valid exactly when there is a current row, that is, when `key()` is not `false` |
| StreamIterator.DoctrineStreamIterator.Rewind | src/DoctrineStreamIterator.php:159-173 | at key 0 nothing changes and the query does not run; from any other key the query runs again and the iterator is back at its first row |
| StreamIterator.DoctrineStreamIterator.Current | src/DoctrineStreamIterator.php:90-120 | nothing when the rows have run out; otherwise the message the current row describes |
| StreamIterator.DoctrineStreamIterator.VisitAll | src/DoctrineStreamIterator.php:125-154 | iterating to exhaustion visits keys 0, 1, … and pairs key k with the message of row k |
| StreamIterator.DoctrineStreamIterator.Iterate | src/DoctrineStreamIterator.php:159-173 | a `foreach` visits every row in order and runs the query again unless the iterator was at its first row |
| StreamIterator.IterateTwice | src/DoctrineStreamIterator.php:159-173 | two `foreach` loops over an unchanged result give the same keys and messages |

## Left out

- **The database is a stand-in.** The Doctrine connection, `DriverManager`, the query builder's SQL text and `Schema::toSql` have no model. The stand-in is described by:
  - the table definition the DDL would create;
  - the NOT NULL constraint the adapter's columns impose on an insert: every column must be given (none has a default);
  - the columns a select names.
- **Database constraints that are not enforced.** The stand-in database does not enforce primary keys or unique indexes. Unique-constraint violations are out of scope.
- **Declared column types and lengths.** The stand-in checks only that an insert gives exactly the table's columns. It does not check the declared types and lengths: `event_id` string(36), metadata columns string(100), `created_at` string(50), `version` integer. A metadata value of 101 characters is accepted and read back unchanged. A strict database rejects it, and a non-strict MySQL truncates it.
- **Collation of filter values.** A filter value is compared with the column's text exactly. SQL compares by the column's collation; MySQL's default ignores letter case and trailing spaces.
- **Other checks of Doctrine's schema.** Only the checks on the calls the event store makes are modelled: empty table names, existing tables, repeated columns, index names and missing tables. Doctrine's checks that index and primary-key columns exist and that index names are unique are left out, because the event store names only columns it has just added, and a single index per table. Namespaced table names such as `app.events` are not modelled as namespaces.
- EventStoreAdapter.DoctrineEventStoreAdapter.AddMetadataColumns: with several metadata keys that repeat fixed columns, the model reports one of them, chosen from the key set. The code reports the first in the metadata array's order. The model holds metadata as a map and keeps no key order.
- **Identifier case.** Doctrine and SQL compare identifiers case-insensitively; the model compares names verbatim.
- **Order of equal versions.** Rows with equal versions keep the order they were inserted in. SQL leaves that order open.
- **The serializers are opaque functions.** This covers the Zend serializer and the iterator's payload serializer. Round-trip results assume a serializer that reads back what it wrote.
- **Event reconstruction.** `$eventClass::fromArray` and `createMessageFromArray` are modelled as the record of the fields they receive. The model fails a load only when the `event_class` column is missing. A class name that names no class, or a class whose `fromArray` throws, is not modelled.
- **Dates.** Formatting and parsing are out of scope: `created_at` is an opaque string.
- **Statement.** The iterator's statement is the fixed sequence of rows its query returns and a cursor into that sequence.
- **Connection configuration.** A connection given as a configuration array (passed to `DriverManager`) is not modelled; the configuration holds a connection or nothing.
- **Transactions.** `beginTransaction`, `commit` and `rollback` are pass-throughs and are left out. Each statement commits on its own.
- **Iterator constructor arguments.** The message factory has no model. The iterator's `metadata` argument is stored but, as in the code, never used.
- **Parts of the repository outside this model.** `src/Container/DoctrineEventStoreAdapterFactory.php` (container wiring), `examples/create-schema.php` (a usage script) and the tests are not part of this model.
- PhpValues.ParseInt: models `(int)` only as an optional sign followed by leading digits. It leaves out leading whitespace, exponents and the saturation at the platform's integer bounds. The adapter only reads text it wrote itself, or the database's integer column.
- PhpValues.ToPhpString: models PHP values only as strings, integers, booleans and null. Floats are left out because PHP's float-to-string text depends on the `precision` setting. Arrays are left out: PHP casts every array to `"Array"` with a notice. Objects are left out: one with `__toString` casts to that method's text, and any other object makes the cast fail.
- AdapterSpec.CreatedStreamLoadsBack: the round trip is stated for streams whose events share one set of metadata keys and come in version order. The read path does not return events of other streams in their original order, and it does not return their original value types.
