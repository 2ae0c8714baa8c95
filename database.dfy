/**
 * A stand-in for the database connection the adapter writes through. It holds every table's
 * columns and rows. A create-table statement fails when the table exists; an insert fails when
 * the table is missing or the row does not supply exactly the table's columns (every column the
 * adapter defines is NOT NULL and has no default). Each statement commits on its own.
 */
module Database {
  import opened Wrappers
  import opened PhpValues
  import opened DbalSchema

  /** A table: the columns it was created with and its rows, oldest first. */
  datatype DbTable = DbTable(columns: set<string>, rows: seq<Row>)

  type Db = map<string, DbTable>

  datatype DbError =
    | TableExists(table: string)
    | NoSuchTable(table: string)
    | ColumnMismatch(table: string)
    | UnknownColumns(table: string, columns: set<string>)

  /** Every row of every table supplies exactly that table's columns. */
  predicate WellFormed(db: Db)
  {
    forall t :: t in db ==> forall i :: 0 <= i < |db[t].rows| ==> db[t].rows[i].Keys == db[t].columns
  }

  /** Executing the DDL of one table definition. */
  function CreateTableIn(db: Db, def: TableDef): (r: Result<Db, DbError>)
    ensures r.Success? <==> def.name !in db
    ensures r.Success? ==> r.value.Keys == db.Keys + {def.name} && r.value[def.name] == DbTable(def.columns.Keys, [])
    ensures r.Success? ==> forall t :: t in db ==> r.value[t] == db[t]
    ensures r.Success? && WellFormed(db) ==> WellFormed(r.value)
  {
    if def.name in db then Failure(TableExists(def.name))
    else Success(db[def.name := DbTable(def.columns.Keys, [])])
  }

  /** Whether the database takes `row` into `table`. */
  predicate Accepts(db: Db, table: string, row: Row)
  {
    table in db && row.Keys == db[table].columns
  }

  /** One insert statement. */
  function InsertInto(db: Db, table: string, row: Row): (r: Result<Db, DbError>)
    ensures r.Success? <==> Accepts(db, table, row)
    ensures r.Success? && WellFormed(db) ==> WellFormed(r.value)
  {
    if table !in db then Failure(NoSuchTable(table))
    else if row.Keys != db[table].columns then Failure(ColumnMismatch(table))
    else Success(db[table := db[table].(rows := db[table].rows + [row])])
  }

  /** The database after some statements, and whether the last one failed. */
  datatype Applied = Applied(db: Db, outcome: Outcome<DbError>)

  /**
   * Inserting rows one statement at a time: every accepted row stays committed, and the first
   * rejected row stops the run.
   */
  function InsertAll(db: Db, table: string, rows: seq<Row>): Applied
  {
    if rows == [] then Applied(db, Pass)
    else
      match InsertInto(db, table, rows[0])
      case Failure(e) => Applied(db, Fail(e))
      case Success(next) => InsertAll(next, table, rows[1..])
  }

  /** The statement a SELECT over `used` columns of `table` fails with, if any. */
  function SelectError(db: Db, table: string, used: set<string>): (r: Option<DbError>)
    ensures r.None? <==> table in db && used <= db[table].columns
    ensures table !in db ==> r == Some(NoSuchTable(table))
    ensures table in db && !(used <= db[table].columns) ==> r == Some(UnknownColumns(table, used - db[table].columns))
  {
    if table !in db then Some(NoSuchTable(table))
    else if !(used <= db[table].columns) then Some(UnknownColumns(table, used - db[table].columns))
    else None
  }

  /** A run of inserts keeps every row shaped like its table. */
  lemma {:induction false} InsertAllKeepsWellFormed(db: Db, table: string, rows: seq<Row>)
    requires WellFormed(db)
    ensures WellFormed(InsertAll(db, table, rows).db)
  {
    if rows != [] {
      match InsertInto(db, table, rows[0])
      case Failure(_) =>
      case Success(next) => InsertAllKeepsWellFormed(next, table, rows[1..]);
    }
  }

  /** `db` with `rows` appended to `table`, when that table exists. */
  function Committed(db: Db, table: string, rows: seq<Row>): Db
  {
    if table in db then db[table := db[table].(rows := db[table].rows + rows)] else db
  }

  lemma CommittedStep(db: Db, table: string, row: Row, rows: seq<Row>)
    requires Accepts(db, table, row)
    ensures InsertInto(db, table, row).Success?
    ensures var next := InsertInto(db, table, row).value;
      Committed(next, table, rows) == Committed(db, table, [row] + rows) &&
      (forall r :: Accepts(next, table, r) <==> Accepts(db, table, r))
  {
    assert db[table].rows + [row] + rows == db[table].rows + ([row] + rows);
  }

  /** When the database accepts every row, the run passes and commits all of them, in order. */
  lemma {:induction false} InsertAllAccepted(db: Db, table: string, rows: seq<Row>)
    requires forall i :: 0 <= i < |rows| ==> Accepts(db, table, rows[i])
    ensures InsertAll(db, table, rows) == Applied(Committed(db, table, rows), Pass)
  {
    if rows == [] {
      if table in db {
        assert db[table].rows + rows == db[table].rows;
      }
    } else {
      CommittedStep(db, table, rows[0], rows[1..]);
      var next := InsertInto(db, table, rows[0]).value;
      assert forall i :: 0 <= i < |rows[1..]| ==> rows[1..][i] == rows[i + 1];
      InsertAllAccepted(next, table, rows[1..]);
      assert [rows[0]] + rows[1..] == rows;
    }
  }

  /**
   * When row `k` is the first the database rejects, the run fails with that row's error and
   * leaves exactly the rows before it committed.
   */
  lemma {:induction false} InsertAllStopsAtRejected(db: Db, table: string, rows: seq<Row>, k: nat)
    requires k < |rows| && !Accepts(db, table, rows[k])
    requires forall i :: 0 <= i < k ==> Accepts(db, table, rows[i])
    ensures InsertAll(db, table, rows) == Applied(Committed(db, table, rows[..k]), Fail(InsertInto(db, table, rows[k]).error))
  {
    if k == 0 {
      if table in db {
        assert db[table].rows + rows[..0] == db[table].rows;
      }
    } else {
      CommittedStep(db, table, rows[0], rows[1..][..k - 1]);
      var next := InsertInto(db, table, rows[0]).value;
      assert forall i :: 0 <= i < |rows[1..]| ==> rows[1..][i] == rows[i + 1];
      InsertAllStopsAtRejected(next, table, rows[1..], k - 1);
      assert [rows[0]] + rows[1..][..k - 1] == rows[..k];
      assert InsertInto(next, table, rows[k]) == InsertInto(db, table, rows[k]);
    }
  }

  /** A run of inserts passes exactly when the database accepts every row. */
  lemma InsertAllPassesIff(db: Db, table: string, rows: seq<Row>)
    ensures InsertAll(db, table, rows).outcome.Pass? <==> forall i :: 0 <= i < |rows| ==> Accepts(db, table, rows[i])
  {
    if forall i :: 0 <= i < |rows| ==> Accepts(db, table, rows[i]) {
      InsertAllAccepted(db, table, rows);
    } else {
      var k := FirstRejected(db, table, rows, 0);
      InsertAllStopsAtRejected(db, table, rows, k);
    }
  }

  /** The index of the first row the database rejects, searching from `from`. */
  function FirstRejected(db: Db, table: string, rows: seq<Row>, from: nat): (k: nat)
    requires from <= |rows|
    requires forall i :: 0 <= i < from ==> Accepts(db, table, rows[i])
    requires exists i :: from <= i < |rows| && !Accepts(db, table, rows[i])
    ensures from <= k < |rows| && !Accepts(db, table, rows[k])
    ensures forall i :: 0 <= i < k ==> Accepts(db, table, rows[i])
    decreases |rows| - from
  {
    if !Accepts(db, table, rows[from]) then from else FirstRejected(db, table, rows, from + 1)
  }

  class Connection {
    var tables: Db

    /** The database the connection reaches keeps every row shaped like its table. */
    ghost predicate Valid()
      reads this
    {
      WellFormed(tables)
    }

    constructor (tables: Db)
      requires WellFormed(tables)
      ensures Valid() && this.tables == tables
    {
      this.tables := tables;
    }

    /** Runs the create-table DDL of `def`. */
    method ExecuteCreateTable(def: TableDef) returns (o: Outcome<DbError>)
      requires Valid()
      modifies this
      ensures Valid()
      ensures o.Pass? <==> CreateTableIn(old(tables), def).Success?
      ensures o.Pass? ==> tables == CreateTableIn(old(tables), def).value
      ensures o.Fail? ==> o.error == CreateTableIn(old(tables), def).error && tables == old(tables)
    {
      match CreateTableIn(tables, def)
      case Failure(e) =>
        o := Fail(e);
      case Success(next) =>
        tables := next;
        o := Pass;
    }

    /** Runs one insert statement. */
    method Insert(table: string, row: Row) returns (o: Outcome<DbError>)
      requires Valid()
      modifies this
      ensures Valid()
      ensures o.Pass? <==> Accepts(old(tables), table, row)
      ensures o.Pass? ==> tables == InsertInto(old(tables), table, row).value
      ensures o.Fail? ==> o.error == InsertInto(old(tables), table, row).error && tables == old(tables)
    {
      match InsertInto(tables, table, row)
      case Failure(e) =>
        o := Fail(e);
      case Success(next) =>
        tables := next;
        o := Pass;
    }
  }
}
