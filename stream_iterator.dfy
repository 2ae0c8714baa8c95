/**
 * The iterator over a stream query's result: a cursor into the rows the query returns, the row
 * last fetched (none once the rows run out) and its position, which reads -1 when there is no
 * current row. Rewinding executes the query again unless the iterator is already at the first row.
 */
module StreamIterator {
  import opened Wrappers
  import opened PhpValues

  /** The columns `current()` does not treat as metadata; `event_class` is not among them. */
  const StandardColumns: seq<string> := ["event_id", "event_name", "created_at", "payload", "version"]

  /** The message name and the field array `current()` hands to the message factory. */
  datatype MessageDescription = MessageDescription(
    messageName: string,
    uuid: string,
    version: int,
    createdAt: string,
    payload: Payload,
    metadata: map<string, MetaValue>)

  /** The message one row describes. */
  function Describe(row: Row, payloadSerializer: PayloadCodec): MessageDescription
  {
    MessageDescription(
      Col(row, "event_name"),
      Col(row, "event_id"),
      ParseInt(Col(row, "version")),
      Col(row, "created_at"),
      payloadSerializer.unserialize(Col(row, "payload")),
      NonStandard(row, StandardColumns))
  }

  /**
   * A described message's metadata is exactly the row's columns outside the five standard ones,
   * as strings; `event_class` is one of them. Nothing else is merged in.
   */
  lemma DescribedMetadata(row: Row, payloadSerializer: PayloadCodec)
    ensures var m := Describe(row, payloadSerializer);
      && (forall k :: k in m.metadata <==> k in row && k !in StandardColumns)
      && (forall k :: k in m.metadata ==> m.metadata[k] == MStr(row[k]))
      && ("event_class" in row ==> m.metadata["event_class"] == MStr(row["event_class"]))
      && m.messageName == Col(row, "event_name") && m.uuid == Col(row, "event_id")
      && m.version == ParseInt(Col(row, "version"))
  {
  }

  /** The messages of a whole result, in order. */
  function DescribeAll(rows: seq<Row>, payloadSerializer: PayloadCodec): (ms: seq<MessageDescription>)
    ensures |ms| == |rows|
    ensures forall i :: 0 <= i < |rows| ==> ms[i] == Describe(rows[i], payloadSerializer)
  {
    seq(|rows|, i requires 0 <= i < |rows| => Describe(rows[i], payloadSerializer))
  }

  /** The keys `0, 1, …, n - 1`. */
  function Positions(n: nat): (ks: seq<int>)
    ensures |ks| == n
    ensures forall i :: 0 <= i < n ==> ks[i] == i
  {
    seq(n, i => i)
  }

  class DoctrineStreamIterator {
    /** The rows the query returns each time it is executed. */
    const query: seq<Row>
    const payloadSerializer: PayloadCodec
    /** Kept as given; `current()` does not use it. */
    const metadata: map<string, MetaValue>

    /** The result of the last execution, and how many of its rows have been fetched. */
    var statement: seq<Row>
    var cursor: nat
    /** The last fetched row; `None` stands for the `false` a fetch past the end returns. */
    var currentItem: Option<Row>
    var currentKey: int
    /** How often the query has been executed. */
    ghost var executions: nat

    /** The state `next()` works from: every fetch so far moved the key along with the cursor. */
    ghost predicate Fetching()
      reads this
    {
      && statement == query && cursor <= |statement|
      && (currentKey == cursor - 1 || (currentKey == -1 && cursor == |statement|))
    }

    /** Between calls: the current row is the one the key names, or the rows have run out and the key is -1. */
    ghost predicate Valid()
      reads this
    {
      && Fetching()
      && (currentItem.Some? ==> 0 < cursor && currentKey == cursor - 1 && currentItem.value == statement[cursor - 1])
      && (currentItem.None? ==> currentKey == -1 && cursor == |statement|)
    }

    /** At the first row with key 0, or with no current row and key -1 when the result is empty. */
    ghost predicate AtStart()
      reads this
    {
      && (|query| > 0 ==> currentItem == Some(query[0]) && currentKey == 0 && cursor == 1)
      && (|query| == 0 ==> currentItem == None && currentKey == -1 && cursor == 0)
    }

    /** The constructor stores its arguments and rewinds, which executes the query. */
    constructor (query: seq<Row>, payloadSerializer: PayloadCodec, metadata: map<string, MetaValue>)
      ensures this.query == query && this.payloadSerializer == payloadSerializer && this.metadata == metadata
      ensures Valid() && AtStart() && executions == 1
    {
      this.query := query;
      this.payloadSerializer := payloadSerializer;
      this.metadata := metadata;
      statement := [];
      cursor := 0;
      currentItem := None;
      currentKey := -1;
      executions := 0;
      new;
      Rewind();
    }

    /** One fetch from the statement: the next row, or none past the end. */
    method Fetch() returns (row: Option<Row>)
      modifies this
      ensures old(cursor) < |statement| ==> row == Some(statement[old(cursor)]) && cursor == old(cursor) + 1
      ensures old(cursor) >= |statement| ==> row == None && cursor == old(cursor)
      ensures statement == old(statement) && currentItem == old(currentItem) && currentKey == old(currentKey)
      ensures executions == old(executions)
    {
      if cursor < |statement| {
        row := Some(statement[cursor]);
        cursor := cursor + 1;
      } else {
        row := None;
      }
    }

    /** `next()`: fetch a row; the key moves up by one, or becomes -1 when no row is left. */
    method Next()
      requires Fetching()
      modifies this
      ensures Valid()
      ensures old(cursor) < |query| ==>
        currentItem == Some(query[old(cursor)]) && currentKey == old(currentKey) + 1 && cursor == old(cursor) + 1
      ensures old(cursor) >= |query| ==> currentItem == None && currentKey == -1 && cursor == old(cursor)
      ensures executions == old(executions)
    {
      currentItem := Fetch();
      if currentItem.Some? {
        currentKey := currentKey + 1;
      } else {
        currentKey := -1;
      }
    }

    /** `key()`: the key, or `false` (here `None`) when it is -1; a key `k` names row `k` of the result. */
    function Key(): (k: Option<int>)
      requires Valid()
      reads this
      ensures k.None? <==> currentKey == -1
      ensures k.Some? ==> 0 <= k.value < |query| && currentItem == Some(query[k.value])
    {
      if currentKey == -1 then None else Some(currentKey)
    }

    /** `valid()`: whether there is a current row; it holds exactly when `key()` is not `false`. */
    function IsValid(): (r: bool)
      requires Valid()
      reads this
      ensures r <==> Key().Some?
      ensures r <==> cursor > 0 && currentKey == cursor - 1
    {
      currentItem.Some?
    }

    /**
     * `rewind()`: at key 0 nothing happens and the query is not executed again; from any other
     * key the query is executed again and the iterator is back at its first row.
     */
    method Rewind()
      modifies this
      ensures old(currentKey) == 0 ==> unchanged(this)
      ensures old(currentKey) != 0 ==> Valid() && AtStart() && executions == old(executions) + 1
    {
      if currentKey != 0 {
        statement := query;
        executions := executions + 1;
        cursor := 0;
        currentItem := None;
        currentKey := -1;
        Next();
      }
    }

    /** `current()`: none when the rows have run out, else the message the current row describes. */
    method Current() returns (m: Option<MessageDescription>)
      requires Valid()
      ensures m.None? <==> currentItem.None?
      ensures m.Some? ==> m.value == Describe(currentItem.value, payloadSerializer)
    {
      if currentItem.None? {
        return None;
      }
      var row := currentItem.value;
      var fromTable := MergeRowMetadata(map[], row, StandardColumns);
      EmptyOverride(NonStandard(row, StandardColumns));
      m := Some(MessageDescription(
        Col(row, "event_name"),
        Col(row, "event_id"),
        ParseInt(Col(row, "version")),
        Col(row, "created_at"),
        payloadSerializer.unserialize(Col(row, "payload")),
        fromTable));
    }

    /**
     * The loop of a `foreach` after its rewind: read `key()` and `current()` and call `next()`
     * while `valid()` holds, from the first row on.
     */
    method VisitAll() returns (keys: seq<int>, messages: seq<MessageDescription>)
      requires Valid() && AtStart()
      modifies this
      ensures keys == Positions(|query|)
      ensures messages == DescribeAll(query, payloadSerializer)
      ensures Valid() && currentItem == None
      ensures executions == old(executions)
    {
      keys, messages := [], [];
      while IsValid()
        invariant Valid() && executions == old(executions)
        invariant |keys| <= |query|
        invariant keys == Positions(|keys|) && messages == DescribeAll(query[..|keys|], payloadSerializer)
        invariant currentItem.Some? ==> currentKey == |keys|
        invariant currentItem.None? ==> |keys| == |query|
        decreases |query| - |keys|
      {
        var k := Key();
        var m := Current();
        PositionsStep(|keys|);
        DescribeAllStep(query, payloadSerializer, |keys|);
        keys, messages := keys + [k.value], messages + [m.value];
        Next();
      }
      assert query[..|keys|] == query;
    }

    /**
     * A `foreach` over the iterator: rewind, then visit every row. It visits the keys 0, 1, …
     * in order, key `k` with row `k` of the result, and executes the query again unless the
     * iterator was at its first row.
     */
    method Iterate() returns (keys: seq<int>, messages: seq<MessageDescription>)
      requires Valid()
      modifies this
      ensures keys == Positions(|query|)
      ensures messages == DescribeAll(query, payloadSerializer)
      ensures Valid() && currentItem == None && Key() == None
      ensures executions == old(executions) + (if old(currentKey) == 0 then 0 else 1)
    {
      Rewind();
      keys, messages := VisitAll();
    }
  }

  lemma PositionsStep(n: nat)
    ensures Positions(n + 1) == Positions(n) + [n]
  {
    assert forall i :: 0 <= i <= n ==> Positions(n + 1)[i] == (Positions(n) + [n])[i];
  }

  lemma DescribeAllStep(rows: seq<Row>, payloadSerializer: PayloadCodec, n: nat)
    requires n < |rows|
    ensures DescribeAll(rows[..n + 1], payloadSerializer) == DescribeAll(rows[..n], payloadSerializer) + [Describe(rows[n], payloadSerializer)]
  {
    var longer, shorter := DescribeAll(rows[..n + 1], payloadSerializer), DescribeAll(rows[..n], payloadSerializer);
    forall i | 0 <= i < n
      ensures longer[i] == shorter[i]
    {
      assert rows[..n + 1][i] == rows[..n][i];
    }
    assert longer[n] == Describe(rows[n], payloadSerializer);
    assert longer == shorter + [Describe(rows[n], payloadSerializer)];
  }

  /** Iterating twice over an unchanged result gives the same keys and messages both times. */
  method IterateTwice(it: DoctrineStreamIterator)
    returns (firstKeys: seq<int>, first: seq<MessageDescription>, secondKeys: seq<int>, second: seq<MessageDescription>)
    requires it.Valid()
    modifies it
    ensures firstKeys == secondKeys && first == second
    ensures it.executions == old(it.executions) + (if old(it.currentKey) == 0 then 1 else 2)
  {
    firstKeys, first := it.Iterate();
    secondKeys, second := it.Iterate();
  }
}
