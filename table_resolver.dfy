/**
 * How the adapter turns a stream name into the name of the table that holds it:
 * an explicit entry of the stream-table map wins; otherwise the name is derived from the
 * last namespace segment of the stream name.
 */
module TableResolver {

  const StreamSuffix := "_stream"

  predicate IsUpper(c: char)
  {
    'A' <= c <= 'Z'
  }

  predicate NoUpper(s: string)
  {
    forall k :: 0 <= k < |s| ==> !IsUpper(s[k])
  }

  /** `str_replace('-', '_', s)`. */
  function ReplaceHyphens(s: string): (r: string)
    ensures |r| == |s| && '-' !in r
    ensures forall k :: 0 <= k < |s| && s[k] != '-' ==> r[k] == s[k]
    ensures forall k :: 0 <= k < |s| && s[k] == '-' ==> r[k] == '_'
  {
    if s == [] then []
    else [if s[0] == '-' then '_' else s[0]] + ReplaceHyphens(s[1..])
  }

  /**
   * The last element of `explode('\\', s)`: the longest suffix of `s` without a backslash,
   * so either all of `s` or what follows its last backslash.
   */
  function LastSegment(s: string): (r: string)
    ensures |r| <= |s| && r == s[|s| - |r|..]
    ensures '\\' !in r
    ensures |r| < |s| ==> s[|s| - |r| - 1] == '\\'
  {
    if s == [] then []
    else if s[|s| - 1] == '\\' then []
    else LastSegment(s[..|s| - 1]) + [s[|s| - 1]]
  }

  /** `strtolower(s)` on ASCII letters. */
  function ToLower(s: string): (r: string)
    ensures |r| == |s| && NoUpper(r)
    ensures forall k :: 0 <= k < |s| && !IsUpper(s[k]) ==> r[k] == s[k]
    ensures forall k :: 0 <= k < |s| && IsUpper(s[k]) ==> r[k] == (s[k] as int + 32) as char
  {
    if s == [] then []
    else [if IsUpper(s[0]) then (s[0] as int + 32) as char else s[0]] + ToLower(s[1..])
  }

  /** `strpos(s, t) !== false`: `t` occurs somewhere in `s`. */
  predicate Contains(s: string, t: string)
    decreases |s|
  {
    |t| <= |s| && (s[..|t|] == t || (|s| > 0 && Contains(s[1..], t)))
  }

  /** `getShortStreamName`: hyphens become underscores, then only the last `\`-segment is kept. */
  function ShortStreamName(streamName: string): (r: string)
    ensures '-' !in r && '\\' !in r
    ensures |r| <= |streamName| && r == ReplaceHyphens(streamName)[|streamName| - |r|..]
    ensures |r| < |streamName| ==> ReplaceHyphens(streamName)[|streamName| - |r| - 1] == '\\'
  {
    LastSegment(ReplaceHyphens(streamName))
  }

  /** The table name derived when the stream-table map has no entry for the stream. */
  function DerivedTableName(streamName: string): (r: string)
    ensures Contains(r, StreamSuffix)
    ensures '-' !in r && '\\' !in r && NoUpper(r)
    ensures var lowered := ToLower(ShortStreamName(streamName));
      && (Contains(lowered, StreamSuffix) ==> r == lowered)
      && (!Contains(lowered, StreamSuffix) ==> r == lowered + StreamSuffix)
  {
    var short := ShortStreamName(streamName);
    var lowered := ToLower(short);
    ToLowerKeepsAbsent(short, '-');
    ToLowerKeepsAbsent(short, '\\');
    if Contains(lowered, StreamSuffix) then lowered
    else
      ContainsAppended(lowered, StreamSuffix);
      SuffixKeepsShape(lowered);
      lowered + StreamSuffix
  }

  /** `getTable`: the mapped table verbatim when the stream name is a key of the map, else the derived name. */
  function GetTable(streamTableMap: map<string, string>, streamName: string): (r: string)
    ensures streamName in streamTableMap ==> r == streamTableMap[streamName]
    ensures streamName !in streamTableMap ==> r == DerivedTableName(streamName)
    ensures streamName !in streamTableMap ==> Contains(r, StreamSuffix) && '-' !in r && '\\' !in r && NoUpper(r)
  {
    if streamName in streamTableMap then streamTableMap[streamName] else DerivedTableName(streamName)
  }

  // ---------------------------------------------------------------------
  // Lemmas

  lemma {:induction false} ContainsAppended(s: string, t: string)
    ensures Contains(s + t, t)
    decreases |s|
  {
    if s == [] {
      assert (s + t)[..|t|] == t;
    } else {
      assert (s + t)[1..] == s[1..] + t;
      ContainsAppended(s[1..], t);
    }
  }

  /** Lower-casing brings in no character other than a lower-case letter. */
  lemma ToLowerKeepsAbsent(s: string, c: char)
    requires !('a' <= c <= 'z') && c !in s
    ensures c !in ToLower(s)
  {
    var r := ToLower(s);
    forall k | 0 <= k < |r|
      ensures r[k] != c
    {
      assert s[k] != c;
    }
  }

  /** Appending the suffix keeps a name free of hyphens, backslashes and capitals. */
  lemma SuffixKeepsShape(s: string)
    requires '-' !in s && '\\' !in s && NoUpper(s)
    ensures '-' !in s + StreamSuffix && '\\' !in s + StreamSuffix && NoUpper(s + StreamSuffix)
  {
    var r := s + StreamSuffix;
    forall k | 0 <= k < |r|
      ensures r[k] != '-' && r[k] != '\\' && !IsUpper(r[k])
    {
      if k < |s| {
        assert r[k] == s[k];
      } else {
        assert r[k] == StreamSuffix[k - |s|];
      }
    }
  }

  lemma {:induction false} ReplaceHyphensIdentity(s: string)
    requires '-' !in s
    ensures ReplaceHyphens(s) == s
  {
    if s != [] {
      ReplaceHyphensIdentity(s[1..]);
      assert [s[0]] + s[1..] == s;
    }
  }

  lemma {:induction false} LastSegmentIdentity(s: string)
    requires '\\' !in s
    ensures LastSegment(s) == s
  {
    if s != [] {
      assert s[|s| - 1] in s;
      LastSegmentIdentity(s[..|s| - 1]);
      assert s[..|s| - 1] + [s[|s| - 1]] == s;
    }
  }

  lemma {:induction false} ToLowerIdentity(s: string)
    requires NoUpper(s)
    ensures ToLower(s) == s
  {
    if s != [] {
      ToLowerIdentity(s[1..]);
      assert [s[0]] + s[1..] == s;
    }
  }

  /** A derived table name resolves to itself: `_stream` is never appended twice. */
  lemma DerivedTableNameIsFixpoint(streamName: string)
    ensures DerivedTableName(DerivedTableName(streamName)) == DerivedTableName(streamName)
  {
    var r := DerivedTableName(streamName);
    ReplaceHyphensIdentity(r);
    LastSegmentIdentity(r);
    ToLowerIdentity(r);
  }

  /**
   * Resolving a derived table name again changes nothing, unless the map has an entry for
   * that table name.
   */
  lemma GetTableIsIdempotent(streamTableMap: map<string, string>, streamName: string)
    requires streamName !in streamTableMap
    requires DerivedTableName(streamName) !in streamTableMap
    ensures GetTable(streamTableMap, GetTable(streamTableMap, streamName)) == GetTable(streamTableMap, streamName)
  {
    DerivedTableNameIsFixpoint(streamName);
  }
}
