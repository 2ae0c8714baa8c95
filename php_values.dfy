/**
 * The PHP values the adapter moves between events and table rows: metadata scalars,
 * the `(string)` and `(int)` casts applied to them, fetched rows, and the payload codec.
 */
module PhpValues {

  /** One table row as the driver hands it over: column name to the column's text. */
  type Row = map<string, string>

  /** A scalar metadata value as PHP holds it before it is cast to string. */
  datatype MetaValue = MStr(s: string) | MInt(i: int) | MBool(b: bool) | MNull

  /** An event payload. It stands for the PHP array the serializer encodes; the adapter never looks inside. */
  type Payload = map<string, MetaValue>

  /** The payload serializer, a collaborator the adapter only calls. */
  datatype PayloadCodec = PayloadCodec(serialize: Payload -> string, unserialize: string -> Payload)

  /** A serializer that reads back every payload it wrote. */
  ghost predicate RoundTrips(codec: PayloadCodec)
  {
    forall p :: codec.unserialize(codec.serialize(p)) == p
  }

  // ---------------------------------------------------------------------
  // Decimal text of integers

  predicate IsDigit(c: char)
  {
    '0' <= c <= '9'
  }

  predicate AllDigits(s: string)
  {
    forall k :: 0 <= k < |s| ==> IsDigit(s[k])
  }

  function DigitValue(c: char): nat
    requires IsDigit(c)
  {
    c as int - '0' as int
  }

  function DigitChar(d: nat): (c: char)
    requires d < 10
    ensures IsDigit(c) && DigitValue(c) == d
  {
    ('0' as int + d) as char
  }

  /** The number a run of decimal digits denotes. */
  function DigitsValue(s: string): nat
    requires AllDigits(s)
  {
    if s == [] then 0 else DigitsValue(s[..|s| - 1]) * 10 + DigitValue(s[|s| - 1])
  }

  /** The decimal text of `n`, without leading zeros. */
  function NatToString(n: nat): (r: string)
    ensures |r| > 0 && AllDigits(r)
    ensures DigitsValue(r) == n
    ensures |r| > 1 ==> r[0] != '0'
  {
    if n < 10 then [DigitChar(n)]
    else
      var prefix, last := NatToString(n / 10), DigitChar(n % 10);
      assert (prefix + [last])[..|prefix + [last]| - 1] == prefix;
      prefix + [last]
  }

  /** PHP's `(string)` of an integer: its decimal text, with a leading `-` when negative. */
  function IntToString(i: int): (r: string)
    ensures i >= 0 ==> r == NatToString(i)
    ensures i < 0 ==> r == "-" + NatToString(-i)
    ensures ParseInt(r) == i
  {
    if i < 0 then
      var digits := NatToString(-i);
      AllDigitsAreLeading(digits);
      assert ("-" + digits)[1..] == digits;
      "-" + digits
    else
      var digits := NatToString(i);
      AllDigitsAreLeading(digits);
      digits
  }

  /** The longest prefix of `s` made of decimal digits. */
  function LeadingDigits(s: string): (r: string)
    ensures AllDigits(r) && r <= s
    ensures |r| < |s| ==> !IsDigit(s[|r|])
  {
    if s == [] || !IsDigit(s[0]) then [] else [s[0]] + LeadingDigits(s[1..])
  }

  /**
   * PHP's `(int)` of a string, for the decimal forms this adapter produces: an optional sign,
   * then the longest run of digits; text without leading digits reads as 0.
   */
  function ParseInt(s: string): int
  {
    if |s| > 0 && s[0] == '-' then -(DigitsValue(LeadingDigits(s[1..])) as int)
    else if |s| > 0 && s[0] == '+' then DigitsValue(LeadingDigits(s[1..]))
    else DigitsValue(LeadingDigits(s))
  }

  lemma {:induction false} AllDigitsAreLeading(s: string)
    requires AllDigits(s)
    ensures LeadingDigits(s) == s
  {
    if s != [] {
      AllDigitsAreLeading(s[1..]);
      assert [s[0]] + s[1..] == s;
    }
  }

  /** The cast `(string)$value` applied to a metadata value. */
  function ToPhpString(v: MetaValue): (r: string)
    ensures v.MStr? ==> r == v.s
    ensures v.MInt? && v.i >= 0 ==> r == NatToString(v.i)
    ensures v.MInt? && v.i < 0 ==> r == "-" + NatToString(-v.i)
    ensures v.MInt? ==> ParseInt(r) == v.i
    ensures v.MBool? ==> (r == "1" <==> v.b) && (r == "" <==> !v.b)
    ensures v.MNull? ==> r == ""
  {
    match v
    case MStr(s) => s
    case MInt(i) => IntToString(i)
    case MBool(b) => if b then "1" else ""
    case MNull => ""
  }

  /** Every value of a metadata map cast to string. */
  function Stringify(metadata: map<string, MetaValue>): (m: map<string, string>)
    ensures m.Keys == metadata.Keys
    ensures forall k :: k in m ==> m[k] == ToPhpString(metadata[k])
  {
    map k | k in metadata :: ToPhpString(metadata[k])
  }

  /** The entries of `metadata` under `keys`, cast to string. */
  function StringifyOn(metadata: map<string, MetaValue>, keys: set<string>): map<string, string>
  {
    map k | k in keys && k in metadata :: ToPhpString(metadata[k])
  }

  lemma StringifyOnStep(metadata: map<string, MetaValue>, keys: set<string>, k: string)
    requires k in metadata
    ensures StringifyOn(metadata, keys + {k}) == StringifyOn(metadata, keys)[k := ToPhpString(metadata[k])]
  {
  }

  /** Overriding nothing gives the overriding map. */
  lemma EmptyOverride<K, V>(m: map<K, V>)
    ensures map[] + m == m
  {
  }

  /** Updating an override is overriding with the update. */
  lemma OverrideUpdate<K, V>(a: map<K, V>, b: map<K, V>, k: K, v: V)
    ensures (a + b)[k := v] == a + b[k := v]
  {
  }

  lemma StringifyOnAll(metadata: map<string, MetaValue>)
    ensures StringifyOn(metadata, metadata.Keys) == Stringify(metadata)
  {
  }

  /** The text of column `k`, reading an absent column as PHP reads null in a string context. */
  function Col(row: Row, k: string): string
  {
    if k in row then row[k] else ""
  }

  // ---------------------------------------------------------------------
  // Metadata taken back out of a row

  /** The columns of `row` outside `standard`, as metadata. */
  function NonStandard(row: Row, standard: seq<string>): map<string, MetaValue>
  {
    map k | k in row && k !in standard :: MStr(row[k])
  }

  /**
   * The loop shared by the adapter's read path and the iterator's `current()`: every column of
   * the row that is not a standard column overwrites the metadata entry of the same name.
   */
  method MergeRowMetadata(metadata: map<string, MetaValue>, row: Row, standard: seq<string>)
    returns (merged: map<string, MetaValue>)
    ensures merged == metadata + NonStandard(row, standard)
    ensures forall k :: k in merged <==> k in metadata || (k in row && k !in standard)
    ensures forall k :: k in row && k !in standard ==> merged[k] == MStr(row[k])
    ensures forall k :: k in metadata && (k !in row || k in standard) ==> merged[k] == metadata[k]
  {
    merged := metadata;
    var pending := row.Keys;
    while pending != {}
      invariant pending <= row.Keys
      invariant merged == metadata + map k | k in row && k !in pending && k !in standard :: MStr(row[k])
      decreases pending
    {
      var k :| k in pending;
      if k !in standard {
        merged := merged[k := MStr(row[k])];
      }
      pending := pending - {k};
    }
    assert (map k | k in row && k !in pending && k !in standard :: MStr(row[k])) == NonStandard(row, standard);
  }
}
