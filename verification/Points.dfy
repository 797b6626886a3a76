/** Metrics, and the points of the InfluxDB client library that they become. */
module Points {
  import opened Text

  /** A field value, as far as the client library tells values apart. */
  datatype Datum =
    | IntDatum(i: int)
    | UintDatum(n: nat)
    | FloatDatum(r: real)
    | NonFinite            // +Inf, -Inf or NaN
    | TextDatum(s: string)
    | BoolDatum(b: bool)
    | BytesDatum(bytes: seq<int>)

  type Tags = map<string, string>
  type Fields = map<string, Datum>

  datatype Metric = Metric(tags: Tags, fields: Fields, ts: nat)

  datatype Point = Point(name: string, tags: Tags, fields: Fields, time: int)

  /** The field that carries the device's own timestamp. */
  const DEVICE_TS := "__device_timestamp__"

  /** The key of a point leaves out tags without a value, so they are gone from the point's tags. */
  function DropEmpty(tags: Tags): Tags {
    map k | k in tags && tags[k] != "" :: tags[k]
  }

  /** What the library asks of one field; `fits` is its limit on the series key of name, tags and field. */
  predicate FieldOk(fits: (string, Tags, string) -> bool, name: string, tags: Tags, key: string, value: Datum) {
    key != "" && !value.NonFinite? && fits(name, DropEmpty(tags), key)
  }

  predicate FieldsOk(fits: (string, Tags, string) -> bool, name: string, tags: Tags, fields: Fields) {
    forall k :: k in fields ==> FieldOk(fits, name, tags, k, fields[k])
  }

  /** client.NewPoint: a point needs a field, and every field must be acceptable. */
  function NewPoint(fits: (string, Tags, string) -> bool, name: string, tags: Tags, fields: Fields,
                    time: int): Option<Point> {
    if fields != map[] && FieldsOk(fits, name, tags, fields) then
      Some(Point(name, DropEmpty(tags), fields, time))
    else
      None
  }

  // ---------- reading fields back ----------

  /** A first byte that makes the library read a text or a number: a double quote or one of 0123456789-.nNiIu. */
  predicate IsValueStart(b: int) {
    b in {'"' as int, '-' as int, '.' as int, 'n' as int, 'N' as int, 'i' as int, 'I' as int, 'u' as int}
    || '0' as int <= b <= '9' as int
  }

  /** Raw bytes that the library can only read as a truth value. */
  predicate IsBare(bytes: seq<int>) {
    bytes != [] && !IsValueStart(bytes[0]) && ',' as int !in bytes
  }

  function BytesOf(s: string): (r: seq<int>)
    ensures |r| == |s| && forall i :: 0 <= i < |s| ==> r[i] == s[i] as int
  {
    seq(|s|, i requires 0 <= i < |s| => s[i] as int)
  }

  /** strconv.ParseBool, but for the two digits, which begin a number here. */
  predicate IsTruthText(bytes: seq<int>) {
    || bytes == BytesOf("t") || bytes == BytesOf("T") || bytes == BytesOf("true") || bytes == BytesOf("True") ||
      bytes == BytesOf("TRUE")
    || bytes == BytesOf("f") || bytes == BytesOf("F") || bytes == BytesOf("false") || bytes == BytesOf("False") ||
      bytes == BytesOf("FALSE")
  }

  /**
   Point.Fields(): bytes are the one kind of value that is written as it is and so may not be readable again;
   `parses` tells about bytes that are not bare.
   */
  predicate ReadsBack(parses: seq<int> -> bool, value: Datum) {
    value.BytesDatum? ==> if IsBare(value.bytes) then IsTruthText(value.bytes) else parses(value.bytes)
  }

  predicate FieldsRead(parses: seq<int> -> bool, fields: Fields) {
    forall k :: k in fields ==> ReadsBack(parses, fields[k])
  }

  const TWO_63: int := 0x8000_0000_0000_0000

  /** The conversion int64(ts) of a uint64. */
  function ToInt64(ts: nat): int {
    (ts + TWO_63) % (2 * TWO_63) - TWO_63
  }

  /** Small timestamps are kept, and large ones wrap around. */
  lemma ToInt64Is(ts: nat)
    ensures ts < 0x8000_0000_0000_0000 ==> ToInt64(ts) == ts
    ensures 0x8000_0000_0000_0000 <= ts < 0x1_0000_0000_0000_0000 ==> ToInt64(ts) == ts - 0x1_0000_0000_0000_0000
  {
    if ts >= TWO_63 {
      assert ts + TWO_63 == 2 * TWO_63 + (ts - TWO_63);
    }
  }
}
